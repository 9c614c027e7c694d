/** Creation of the module's bytecode vector once the fixup sizes are settled. */
module BytecodeWriter {
  import opened Options
  import opened Instructions
  import opened Relaxation
  import opened Emission
  import opened ModuleItems
  import opened Linker

  // The items from a to b of a function keep their assembly bytes.
  ghost predicate Quiet(its: seq<Item>, base: nat, sizes: seq<nat>, a: nat, b: nat)
    requires a <= b <= |its| && base + |its| <= |sizes|
  {
    forall m :: a <= m < b ==> its[m].Ins? || sizes[base + m] == 0
  }

  // The index of the i-th label or fixup, or the end of the function.
  function NextNote(its: seq<Item>, i: nat): (n: nat)
    ensures n <= |its|
    ensures i < |Notes(its)| ==> n == Notes(its)[i]
  {
    if i < |Notes(its)| then Notes(its)[i] else |its|
  }

  lemma {:induction false} InstructionsBetween(its: seq<Item>, i: nat, m: nat)
    requires i <= |Notes(its)| && m < NextNote(its, i) && (i == 0 || Notes(its)[i - 1] < m)
    ensures m < |its| && its[m].Ins?
  {
    if !its[m].Ins? {
      var j := NoteOf(its, m);
    }
  }

  /** A quiet stretch of items contributes to the final code exactly the bytes
      it has in the assembly. */
  lemma {:induction false} QuietCopies(items: seq<Item>, sizes: seq<nat>, its: seq<Item>, base: nat, a: nat, b: nat)
    returns (bytes: seq<Byte>)
    requires WellFormed(items) && Consistent(items, sizes)
    requires base + |its| <= |items| && forall k {:trigger its[k]} :: 0 <= k < |its| ==> items[base + k] == its[k]
    requires a <= b <= |its| && Quiet(its, base, sizes, a, b)
    requires forall k :: 0 <= k < |its| ==> Emittable(its[k])
    ensures Assembly(its[..b]) == Assembly(its[..a]) + bytes
    ensures Code(items, sizes, base + b) == Code(items, sizes, base + a) + bytes
    decreases b
  {
    hide Assembly, Code, Placeholder, Emittable, WellFormed, Consistent;
    if a == b {
      bytes := [];
    } else {
      var front := QuietCopies(items, sizes, its, base, a, b - 1);
      QuietItem(items, sizes, its, base, b - 1);
      bytes := front + Placeholder(its[b - 1]);
    }
  }

  lemma QuietItem(items: seq<Item>, sizes: seq<nat>, its: seq<Item>, base: nat, m: nat)
    requires WellFormed(items) && Consistent(items, sizes)
    requires base + |its| <= |items| && m < |its| && items[base + m] == its[m]
    requires its[m].Ins? || sizes[base + m] == 0
    requires forall k :: 0 <= k < |its| ==> Emittable(its[k])
    ensures Assembly(its[..m + 1]) == Assembly(its[..m]) + Placeholder(its[m])
    ensures Code(items, sizes, base + (m + 1)) == Code(items, sizes, base + m) + Placeholder(its[m])
  {
    hide Pos, LittleEndian;
    assert its[..m + 1][..m] == its[..m];
    assert ItemBytes(items, sizes, base + m) == Placeholder(its[m]);
  }

  // The state of create_bytecode inside a function, before annotation i: the
  // first done items are in the output, and so are the bytes before position.
  ghost predicate Progress(items: seq<Item>, sizes: seq<nat>, its: seq<Item>, base: nat,
                           done: nat, i: nat, position: nat, written: seq<Byte>)
    requires WellFormed(items) && Consistent(items, sizes)
    requires base + |its| <= |items| && forall k :: 0 <= k < |its| ==> Emittable(its[k])
  {
    && i <= |Notes(its)| && done <= NextNote(its, i)
    && position == |Assembly(its[..done])|
    && written == Code(items, sizes, base + done)
    && Quiet(its, base, sizes, done, NextNote(its, i))
  }

  // A function of the module, as create_bytecode reads it.
  ghost predicate FunctionAt(items: seq<Item>, its: seq<Item>, base: nat) {
    && base + |its| <= |items|
    && (forall k {:trigger its[k]} :: 0 <= k < |its| ==> items[base + k] == its[k])
    && (forall k :: 0 <= k < |its| ==> Emittable(its[k]))
  }

  lemma ProgressStart(items: seq<Item>, sizes: seq<nat>, its: seq<Item>, base: nat)
    requires WellFormed(items) && Consistent(items, sizes) && FunctionAt(items, its, base)
    ensures Progress(items, sizes, its, base, 0, 0, 0, Code(items, sizes, base))
  {
    hide Code, Notes;
    forall m | 0 <= m < NextNote(its, 0) ensures its[m].Ins? { InstructionsBetween(its, 0, m); }
    assert its[..0] == [];
  }

  // A fixup of size zero is left out of the output.
  lemma ProgressSkip(items: seq<Item>, sizes: seq<nat>, its: seq<Item>, base: nat,
                     done: nat, i: nat, position: nat, written: seq<Byte>)
    requires WellFormed(items) && Consistent(items, sizes) && FunctionAt(items, its, base)
    requires Progress(items, sizes, its, base, done, i, position, written)
    requires i < |Notes(its)| && sizes[base + Notes(its)[i]] == 0
    ensures Progress(items, sizes, its, base, done, i + 1, position, written)
  {
    hide Code, Assembly, Notes, WellFormed, NextNote, Want;
    var n := NextNote(its, i + 1);
    assert NextNote(its, i) < n by { NextNoteGrows(its, i); }
    forall m | done <= m < n ensures its[m].Ins? || sizes[base + m] == 0 {
      if Notes(its)[i] < m { InstructionsBetween(its, i + 1, m); }
    }
  }

  lemma NextNoteGrows(its: seq<Item>, i: nat)
    requires i < |Notes(its)|
    ensures NextNote(its, i) < NextNote(its, i + 1)
  {
    hide Notes;
  }

  // The bytes up to the next fixup, or to the end of the function, are copied.
  lemma ProgressCopy(items: seq<Item>, sizes: seq<nat>, its: seq<Item>, base: nat,
                     done: nat, i: nat, position: nat, written: seq<Byte>)
    requires WellFormed(items) && Consistent(items, sizes) && FunctionAt(items, its, base)
    requires Progress(items, sizes, its, base, done, i, position, written)
    ensures NextNote(its, i) <= |its|
    ensures position <= |Assembly(its[..NextNote(its, i)])| <= |Assembly(its)|
    ensures written + Assembly(its)[position..|Assembly(its[..NextNote(its, i)])|]
            == Code(items, sizes, base + NextNote(its, i))
  {
    hide Code, Assembly, Notes, WellFormed, Consistent;
    var n := NextNote(its, i);
    AssemblyPrefix(its, n, |its|);
    assert its[..|its|] == its;
    var bytes := QuietCopies(items, sizes, its, base, done, n);
    var all, before := Assembly(its), Assembly(its[..done]);
    hide *;
    assert before + bytes <= all;
    assert all[|before|..|before| + |bytes|] == bytes;
  }

  // The fixup is emitted.
  lemma ProgressEmit(items: seq<Item>, sizes: seq<nat>, its: seq<Item>, base: nat, i: nat)
    requires WellFormed(items) && Consistent(items, sizes) && FunctionAt(items, its, base)
    requires i < |Notes(its)|
    ensures var n := Notes(its)[i];
            Progress(items, sizes, its, base, n + 1, i + 1, |Assembly(its[..n])| + InitialSize(its[n]),
                     Code(items, sizes, base + n) + ItemBytes(items, sizes, base + n))
  {
    hide Notes, ItemBytes, InitialSize;
    var n := Notes(its)[i];
    assert its[..n + 1][..n] == its[..n];
    forall m | n + 1 <= m < NextNote(its, i + 1) ensures its[m].Ins? { InstructionsBetween(its, i + 1, m); }
  }

  // replace_bytecode
  method ReplaceBytecode(dest: array<Byte>, src: seq<Byte>, start1: nat, start2: nat, end2: nat)
    requires start2 <= end2 <= |src| && start1 + (end2 - start2) <= dest.Length
    modifies dest
    ensures dest[..start1 + (end2 - start2)] == old(dest[..start1]) + src[start2..end2]
  {
    var index1, index2 := start1, start2;
    while index2 < end2
      invariant start2 <= index2 <= end2 && index1 == start1 + (index2 - start2)
      invariant dest[..index1] == old(dest[..start1]) + src[start2..index2]
    {
      dest[index1] := src[index2];
      index1, index2 := index1 + 1, index2 + 1;
    }
  }

  // emit_control_label_fixup
  method EmitControlLabelFixup(size: nat, offset: int, position: nat, code: array<Byte>,
                               op8: Byte, op16: Byte, op24: Byte)
    requires 2 <= size <= 4 && position + size <= code.Length
    modifies code
    ensures code[..position + size] == old(code[..position]) + EmitControl(size, offset, op8, op16, op24)
  {
    code[position] := if size == 2 then op8 else if size == 3 then op16 else op24;
    ghost var written := [code[position]];
    assert EmitControl(size, offset, op8, op16, op24) == written + LittleEndian(offset, size - 1);
    hide EmitControl, LittleEndian;
    var i, rest := 0, offset;
    while i < size - 1
      invariant 0 <= i <= size - 1
      invariant EmitControl(size, offset, op8, op16, op24) == written + LittleEndian(rest, size - 1 - i)
      invariant code[..position + 1 + i] == old(code[..position]) + written
    {
      LittleEndianStep(rest, size - 1 - i);
      written := written + [rest % 256];
      code[position + i + 1] := rest % 256;
      rest := rest / 256;
      i := i + 1;
    }
  }

  lemma LittleEndianStep(rest: int, n: nat)
    requires n > 0
    ensures LittleEndian(rest, n) == [rest % 256] + LittleEndian(rest / 256, n - 1)
  {
  }

  // JumpIfSuppliedFixup_O::emit
  method EmitJumpIfSupplied(index: Byte, size: nat, delta: int, position: nat, code: array<Byte>)
    requires 3 <= size <= 4 && position + size <= code.Length
    modifies code
    ensures code[..position + size] == old(code[..position]) + EmitSupplied(size, index, delta)
  {
    code[position] := if size == 3 then VM_JUMP_IF_SUPPLIED_8 else VM_JUMP_IF_SUPPLIED_16;
    code[position + 1] := index;
    ghost var written := [];
    assert code[..position + 2] == old(code[..position]) + [code[position], index];
    ghost var opcode := code[position];
    hide LittleEndian;
    var i, rest := 0, delta;
    while i < size - 2
      invariant 0 <= i <= size - 2
      invariant LittleEndian(delta, size - 2) == written + LittleEndian(rest, size - 2 - i)
      invariant code[..position + 2 + i] == old(code[..position]) + [opcode, index] + written
    {
      LittleEndianStep(rest, size - 2 - i);
      written := written + [rest % 256];
      code[position + i + 2] := rest % 256;
      rest := rest / 256;
      i := i + 1;
    }
  }

  // The two- and four-byte forms that EncageFixup_O::emit, LexSetFixup_O::emit,
  // EntryFixup_O::emit and RestoreSPFixup_O::emit write.
  method EmitOperand(opcode: Byte, index: nat, position: nat, code: array<Byte>)
    requires index < 0x1_0000 && position + |Encode(I1(opcode, index))| <= code.Length
    modifies code
    ensures code[..position + |Encode(I1(opcode, index))|] == old(code[..position]) + Encode(I1(opcode, index))
    ensures forall k :: position + |Encode(I1(opcode, index))| <= k < code.Length ==> code[k] == old(code[k])
  {
    if index < 256 {
      code[position], code[position + 1] := opcode, index;
    } else {
      code[position], code[position + 1] := VM_LONG, opcode;
      code[position + 2], code[position + 3] := index % 256, index / 256;
    }
  }

  // LexSetFixup_O::emit
  method EmitLexSet(lex: Lexical, size: nat, position: nat, code: array<Byte>)
    requires lex.frameIndex < 0x1_0000 && Resize(LexSet(lex), 0) == Some(size) && position + size <= code.Length
    modifies code
    ensures code[..position + size] == old(code[..position]) + Emit(LexSet(lex), size, 0)
  {
    if lex.Indirect() {
      EmitOperand(VM_REF, lex.frameIndex, position, code);
      code[position + size - 1] := VM_CELL_SET;
    } else {
      EmitOperand(VM_SET, lex.frameIndex, position, code);
    }
  }

  // The emit method of every fixup class.
  method EmitFixup(item: Item, size: nat, delta: int, position: nat, code: array<Byte>)
    requires !item.Ins? && !item.Mark?
    requires Emittable(item) && Resize(item, delta) == Some(size) && size > 0 && position + size <= code.Length
    modifies code
    ensures code[..position + size] == old(code[..position]) + Emit(item, size, delta)
  {
    hide LittleEndian, EmitControl, EmitSupplied;
    match item
    case Control(_, op8, op16, op24) =>
      EmitControlLabelFixup(size, delta, position, code, op8, op16, op24);
    case Exit(_, lex) =>
      if lex.closedOverP {
        EmitControlLabelFixup(size, delta, position, code, VM_EXIT_8, VM_EXIT_16, VM_EXIT_24);
      } else {
        EmitControlLabelFixup(size, delta, position, code, VM_JUMP_8, VM_JUMP_16, VM_JUMP_24);
      }
    case Supplied(_, index) =>
      EmitJumpIfSupplied(index, size, delta, position, code);
    case LexRef(_, opcode) =>
      code[position] := opcode;
    case Encage(lex) =>
      EmitOperand(VM_ENCELL, lex.frameIndex, position, code);
    case LexSet(lex) =>
      EmitLexSet(lex, size, position, code);
    case Entry(lex) =>
      EmitOperand(if lex.closedOverP then VM_ENTRY else VM_SAVE_SP, lex.frameIndex, position, code);
    case RestoreSp(lex) =>
      EmitOperand(if lex.closedOverP then VM_REF else VM_RESTORE_SP, lex.frameIndex, position, code);
    case EntryClose(_) =>
      code[position] := VM_ENTRY_CLOSE;
  }

  // A settled function, as create_bytecode meets it.
  lemma SettledFunction(fs: seq<Cfunction>, parts: seq<seq<Item>>, labels: map<nat, Place>, sizes: seq<nat>, f: nat)
    requires Relaxing(fs, parts, labels, sizes) && Consistent(Flatten(parts), sizes) && f < |fs|
    ensures |fs| == |parts| && |sizes| == |Flatten(parts)| && WellFormed(Flatten(parts))
    ensures FunctionAt(Flatten(parts), parts[f], Start(parts, f))
    ensures Start(parts, f + 1) == Start(parts, f) + |parts[f]|
    ensures fs[f].bytecode == Assembly(parts[f]) && |fs[f].annotations| == |Notes(parts[f])|
    ensures Laid(fs[f], parts[f], Start(parts, f), sizes)
    ensures Start(parts, f) + |parts[f]| <= |Flatten(parts)|
    ensures forall k :: 0 <= k < |parts[f]| ==> Emittable(parts[f][k])
  {
    hide *;
    RelaxingMeans(fs, parts, labels, sizes, f);
    FunctionItems(parts, f);
    FunctionSpan(parts, f);
    FunctionIsLaid(fs, parts, labels, sizes, f);
    MakeFunctionAt(Flatten(parts), parts[f], Start(parts, f));
  }

  lemma FunctionIsLaid(fs: seq<Cfunction>, parts: seq<seq<Item>>, labels: map<nat, Place>, sizes: seq<nat>, f: nat)
    requires Relaxing(fs, parts, labels, sizes) && f < |fs|
    ensures |fs| == |parts| && Laid(fs[f], parts[f], Start(parts, f), sizes)
    ensures forall k :: 0 <= k < |parts[f]| ==> Emittable(parts[f][k])
    ensures fs[f].bytecode == Assembly(parts[f])
  {
    hide Start, Flatten, NoteLaid, Pos, Notes, Emittable, Assembly, WellFormed, Optimistic, LabelsAgree, LabelsPlaced;
  }

  lemma MakeFunctionAt(items: seq<Item>, its: seq<Item>, base: nat)
    requires base + |its| <= |items|
    requires forall k {:trigger its[k]} :: 0 <= k < |its| ==> items[base + k] == its[k]
    requires forall k :: 0 <= k < |its| ==> Emittable(its[k])
    ensures FunctionAt(items, its, base)
  {
  }

  // A fixup that create_bytecode leaves out, and every label.
  lemma StepSkip(fs: seq<Cfunction>, parts: seq<seq<Item>>, labels: map<nat, Place>, sizes: seq<nat>, f: nat, i: nat,
                 done: nat, position: nat, written: seq<Byte>)
    requires Relaxing(fs, parts, labels, sizes) && Consistent(Flatten(parts), sizes) && f < |fs|
    requires i < |fs[f].annotations|
    requires |fs| == |parts| && WellFormed(Flatten(parts)) && FunctionAt(Flatten(parts), parts[f], Start(parts, f))
    requires Progress(Flatten(parts), sizes, parts[f], Start(parts, f), done, i, position, written)
    requires fs[f].annotations[i].item.Mark? || fs[f].annotations[i].size == 0
    ensures Progress(Flatten(parts), sizes, parts[f], Start(parts, f), done, i + 1, position, written)
  {
    hide *;
    SettledFunction(fs, parts, labels, sizes, f);
    RelaxingPosition(fs, parts, labels, sizes, f, i);
    SizeIsWanted(Flatten(parts), sizes, Start(parts, f) + Notes(parts[f])[i]);
    ProgressSkip(Flatten(parts), sizes, parts[f], Start(parts, f), done, i, position, written);
  }

  lemma SizeIsWanted(items: seq<Item>, sizes: seq<nat>, k: nat)
    requires WellFormed(items) && Consistent(items, sizes) && k < |items|
    ensures |sizes| == |items| && Emittable(items[k])
    ensures Resize(items[k], Delta(items, sizes, k)) == Some(sizes[k])
    ensures Want(items, sizes, k) == Some(sizes[k])
    ensures ItemBytes(items, sizes, k) == Emit(items[k], sizes[k], Delta(items, sizes, k))
    ensures items[k].Mark? ==> sizes[k] == 0
    ensures Code(items, sizes, k) <= LinkedCode(items, sizes)
    ensures Code(items, sizes, k + 1) == Code(items, sizes, k) + Emit(items[k], sizes[k], Delta(items, sizes, k))
    ensures Pos(sizes, k) + sizes[k] <= Pos(sizes, |items|)
  {
    hide Emit, Delta;
    CodeExtends(items, sizes, k, |items|);
    PosMonotone(sizes, k + 1, |items|);
  }

  lemma RelaxingPosition(fs: seq<Cfunction>, parts: seq<seq<Item>>, labels: map<nat, Place>, sizes: seq<nat>, f: nat,
                         i: nat)
    requires Relaxing(fs, parts, labels, sizes) && f < |fs| && i < |fs[f].annotations|
    ensures |parts| == |fs| && i < |Notes(parts[f])| && LabelsAgree(fs, labels) && |sizes| == |Flatten(parts)|
    ensures var k, a := Start(parts, f) + Notes(parts[f])[i], fs[f].annotations[i];
            && k < |sizes| && a.position + fs[f].position == Pos(sizes, k) && a.size == sizes[k]
            && Flatten(parts)[k] == a.item
            && (a.item.IsLabelFixup() ==> a.item.id in labels)
            && ItsDelta(fs, labels, f, i) == Delta(Flatten(parts), sizes, k)
    ensures forall k :: 0 <= k < |parts[f]| ==> Emittable(parts[f][k])
    ensures fs[f].annotations[i].initialPosition == |Assembly(parts[f][..Notes(parts[f])[i]])|
    ensures fs[f].annotations[i].item == parts[f][Notes(parts[f])[i]]
  {
    hide AllLaid, LabelsAgree, LabelsPlaced, Flatten, Start, Notes, Pos, Laid, WellFormed, Optimistic, Assembly,
      Delta, ItsDelta, Emittable;
    PositionInLayout(fs, parts, sizes, f, i);
    DeltaIsDistance(fs, parts, labels, sizes, f, i);
    FunctionIsLaid(fs, parts, labels, sizes, f);
    LaidNote(fs[f], parts[f], Start(parts, f), sizes, i);
    PlacedHere(fs, labels, f, i);
    FunctionItems(parts, f);
  }

  /** Where create_bytecode stands when it emits fixup i: both of its ASSERTs
      hold and the fixup fits. */
  lemma StepEmit(fs: seq<Cfunction>, parts: seq<seq<Item>>, labels: map<nat, Place>, sizes: seq<nat>, f: nat, i: nat,
                 done: nat, position: nat, written: seq<Byte>)
    requires Relaxing(fs, parts, labels, sizes) && Consistent(Flatten(parts), sizes) && f < |fs|
    requires i < |fs[f].annotations| && !fs[f].annotations[i].item.Mark?
    requires |fs| == |parts| && WellFormed(Flatten(parts)) && FunctionAt(Flatten(parts), parts[f], Start(parts, f))
    requires Progress(Flatten(parts), sizes, parts[f], Start(parts, f), done, i, position, written)
    requires LabelsAgree(fs, labels)
    ensures |sizes| == |Flatten(parts)| && i < |Notes(parts[f])|
    ensures var a, n := fs[f].annotations[i], Notes(parts[f])[i];
            && !a.item.Ins? && Emittable(a.item) && (a.item.IsLabelFixup() ==> a.item.id in labels)
            && Resize(a.item, ItsDelta(fs, labels, f, i)) == Some(a.size)
            && position <= a.initialPosition <= |fs[f].bytecode|
            && |written| + (a.initialPosition - position) == a.position + fs[f].position
            && a.position + fs[f].position + a.size <= Pos(sizes, |sizes|)
            && Progress(Flatten(parts), sizes, parts[f], Start(parts, f), n + 1, i + 1,
                        a.initialPosition + InitialSize(a.item),
                        written + fs[f].bytecode[position..a.initialPosition]
                        + Emit(a.item, a.size, ItsDelta(fs, labels, f, i)))
  {
    hide *;
    SettledFunction(fs, parts, labels, sizes, f);
    RelaxingPosition(fs, parts, labels, sizes, f, i);
    var items, its, base, n := Flatten(parts), parts[f], Start(parts, f), Notes(parts[f])[i];
    SizeIsWanted(items, sizes, base + n);
    ProgressCopy(items, sizes, its, base, done, i, position, written);
    ProgressEmit(items, sizes, its, base, i);
    NoteIsNoInstruction(its, i);
    CodeLength(items, sizes, base + n);
  }

  lemma NoteIsNoInstruction(its: seq<Item>, i: nat)
    requires i < |Notes(its)|
    ensures !its[Notes(its)[i]].Ins?
  {
  }

  lemma CodeLength(items: seq<Item>, sizes: seq<nat>, k: nat)
    requires WellFormed(items) && Consistent(items, sizes) && k <= |items|
    ensures |sizes| == |items| && |Code(items, sizes, k)| == Pos(sizes, k)
  {
  }

  // The rest of a function is copied.
  lemma StepFinish(fs: seq<Cfunction>, parts: seq<seq<Item>>, labels: map<nat, Place>, sizes: seq<nat>, f: nat,
                   done: nat, position: nat, written: seq<Byte>)
    requires Relaxing(fs, parts, labels, sizes) && Consistent(Flatten(parts), sizes) && f < |fs|
    requires |fs| == |parts| && WellFormed(Flatten(parts)) && FunctionAt(Flatten(parts), parts[f], Start(parts, f))
    requires Progress(Flatten(parts), sizes, parts[f], Start(parts, f), done, |fs[f].annotations|, position, written)
    ensures |sizes| == |Flatten(parts)|
    ensures position <= |fs[f].bytecode|
    ensures |written| + (|fs[f].bytecode| - position) <= Pos(sizes, |sizes|)
    ensures written + fs[f].bytecode[position..|fs[f].bytecode|] == Code(Flatten(parts), sizes, Start(parts, f + 1))
  {
    hide *;
    SettledFunction(fs, parts, labels, sizes, f);
    FunctionSpan(parts, f);
    var items, its, base := Flatten(parts), parts[f], Start(parts, f);
    ProgressCopy(items, sizes, its, base, done, |fs[f].annotations|, position, written);
    NextNoteEnd(its, |fs[f].annotations|);
    CodeLength(items, sizes, base + |its|);
    PosMonotone(sizes, base + |its|, |sizes|);
    assert its[..|its|] == its;
  }

  lemma NextNoteEnd(its: seq<Item>, i: nat)
    requires |Notes(its)| <= i
    ensures NextNote(its, i) == |its|
  {
  }

  /** The part of create_bytecode for one function: it appends to the output
      the linked code of exactly that function's items. */
  method WriteFunction(fs: seq<Cfunction>, f: nat, labels: map<nat, Place>, code: array<Byte>, start: nat,
                       ghost parts: seq<seq<Item>>, ghost sizes: seq<nat>) returns (index: nat)
    requires Relaxing(fs, parts, labels, sizes) && Consistent(Flatten(parts), sizes) && f < |fs| == |parts|
    requires |sizes| == |Flatten(parts)| && WellFormed(Flatten(parts))
    requires start <= code.Length == Pos(sizes, |sizes|)
    requires code[..start] == Code(Flatten(parts), sizes, Start(parts, f))
    modifies code
    ensures index <= code.Length && code[..index] == Code(Flatten(parts), sizes, Start(parts, f + 1))
  {
    hide *;
    RelaxingMeans(fs, parts, labels, sizes, f);
    SettledFunction(fs, parts, labels, sizes, f);
    ProgressStart(Flatten(parts), sizes, parts[f], Start(parts, f));
    var bytecode, annotations := fs[f].bytecode, fs[f].annotations;
    index := start;
    var position: nat, i: nat := 0, 0;
    ghost var done: nat := 0;
    while i < |annotations|
      invariant 0 <= i <= |annotations| && index <= code.Length
      invariant Progress(Flatten(parts), sizes, parts[f], Start(parts, f), done, i, position, code[..index])
    {
      var fixup := annotations[i];
      if !fixup.item.Mark? && fixup.size != 0 {
        StepEmit(fs, parts, labels, sizes, f, i, done, position, code[..index]);
        var delta := ItsDelta(fs, labels, f, i);
        assert Some(fixup.size) == Resize(fixup.item, delta);
        var end := fixup.initialPosition;
        ReplaceBytecode(code, bytecode, index, position, end);
        index := index + (end - position);
        assert index == fixup.position + fs[f].position;
        EmitFixup(fixup.item, fixup.size, delta, index, code);
        position := end + InitialSize(fixup.item);
        index := index + fixup.size;
        done := Notes(parts[f])[i] + 1;
      } else {
        StepSkip(fs, parts, labels, sizes, f, i, done, position, code[..index]);
      }
      i := i + 1;
    }
    StepFinish(fs, parts, labels, sizes, f, done, position, code[..index]);
    ReplaceBytecode(code, bytecode, index, position, |bytecode|);
    index := index + (|bytecode| - position);
  }

  // Module_O::bytecode_size
  method BytecodeSize(fs: seq<Cfunction>, labels: map<nat, Place>, ghost parts: seq<seq<Item>>, ghost sizes: seq<nat>)
    returns (size: nat)
    requires Relaxing(fs, parts, labels, sizes) && |fs| > 0
    ensures size == Pos(sizes, |sizes|)
  {
    hide *;
    var last := fs[|fs| - 1];
    size := last.position + last.FinalSize();
    RelaxingMeans(fs, parts, labels, sizes, |fs| - 1);
    FunctionIsLaid(fs, parts, labels, sizes, |fs| - 1);
    LaidEnd(last, parts[|fs| - 1], Start(parts, |fs| - 1), sizes);
    FunctionItems(parts, |fs| - 1);
    FunctionSpan(parts, |fs| - 1);
  }

  lemma LaidEnd(cf: Cfunction, its: seq<Item>, base: nat, sizes: seq<nat>)
    requires Laid(cf, its, base, sizes)
    ensures base + |its| <= |sizes| && cf.position + cf.FinalSize() == Pos(sizes, base + |its|)
  {
    hide Pos, Notes, NoteLaid, Emittable, Assembly;
  }

  /** Module_O::create_bytecode writes the linked code of the module. */
  method CreateBytecode(m: Module, ghost sizes: seq<nat>) returns (code: array<Byte>)
    requires Relaxing(m.cfunctions, m.parts, m.labels, sizes) && |m.cfunctions| > 0
    requires WellFormed(Flatten(m.parts)) && Consistent(Flatten(m.parts), sizes)
    ensures fresh(code) && code[..] == LinkedCode(Flatten(m.parts), sizes)
  {
    hide *;
    RelaxingMeans(m.cfunctions, m.parts, m.labels, sizes, 0);
    var size := BytecodeSize(m.cfunctions, m.labels, m.parts, sizes);
    code := new Byte[size](_ => 0);
    var index: nat, f: nat := 0, 0;
    CodeStart(m.parts, sizes);
    CodeReady(Flatten(m.parts), sizes);
    while f < |m.cfunctions|
      invariant 0 <= f <= |m.cfunctions| == |m.parts| && index <= code.Length
      invariant |sizes| == |Flatten(m.parts)|
      invariant code[..index] == Code(Flatten(m.parts), sizes, Start(m.parts, f))
    {
      index := WriteFunction(m.cfunctions, f, m.labels, code, index, m.parts, sizes);
      f := f + 1;
    }
    CodeEnd(m.parts, sizes);
    assert code[..index] == code[..];
  }

  lemma CodeReady(items: seq<Item>, sizes: seq<nat>)
    requires WellFormed(items) && Consistent(items, sizes)
    ensures |sizes| == |items|
    ensures forall j :: 0 <= j < |items| ==> Emittable(items[j]) && Want(items, sizes, j) == Some(sizes[j])
  {
    hide Want;
  }

  lemma CodeStart(parts: seq<seq<Item>>, sizes: seq<nat>)
    requires WellFormed(Flatten(parts)) && Consistent(Flatten(parts), sizes)
    ensures Code(Flatten(parts), sizes, Start(parts, 0)) == []
  {
    hide Emit;
  }

  lemma CodeEnd(parts: seq<seq<Item>>, sizes: seq<nat>)
    requires WellFormed(Flatten(parts)) && Consistent(Flatten(parts), sizes) && |parts| > 0
    ensures Code(Flatten(parts), sizes, Start(parts, |parts|)) == LinkedCode(Flatten(parts), sizes)
    ensures |LinkedCode(Flatten(parts), sizes)| == Pos(sizes, |sizes|)
  {
    hide Emit, Start, Flatten, Code;
    FunctionItems(parts, |parts| - 1);
  }

  /** Module_O::link followed by create_bytecode, for any module as emitted:
      linking succeeds exactly when some sizes give every jump room for its
      distance, the output is then the linked code of the least such sizes, and
      otherwise some jump is too short in every layout. */
  method Link(m: Module) returns (code: Option<array<Byte>>, ghost sizes: seq<nat>)
    requires m.Valid() && LabelsPlaced(m.cfunctions, m.labels) && |m.cfunctions| > 0
    modifies m
    ensures m.parts == old(m.parts) && WellFormed(Flatten(m.parts))
    ensures code.None? ==>
              forall t :: RoomForTheRest(Flatten(m.parts), t) ==>
                exists k :: 0 <= k < |t| && Flatten(m.parts)[k].IsLabelFixup()
                            && !Spans(Flatten(m.parts)[k], t[k], Delta(Flatten(m.parts), t, k))
    ensures code.None? ==> forall t :: !Consistent(Flatten(m.parts), t)
    ensures code.Some? ==>
              && Consistent(Flatten(m.parts), sizes)
              && Adequate(Flatten(m.parts), sizes)
              && (forall t :: Adequate(Flatten(m.parts), t) ==> AtMost(sizes, t))
              && (forall t :: Consistent(Flatten(m.parts), t) ==> AtMost(sizes, t))
              && fresh(code.value) && code.value[..] == LinkedCode(Flatten(m.parts), sizes)
              && Relaxing(m.cfunctions, m.parts, m.labels, sizes)
  {
    ValidIsEmitted(m);
    hide *;
    m.InitializeCfunctionPositions();
    RelaxingMeans(m.cfunctions, m.parts, m.labels, InitialSizes(Flatten(m.parts)), 0);
    var ok;
    ok, sizes := m.ResolveFixupSizes();
    if !ok {
      NoneConsistent(Flatten(m.parts));
      AlwaysTooShort(Flatten(m.parts));
      return None, sizes;
    }
    LeastConsistent(Flatten(m.parts), sizes);
    RelaxingMeans(m.cfunctions, m.parts, m.labels, sizes, 0);
    var bytes := CreateBytecode(m, sizes);
    code := Some(bytes);
  }

  lemma AlwaysTooShort(items: seq<Item>)
    requires WellFormed(items) && forall t :: !Adequate(items, t)
    ensures forall t :: RoomForTheRest(items, t) ==>
              |t| == |items|
              && exists k :: 0 <= k < |t| && items[k].IsLabelFixup() && !Spans(items[k], t[k], Delta(items, t, k))
  {
    hide Spans, Delta;
    forall t | RoomForTheRest(items, t)
      ensures exists k :: 0 <= k < |t| && items[k].IsLabelFixup() && !Spans(items[k], t[k], Delta(items, t, k))
    {
      SomeFixupTooShort(items, t);
    }
  }

  lemma ValidIsEmitted(m: Module)
    requires m.Valid()
    ensures Emitted(m.cfunctions, m.parts, m.labels) && |m.cfunctions| == |m.parts|
  {
  }
}
