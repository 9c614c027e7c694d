/** Keyword argument parsing in the virtual machine: the loop that runs over the
    arguments from the last pair to the first, and the operands it is given. */
module KeywordArguments {
  import opened Options
  import opened Instructions
  import opened Emission
  import opened Source
  import opened VirtualMachine

  datatype KeyError = OddKeywords | UnrecognizedKeywords(keys: seq<Value>)

  // The value after the leftmost occurrence of a key among the pairs from index start on.
  function Leftmost(args: seq<Value>, start: nat, key: Value): Option<Value>
    decreases |args| - start
  {
    if start + 1 >= |args| then None
    else if args[start] == key then Some(args[start + 1])
    else Leftmost(args, start + 2, key)
  }

  // k is the index of a key among the pairs from start on.
  predicate IsKeyIndex(args: seq<Value>, start: nat, k: int) {
    start <= k && k + 1 < |args| && (k - start) % 2 == 0
  }

  ghost predicate FirstAt(args: seq<Value>, start: nat, key: Value, k: int) {
    IsKeyIndex(args, start, k) && args[k] == key && forall j :: IsKeyIndex(args, start, j) && j < k ==> args[j] != key
  }

  /** The leftmost occurrence, said with indices. */
  lemma {:induction false} LeftmostIsFirst(args: seq<Value>, start: nat, key: Value)
    ensures Leftmost(args, start, key).None? ==> forall k :: IsKeyIndex(args, start, k) ==> args[k] != key
    ensures Leftmost(args, start, key).Some? ==>
              exists k :: FirstAt(args, start, key, k) && args[k + 1] == Leftmost(args, start, key).value
    decreases |args| - start
  {
    if start + 1 < |args| {
      if args[start] == key {
        assert FirstAt(args, start, key, start);
      } else {
        LeftmostIsFirst(args, start + 2, key);
        assert forall k :: IsKeyIndex(args, start, k) ==> k == start || IsKeyIndex(args, start + 2, k);
        if Leftmost(args, start, key).Some? {
          var k :| FirstAt(args, start + 2, key, k) && args[k + 1] == Leftmost(args, start, key).value;
          assert FirstAt(args, start, key, k);
        }
      }
    }
  }

  // The keys from index start on that are not allowed, in argument order.
  function Unknown(args: seq<Value>, start: nat, allowed: set<Value>): seq<Value>
    decreases |args| - start
  {
    if start + 1 >= |args| then []
    else (if args[start] in allowed then [] else [args[start]]) + Unknown(args, start + 2, allowed)
  }

  // Section 3.4.1.4.1 of the Common Lisp HyperSpec: the leftmost :allow-other-keys decides.
  predicate Allowed(args: seq<Value>, start: nat, allowOtherKeys: Value) {
    var v := Leftmost(args, start, allowOtherKeys);
    v.Some? && v.value != Nil
  }

  function Allowable(keys: seq<Value>, allowOtherKeys: Value): set<Value> {
    (set key | key in keys) + {allowOtherKeys}
  }

  // ---- the outcome, said with indices ----

  // k is the index of a key that is neither declared nor :allow-other-keys.
  predicate UnknownAt(args: seq<Value>, start: nat, keys: seq<Value>, allowOtherKeys: Value, k: int) {
    IsKeyIndex(args, start, k) && args[k] !in keys && args[k] != allowOtherKeys
  }

  // The indices of all such keys in increasing order, and the keys there.
  ghost predicate Lists(args: seq<Value>, start: nat, keys: seq<Value>, allowOtherKeys: Value, indices: seq<int>,
                        unknown: seq<Value>) {
    && |indices| == |unknown|
    && (forall i, j :: 0 <= i < j < |indices| ==> indices[i] < indices[j])
    && (forall i :: 0 <= i < |indices| ==>
          UnknownAt(args, start, keys, allowOtherKeys, indices[i]) && unknown[i] == args[indices[i]])
    && (forall k :: UnknownAt(args, start, keys, allowOtherKeys, k) ==> k in indices)
  }

  // The caller's leftmost :allow-other-keys is true.
  ghost predicate AllowedAt(args: seq<Value>, start: nat, allowOtherKeys: Value) {
    exists k :: FirstAt(args, start, allowOtherKeys, k) && args[k + 1] != Nil
  }

  lemma {:induction false} UnknownIsListed(args: seq<Value>, start: nat, keys: seq<Value>, allowOtherKeys: Value)
    returns (indices: seq<int>)
    ensures Lists(args, start, keys, allowOtherKeys, indices, Unknown(args, start, Allowable(keys, allowOtherKeys)))
    decreases |args| - start
  {
    if start + 1 >= |args| {
      indices := [];
    } else {
      var later := UnknownIsListed(args, start + 2, keys, allowOtherKeys);
      var unknown := Unknown(args, start + 2, Allowable(keys, allowOtherKeys));
      if UnknownAt(args, start, keys, allowOtherKeys, start) {
        ListsOneMore(args, start, keys, allowOtherKeys, later, unknown);
        indices := [start] + later;
      } else {
        ListsNoMore(args, start, keys, allowOtherKeys, later, unknown);
        indices := later;
        assert [] + unknown == unknown;
      }
    }
  }

  lemma ListsOneMore(args: seq<Value>, start: nat, keys: seq<Value>, allowOtherKeys: Value, later: seq<int>,
                     unknown: seq<Value>)
    requires Lists(args, start + 2, keys, allowOtherKeys, later, unknown)
    requires UnknownAt(args, start, keys, allowOtherKeys, start)
    ensures Lists(args, start, keys, allowOtherKeys, [start] + later, [args[start]] + unknown)
  {
    var indices, found := [start] + later, [args[start]] + unknown;
    UnknownOn(args, start, keys, allowOtherKeys);
    hide UnknownAt;
    forall i | 0 <= i < |indices|
      ensures UnknownAt(args, start, keys, allowOtherKeys, indices[i]) && found[i] == args[indices[i]]
      ensures i > 0 ==> start < indices[i]
    {
      if i > 0 { assert UnknownAt(args, start + 2, keys, allowOtherKeys, later[i - 1]); }
    }
    forall k | UnknownAt(args, start, keys, allowOtherKeys, k) ensures k in indices {
      assert k == indices[0] || k in later;
    }
  }

  lemma ListsNoMore(args: seq<Value>, start: nat, keys: seq<Value>, allowOtherKeys: Value, later: seq<int>,
                    unknown: seq<Value>)
    requires start + 1 < |args| && Lists(args, start + 2, keys, allowOtherKeys, later, unknown)
    requires !UnknownAt(args, start, keys, allowOtherKeys, start)
    ensures Lists(args, start, keys, allowOtherKeys, later, unknown)
  {
    UnknownOn(args, start, keys, allowOtherKeys);
    hide UnknownAt;
    forall i | 0 <= i < |later| ensures UnknownAt(args, start, keys, allowOtherKeys, later[i]) {
      assert UnknownAt(args, start + 2, keys, allowOtherKeys, later[i]);
    }
  }

  // The keys from one pair on are that of the pair and those from the next on.
  lemma UnknownOn(args: seq<Value>, start: nat, keys: seq<Value>, allowOtherKeys: Value)
    ensures UnknownAt(args, start, keys, allowOtherKeys, start) ==> start < |args|
    ensures forall k {:trigger UnknownAt(args, start, keys, allowOtherKeys, k)} ::
              UnknownAt(args, start, keys, allowOtherKeys, k) ==>
                0 <= k < |args| && (k == start || UnknownAt(args, start + 2, keys, allowOtherKeys, k))
    ensures forall k {:trigger UnknownAt(args, start + 2, keys, allowOtherKeys, k)} ::
              UnknownAt(args, start + 2, keys, allowOtherKeys, k) ==>
                start < k < |args| && UnknownAt(args, start, keys, allowOtherKeys, k)
  {
  }

  lemma AllowedMeans(args: seq<Value>, start: nat, allowOtherKeys: Value)
    ensures Allowed(args, start, allowOtherKeys) <==> AllowedAt(args, start, allowOtherKeys)
  {
    LeftmostIsFirst(args, start, allowOtherKeys);
    hide Leftmost;
    if AllowedAt(args, start, allowOtherKeys) {
      var k :| FirstAt(args, start, allowOtherKeys, k) && args[k + 1] != Nil;
      var l :| FirstAt(args, start, allowOtherKeys, l)
               && args[l + 1] == Leftmost(args, start, allowOtherKeys).value;
      assert k == l;
    }
  }

  // What the register of the key declared at place i holds: the value after the
  // first occurrence of the key, or the unbound marker if there is none or the
  // key is declared before as well.
  ghost predicate HoldsKey(args: seq<Value>, start: nat, keys: seq<Value>, i: nat, slot: Slot)
    requires i < |keys|
  {
    if keys[i] in keys[..i] || forall k :: IsKeyIndex(args, start, k) ==> args[k] != keys[i]
    then slot == Val(Unbound)
    else exists k :: FirstAt(args, start, keys[i], k) && slot == Val(args[k + 1])
  }

  // What the register of the i-th key holds once the pairs from start on have
  // been looked at; a key that is declared twice is only ever found once.
  function KeyRegister(args: seq<Value>, start: nat, keys: seq<Value>, i: nat): Slot
    requires i < |keys|
  {
    var v := Leftmost(args, start, keys[i]);
    Val(if v.None? || keys[i] in keys[..i] then Unbound else v.value)
  }

  // copytoreg
  method CopyToReg(regs: array<Slot>, source: seq<Value>, base: nat)
    requires base + |source| <= regs.Length
    modifies regs
    ensures forall i :: 0 <= i < regs.Length ==>
              regs[i] == if base <= i < base + |source| then Val(source[i - base]) else old(regs[i])
  {
    var n := 0;
    while n < |source|
      invariant 0 <= n <= |source|
      invariant forall i :: 0 <= i < regs.Length ==>
                  regs[i] == if base <= i < base + n then Val(source[i - base]) else old(regs[i])
    {
      regs[base + n] := Val(source[n]);
      n := n + 1;
    }
  }

  // fillreg
  method FillReg(regs: array<Slot>, value: Value, count: nat, base: nat)
    requires base + count <= regs.Length
    modifies regs
    ensures forall i :: 0 <= i < regs.Length ==>
              regs[i] == if base <= i < base + count then Val(value) else old(regs[i])
  {
    var n := 0;
    while n < count
      invariant 0 <= n <= count
      invariant forall i :: 0 <= i < regs.Length ==>
                  regs[i] == if base <= i < base + n then Val(value) else old(regs[i])
    {
      regs[base + n] := Val(value);
      n := n + 1;
    }
  }

  /** vm_bind_optional_args: every optional parameter gets its argument or is
      left unbound. The required arguments have been checked for before. */
  method BindOptionalArgs(args: seq<Value>, nreq: nat, nopt: nat, regs: array<Slot>)
    requires nreq <= |args| && nreq + nopt <= regs.Length
    modifies regs
    ensures forall i :: 0 <= i < regs.Length ==>
              regs[i] == if nreq <= i < nreq + nopt then Val(if i < |args| then args[i] else Unbound) else old(regs[i])
  {
    if |args| >= nreq + nopt {
      CopyToReg(regs, args[nreq..nreq + nopt], nreq);
    } else {
      CopyToReg(regs, args[nreq..], nreq);
      FillReg(regs, Unbound, nreq + nopt - |args|, |args|);
    }
  }

  /** vm_parse_key_args: the loop that overwrites from right to left leaves what
      the leftmost-wins rule asks for. */
  method ParseKeyArgs(args: seq<Value>, moreStart: nat, keys: seq<Value>, lambdaListAllows: bool, allowOtherKeys: Value,
                      regs: array<Slot>, frameStart: nat) returns (error: Option<KeyError>)
    requires frameStart + |keys| <= regs.Length
    modifies regs
    ensures error == Some(OddKeywords) <==> |args| > moreStart && (|args| - moreStart) % 2 != 0
    ensures error != Some(OddKeywords) ==>
              && (forall j :: frameStart <= j < frameStart + |keys| ==>
                  regs[j] == KeyRegister(args, moreStart, keys, j - frameStart))
              && var unknown := Unknown(args, moreStart, Allowable(keys, allowOtherKeys));
                 error == if unknown != [] && !lambdaListAllows && !Allowed(args, moreStart, allowOtherKeys)
                          then Some(UnrecognizedKeywords(unknown)) else None
    ensures error != Some(OddKeywords) ==>
              && (forall j :: frameStart <= j < frameStart + |keys| ==>
                    HoldsKey(args, moreStart, keys, j - frameStart, regs[j]))
              && (error.Some? <==>
                    && (exists k :: UnknownAt(args, moreStart, keys, allowOtherKeys, k))
                    && !lambdaListAllows && !AllowedAt(args, moreStart, allowOtherKeys))
              && (error.Some? ==>
                    exists indices :: Lists(args, moreStart, keys, allowOtherKeys, indices, error.value.keys))
    ensures forall i :: 0 <= i < regs.Length && !(frameStart <= i < frameStart + |keys|) ==> regs[i] == old(regs[i])
  {
    FillReg(regs, Unbound, |keys|, frameStart);
    if |args| > moreStart && (|args| - moreStart) % 2 != 0 { return Some(OddKeywords); }
    var aokp, unknownKeys := ReadPairs(args, moreStart, keys, lambdaListAllows, allowOtherKeys, regs, frameStart);
    Outcome(args, moreStart, keys, allowOtherKeys);
    RegistersMean(args, moreStart, keys);
    hide *;
    error := if unknownKeys != [] && !aokp then Some(UnrecognizedKeywords(unknownKeys)) else None;
  }

  // The pairs from the last to the first.
  method ReadPairs(args: seq<Value>, moreStart: nat, keys: seq<Value>, lambdaListAllows: bool, allowOtherKeys: Value,
                   regs: array<Slot>, frameStart: nat) returns (aokp: bool, unknownKeys: seq<Value>)
    requires frameStart + |keys| <= regs.Length && (|args| > moreStart ==> (|args| - moreStart) % 2 == 0)
    requires forall j :: frameStart <= j < frameStart + |keys| ==> regs[j] == Val(Unbound)
    modifies regs
    ensures forall j :: frameStart <= j < frameStart + |keys| ==>
              regs[j] == KeyRegister(args, moreStart, keys, j - frameStart)
    ensures aokp == Allowed(args, moreStart, allowOtherKeys)
    ensures unknownKeys
            == if lambdaListAllows then [] else Unknown(args, moreStart, Allowable(keys, allowOtherKeys))
    ensures forall i :: 0 <= i < regs.Length && !(frameStart <= i < frameStart + |keys|) ==> regs[i] == old(regs[i])
  {
    aokp, unknownKeys := false, [];
    ghost var allowable := Allowable(keys, allowOtherKeys);
    NothingRead(args, if |args| > moreStart then |args| else moreStart, keys, allowOtherKeys);
    hide Leftmost, Unknown, KeyRegister, Allowed;
    if |args| > moreStart {
      var argIndex := |args| - 1;
      while argIndex >= moreStart
        invariant moreStart - 1 <= argIndex < |args| && (argIndex + 1 - moreStart) % 2 == 0
        invariant forall j :: frameStart <= j < frameStart + |keys| ==>
                    regs[j] == KeyRegister(args, argIndex + 1, keys, j - frameStart)
        invariant aokp == Allowed(args, argIndex + 1, allowOtherKeys)
        invariant unknownKeys == if lambdaListAllows then [] else Unknown(args, argIndex + 1, allowable)
        invariant forall i :: 0 <= i < regs.Length && !(frameStart <= i < frameStart + |keys|) ==>
                    regs[i] == old(regs[i])
      {
        var key := args[argIndex - 1];
        var validKey := false;
        if key == allowOtherKeys {
          validKey := true;
          aokp := args[argIndex] != Nil;
        }
        var found := StoreKey(key, args[argIndex], keys, regs, frameStart);
        if found < |keys| { validKey := true; }
        if !validKey && !lambdaListAllows { unknownKeys := [key] + unknownKeys; }
        assert validKey <==> key in allowable;
        PairRead(args, argIndex - 1, allowable, allowOtherKeys);
        forall j | frameStart <= j < frameStart + |keys|
          ensures regs[j] == KeyRegister(args, argIndex - 1, keys, j - frameStart)
        {
          KeyStored(args, argIndex - 1, keys, j - frameStart, found);
        }
        argIndex := argIndex - 2;
      }
    }
  }

  lemma Outcome(args: seq<Value>, start: nat, keys: seq<Value>, allowOtherKeys: Value)
    ensures var unknown := Unknown(args, start, Allowable(keys, allowOtherKeys));
            && (unknown != [] <==> exists k :: UnknownAt(args, start, keys, allowOtherKeys, k))
            && exists indices :: Lists(args, start, keys, allowOtherKeys, indices, unknown)
    ensures Allowed(args, start, allowOtherKeys) <==> AllowedAt(args, start, allowOtherKeys)
  {
    AllowedMeans(args, start, allowOtherKeys);
    var indices := UnknownIsListed(args, start, keys, allowOtherKeys);
    hide Unknown, Allowable, Allowed, AllowedAt, UnknownAt;
    var unknown := Unknown(args, start, Allowable(keys, allowOtherKeys));
    if unknown != [] { assert UnknownAt(args, start, keys, allowOtherKeys, indices[0]); }
  }

  lemma RegistersMean(args: seq<Value>, start: nat, keys: seq<Value>)
    ensures forall i :: 0 <= i < |keys| ==> HoldsKey(args, start, keys, i, KeyRegister(args, start, keys, i))
  {
    forall i | 0 <= i < |keys| ensures HoldsKey(args, start, keys, i, KeyRegister(args, start, keys, i)) {
      RegisterMeans(args, start, keys, i);
    }
  }

  lemma RegisterMeans(args: seq<Value>, start: nat, keys: seq<Value>, i: nat)
    requires i < |keys|
    ensures HoldsKey(args, start, keys, i, KeyRegister(args, start, keys, i))
  {
    LeftmostIsFirst(args, start, keys[i]);
    hide Leftmost, IsKeyIndex;
  }

  // The inner loop: the first declared key that matches gets the value.
  method StoreKey(key: Value, value: Value, keys: seq<Value>, regs: array<Slot>, frameStart: nat) returns (keyId: nat)
    requires frameStart + |keys| <= regs.Length
    modifies regs
    ensures keyId <= |keys| && (keyId < |keys| ==> keys[keyId] == key) && key !in keys[..keyId]
    ensures forall i :: 0 <= i < regs.Length ==>
              regs[i] == if keyId < |keys| && i == frameStart + keyId then Val(value) else old(regs[i])
  {
    keyId := 0;
    while keyId < |keys|
      invariant 0 <= keyId <= |keys| && key !in keys[..keyId]
      invariant forall i :: 0 <= i < regs.Length ==> regs[i] == old(regs[i])
    {
      if key == keys[keyId] {
        regs[frameStart + keyId] := Val(value);
        return;
      }
      keyId := keyId + 1;
    }
  }

  lemma NothingRead(args: seq<Value>, start: nat, keys: seq<Value>, allowOtherKeys: Value)
    requires |args| <= start
    ensures forall i :: 0 <= i < |keys| ==> KeyRegister(args, start, keys, i) == Val(Unbound)
    ensures !Allowed(args, start, allowOtherKeys) && Unknown(args, start, Allowable(keys, allowOtherKeys)) == []
  {
  }

  lemma PairRead(args: seq<Value>, start: nat, allowed: set<Value>, allowOtherKeys: Value)
    requires start + 1 < |args|
    ensures Unknown(args, start, allowed)
            == (if args[start] in allowed then [] else [args[start]]) + Unknown(args, start + 2, allowed)
    ensures Allowed(args, start, allowOtherKeys)
            == if args[start] == allowOtherKeys then args[start + 1] != Nil
                else Allowed(args, start + 2, allowOtherKeys)
  {
  }

  lemma KeyStored(args: seq<Value>, start: nat, keys: seq<Value>, i: nat, found: nat)
    requires start + 1 < |args| && i < |keys| && found <= |keys|
    requires (found < |keys| ==> keys[found] == args[start]) && args[start] !in keys[..found]
    ensures KeyRegister(args, start, keys, i)
            == if i == found then Val(args[start + 1]) else KeyRegister(args, start + 2, keys, i)
  {
    if i != found && keys[i] == args[start] {
      assert forall k :: 0 <= k < found ==> keys[k] in keys[..found];
      assert keys[..i][found] == keys[found];
    }
  }

  // ---- operands ----

  datatype KeyOperands = KeyOperands(moreStart: nat, keyCount: nat, keyStart: nat, frameStart: nat, aokp: bool)

  predicate Below(o: KeyOperands, bound: nat) {
    o.moreStart < bound && o.keyCount < bound && o.keyStart < bound && o.frameStart < bound
  }

  // A byte with its top bit set when the flag is.
  function WithFlag(b: Byte, flag: bool): Byte { if flag && b < 128 then b + 128 else b }

  // Context::emit_parse_key_args; None stands for the error it signals.
  function EmitParseKeyArgs(o: KeyOperands): Option<seq<Byte>> {
    if Below(o, 256) then
      Some([VM_PARSE_KEY_ARGS, o.moreStart, WithFlag(o.keyCount, o.aokp), o.keyStart, o.frameStart])
    else if Below(o, 0x1_0000) then
      Some([VM_LONG, VM_PARSE_KEY_ARGS, Low(o.moreStart), High(o.moreStart),
            Low(o.keyCount), WithFlag(High(o.keyCount), o.aokp),
            Low(o.keyStart), High(o.keyStart), Low(o.frameStart), High(o.frameStart)])
    else None
  }

  // The operands that vm_parse_key_args takes at pc, short or long.
  function ReadKeyOperands(code: seq<Byte>, pc: nat): KeyOperands
    requires pc + 5 <= |code| && (code[pc] == VM_LONG ==> pc + 10 <= |code|)
  {
    if code[pc] != VM_LONG then
      var info: int := code[pc + 2];
      KeyOperands(code[pc + 1], info % 0x80, code[pc + 3], code[pc + 4], info >= 0x80)
    else
      var info := Word(code, pc + 4);
      KeyOperands(Word(code, pc + 2), info % 0x8000, Word(code, pc + 6), Word(code, pc + 8), info >= 0x8000)
  }

  /** The operands read back exactly when the key count leaves the flag's bit
      free: below 128 in the short form, below 32768 in the long form. */
  lemma KeyOperandsReadBack(o: KeyOperands, code: seq<Byte>, pc: nat)
    requires EmitParseKeyArgs(o).Some? && Holds(code, pc, EmitParseKeyArgs(o).value)
    ensures pc + 5 <= |code| && (code[pc] == VM_LONG ==> pc + 10 <= |code|)
    ensures ReadKeyOperands(code, pc) == o <==> o.keyCount < (if Below(o, 256) then 0x80 else 0x8000)
  {
    var bytes := EmitParseKeyArgs(o).value;
    assert code[pc] == bytes[0] && code[pc + 1] == bytes[1] && code[pc + 2] == bytes[2];
    assert code[pc + 3] == bytes[3] && code[pc + 4] == bytes[4];
    if !Below(o, 256) {
      assert code[pc + 5] == bytes[5] && code[pc + 6] == bytes[6] && code[pc + 7] == bytes[7];
      assert code[pc + 8] == bytes[8] && code[pc + 9] == bytes[9];
    }
  }

  // The order of the operands, with the flag in the top bit of the key count.
  lemma KeyOperandOrder()
    ensures EmitParseKeyArgs(KeyOperands(1, 2, 3, 4, true)) == Some([19, 1, 0x82, 3, 4])
    ensures EmitParseKeyArgs(KeyOperands(0x101, 2, 3, 4, true)) == Some([255, 19, 1, 1, 2, 0x80, 3, 0, 4, 0])
    ensures ReadKeyOperands([19, 1, 0x82, 3, 4], 0) == KeyOperands(1, 2, 3, 4, true)
    ensures ReadKeyOperands([255, 19, 1, 1, 2, 0x80, 3, 0, 4, 0], 0) == KeyOperands(0x101, 2, 3, 4, true)
  {
    assert Below(KeyOperands(1, 2, 3, 4, true), 256);
    assert Below(KeyOperands(0x101, 2, 3, 4, true), 0x1_0000) && !Below(KeyOperands(0x101, 2, 3, 4, true), 256);
  }

  // 128 keys in the short form are read as none, with other keys allowed.
  lemma ManyKeysAreMisread()
    ensures var o := KeyOperands(0, 128, 0, 0, false);
            EmitParseKeyArgs(o).Some?
            && ReadKeyOperands(EmitParseKeyArgs(o).value, 0) == KeyOperands(0, 0, 0, 0, true)
  {
    var o := KeyOperands(0, 128, 0, 0, false);
    assert Below(o, 256);
  }

  // Where the machine goes on after parsing keywords without an error. The long
  // form has no break: it goes on into the argument count check, which takes two
  // bytes of the following instruction for its limit. None is that check's error.
  function AfterKeyArgs(code: seq<Byte>, pc: nat, nargs: nat): Option<nat>
    requires pc < |code| && (code[pc] == VM_LONG ==> pc + 13 <= |code|)
  {
    if code[pc] != VM_LONG then Some(pc + 5)
    else
      var pc' := pc + 1 + 9;
      if nargs > Word(code, pc' + 1) then None else Some(pc' + 3)
  }

  /** Execution goes on at the end of the emitted bytes exactly in the short form. */
  lemma KeyArgsFallThrough(o: KeyOperands, code: seq<Byte>, pc: nat, nargs: nat)
    requires EmitParseKeyArgs(o).Some? && Holds(code, pc, EmitParseKeyArgs(o).value)
    requires code[pc] == VM_LONG ==> pc + 13 <= |code|
    ensures AfterKeyArgs(code, pc, nargs) == Some(pc + |EmitParseKeyArgs(o).value|) <==> Below(o, 256)
  {
    var bytes := EmitParseKeyArgs(o).value;
    assert code[pc] == bytes[0];
  }

  // One key after 256 positional arguments, followed by a push, a bind of no
  // registers and a return: execution goes on three bytes too far.
  lemma LongKeyArgsSkipInstructions()
    ensures var o, rest := KeyOperands(256, 1, 0, 0, false), [VM_PUSH, VM_POP, VM_NIL, VM_RETURN];
            && EmitParseKeyArgs(o).Some? && |EmitParseKeyArgs(o).value| == 10
            && AfterKeyArgs(EmitParseKeyArgs(o).value + rest, 0, 258) == Some(13)
  {
    var o, rest := KeyOperands(256, 1, 0, 0, false), [VM_PUSH, VM_POP, VM_NIL, VM_RETURN];
    var bytes := EmitParseKeyArgs(o).value;
    var code := bytes + rest;
    assert code[0] == VM_LONG && code[11] == VM_POP && code[12] == VM_NIL;
  }
}
