/** Functions and their annotations as the compiler builds them, and the linking
    of a module: relaxation of the fixup sizes and creation of the bytecode. */
module Linker {
  import opened Options
  import opened Instructions
  import opened Relaxation
  import opened Emission
  import opened ModuleItems

  // A label or a fixup once contextualized: its positions are relative to its function.
  datatype Annotation = Annotation(item: Item, position: nat, initialPosition: nat, size: nat)

  datatype Cfunction = Cfunction(bytecode: seq<Byte>, annotations: seq<Annotation>, position: nat, extra: nat) {
    function FinalSize(): nat { |bytecode| + extra }
  }

  // Where a label has been contextualized.
  datatype Place = Place(cfunction: nat, index: nat)

  // The bytes and annotations of a function are those of the items emitted into it.
  ghost predicate Holding(cf: Cfunction, its: seq<Item>) {
    && (forall k :: 0 <= k < |its| ==> Emittable(its[k]))
    && cf.bytecode == Assembly(its)
    && |cf.annotations| == |Notes(its)|
    && cf.extra == 0
    && (forall i :: 0 <= i < |cf.annotations| ==>
          var a := cf.annotations[i];
          NoteAt(its, i, a.item, a.initialPosition) && a.position == a.initialPosition
          && Emittable(a.item) && a.size == InitialSize(a.item))
  }

  // A function during linking: its first item is item base of the module, and
  // its positions are those of the sizes.
  ghost predicate Laid(cf: Cfunction, its: seq<Item>, base: nat, sizes: seq<nat>) {
    && (forall k :: 0 <= k < |its| ==> Emittable(its[k]))
    && cf.bytecode == Assembly(its)
    && |cf.annotations| == |Notes(its)|
    && base + |its| <= |sizes|
    && cf.position == Pos(sizes, base)
    && cf.FinalSize() == Pos(sizes, base + |its|) - Pos(sizes, base)
    && (forall i :: 0 <= i < |cf.annotations| ==>
          var a := cf.annotations[i];
          NoteLaid(its, base, sizes, i, a.item, a.initialPosition, a.position, a.size))
  }

  // The effect of update_positions on annotations after the i-th.
  function ShiftAnnotations(annotations: seq<Annotation>, i: nat, increase: nat): (shifted: seq<Annotation>)
    ensures |shifted| == |annotations|
  {
    seq(|annotations|, j requires 0 <= j < |annotations| =>
      if i < j then annotations[j].(position := annotations[j].position + increase) else annotations[j])
  }

  // The effect of update_positions on the functions of a module.
  function Shift(fs: seq<Cfunction>, f: nat, i: nat, increase: nat): (shifted: seq<Cfunction>)
    ensures |shifted| == |fs|
  {
    seq(|fs|, h requires 0 <= h < |fs| =>
      if h < f then fs[h]
      else if h == f then
        fs[h].(annotations := ShiftAnnotations(fs[h].annotations, i, increase), extra := fs[h].extra + increase)
      else fs[h].(position := fs[h].position + increase))
  }

  function SetSize(fs: seq<Cfunction>, f: nat, i: nat, size: nat): (fs': seq<Cfunction>)
    requires f < |fs| && i < |fs[f].annotations|
    ensures |fs'| == |fs|
  {
    fs[f := fs[f].(annotations := fs[f].annotations[i := fs[f].annotations[i].(size := size)])]
  }

  // Growing fixup i of function f, which is item k of the module, to size v
  // keeps function h laid out, now for the new sizes.
  lemma Relaid(fs: seq<Cfunction>, parts: seq<seq<Item>>, sizes: seq<nat>, f: nat, i: nat, h: nat, k: nat, v: nat)
    requires |fs| == |parts| && f < |fs| && h < |fs|
    requires i < |Notes(parts[f])| && i < |fs[f].annotations| && k == Start(parts, f) + Notes(parts[f])[i]
    requires |sizes| == |Flatten(parts)| && k < |sizes| && fs[f].annotations[i].size == sizes[k] <= v
    requires Laid(fs[h], parts[h], Start(parts, h), sizes)
    ensures Laid(Shift(SetSize(fs, f, i, v), f, i, v - sizes[k])[h], parts[h], Start(parts, h), sizes[k := v])
  {
    hide Emittable, Notes, Pos, NoteLaid, Assembly, Flatten, Start;
    FunctionMoves(parts, sizes, f, Notes(parts[f])[i], h, k, v);
    var its, base, cf := parts[h], Start(parts, h), Shift(SetSize(fs, f, i, v), f, i, v - sizes[k])[h];
    forall j | 0 <= j < |cf.annotations|
      ensures var a := cf.annotations[j];
              NoteLaid(its, base, sizes[k := v], j, a.item, a.initialPosition, a.position, a.size)
    {
      var a := fs[h].annotations[j];
      NoteMoves(parts, sizes, f, i, h, j, a.item, a.initialPosition, a.position, a.size, k, v);
    }
  }

  // The table of label places and the annotations agree.
  ghost predicate LabelsAgree(fs: seq<Cfunction>, labels: map<nat, Place>) {
    && (forall id :: id in labels ==>
          var p := labels[id];
          p.cfunction < |fs| && p.index < |fs[p.cfunction].annotations|
          && fs[p.cfunction].annotations[p.index].item == Mark(id))
    && (forall f, i :: 0 <= f < |fs| && 0 <= i < |fs[f].annotations| && fs[f].annotations[i].item.Mark? ==>
          var id := fs[f].annotations[i].item.id;
          id in labels && labels[id] == Place(f, i))
  }

  // The labels of all label fixups have been contextualized.
  ghost predicate LabelsPlaced(fs: seq<Cfunction>, labels: map<nat, Place>) {
    forall f, i :: 0 <= f < |fs| && 0 <= i < |fs[f].annotations| && fs[f].annotations[i].item.IsLabelFixup() ==>
      fs[f].annotations[i].item.id in labels
  }

  // The annotations of a function are its items that are not instructions.
  ghost predicate Annotated(cf: Cfunction, its: seq<Item>) {
    && |cf.annotations| == |Notes(its)|
    && forall i :: 0 <= i < |cf.annotations| ==> cf.annotations[i].item == its[Notes(its)[i]]
  }

  ghost predicate AllAnnotated(fs: seq<Cfunction>, parts: seq<seq<Item>>) {
    |fs| == |parts| && forall f :: 0 <= f < |fs| ==> Annotated(fs[f], parts[f])
  }

  // The item an annotation stands for.
  lemma AnnotationItem(fs: seq<Cfunction>, parts: seq<seq<Item>>, f: nat, i: nat)
    requires AllAnnotated(fs, parts) && f < |fs| && i < |fs[f].annotations|
    ensures i < |Notes(parts[f])|
    ensures var g := Start(parts, f) + Notes(parts[f])[i];
            g < |Flatten(parts)| && Flatten(parts)[g] == fs[f].annotations[i].item
  {
    assert Annotated(fs[f], parts[f]);
    FunctionItems(parts, f);
    FunctionSpan(parts, f);
    assert Flatten(parts)[Start(parts, f) + Notes(parts[f])[i]] == parts[f][Notes(parts[f])[i]];
  }

  // The annotation that stands for an item.
  lemma ItemAnnotation(fs: seq<Cfunction>, parts: seq<seq<Item>>, g: nat) returns (f: nat, i: nat)
    requires AllAnnotated(fs, parts) && g < |Flatten(parts)| && !Flatten(parts)[g].Ins?
    ensures f < |fs| && i < |fs[f].annotations| && i < |Notes(parts[f])|
    ensures g == Start(parts, f) + Notes(parts[f])[i]
    ensures fs[f].annotations[i].item == Flatten(parts)[g]
  {
    var n;
    f, n := FunctionOf(parts, g);
    i := NoteOf(parts[f], n);
    assert Annotated(fs[f], parts[f]);
  }

  /** The place of a label is the one item that marks it. */
  lemma PlaceIsTarget(fs: seq<Cfunction>, parts: seq<seq<Item>>, labels: map<nat, Place>, id: nat)
    requires AllAnnotated(fs, parts) && LabelsAgree(fs, labels) && id in labels
    ensures var p := labels[id];
            p.cfunction < |fs| && p.index < |fs[p.cfunction].annotations| && p.index < |Notes(parts[p.cfunction])|
            && Target(Flatten(parts), id) == Start(parts, p.cfunction) + Notes(parts[p.cfunction])[p.index]
    ensures Mark(id) in Flatten(parts)
  {
    var p := labels[id];
    AnnotationItem(fs, parts, p.cfunction, p.index);
    var t := Target(Flatten(parts), id);
    var f, i := ItemAnnotation(fs, parts, t);
    assert fs[f].annotations[i].item == Mark(id);
  }

  lemma LinkableIsWellFormed(fs: seq<Cfunction>, parts: seq<seq<Item>>, labels: map<nat, Place>)
    requires AllAnnotated(fs, parts) && LabelsAgree(fs, labels) && LabelsPlaced(fs, labels)
    requires forall f, k :: 0 <= f < |parts| && 0 <= k < |parts[f]| ==> Emittable(parts[f][k])
    ensures WellFormed(Flatten(parts))
  {
    var items := Flatten(parts);
    forall g | 0 <= g < |items|
      ensures Emittable(items[g])
      ensures items[g].IsLabelFixup() ==> Mark(items[g].id) in items
    {
      var f, n := FunctionOf(parts, g);
      if items[g].IsLabelFixup() {
        var h, i := ItemAnnotation(fs, parts, g);
        PlaceIsTarget(fs, parts, labels, items[g].id);
      }
    }
  }

  ghost predicate AllLaid(fs: seq<Cfunction>, parts: seq<seq<Item>>, sizes: seq<nat>) {
    |fs| == |parts| && forall f :: 0 <= f < |fs| ==> Laid(fs[f], parts[f], Start(parts, f), sizes)
  }

  /** One step of update_positions keeps the layout of the whole module. */
  lemma StepKeepsLayout(fs: seq<Cfunction>, parts: seq<seq<Item>>, sizes: seq<nat>, f: nat, i: nat, k: nat, v: nat)
    requires AllLaid(fs, parts, sizes) && f < |fs|
    requires i < |Notes(parts[f])| && i < |fs[f].annotations| && k == Start(parts, f) + Notes(parts[f])[i]
    requires |sizes| == |Flatten(parts)| && k < |sizes| && fs[f].annotations[i].size == sizes[k] <= v
    ensures AllLaid(Shift(SetSize(fs, f, i, v), f, i, v - sizes[k]), parts, sizes[k := v])
  {
    hide Laid, Flatten, Start, Notes, Shift, SetSize;
    var fs' := Shift(SetSize(fs, f, i, v), f, i, v - sizes[k]);
    forall h | 0 <= h < |fs'| ensures Laid(fs'[h], parts[h], Start(parts, h), sizes[k := v]) {
      Relaid(fs, parts, sizes, f, i, h, k, v);
    }
  }

  lemma AllLaidLength(fs: seq<Cfunction>, parts: seq<seq<Item>>, sizes: seq<nat>)
    requires AllLaid(fs, parts, sizes)
    ensures |fs| == |parts|
  {
    hide Laid;
  }

  lemma LaidIsAnnotated(fs: seq<Cfunction>, parts: seq<seq<Item>>, sizes: seq<nat>)
    requires AllLaid(fs, parts, sizes)
    ensures AllAnnotated(fs, parts)
  {
    hide Start, Notes, Assembly, Pos;
  }

  // Annotation_O::module_position
  function ModulePosition(fs: seq<Cfunction>, f: nat, i: nat): nat
    requires f < |fs| && i < |fs[f].annotations|
  {
    fs[f].annotations[i].position + fs[f].position
  }

  // LabelFixup_O::delta; zero stands for annotations that have no label.
  function ItsDelta(fs: seq<Cfunction>, labels: map<nat, Place>, f: nat, i: nat): int
    requires f < |fs| && i < |fs[f].annotations|
    requires fs[f].annotations[i].item.IsLabelFixup() ==> fs[f].annotations[i].item.id in labels
    requires LabelsAgree(fs, labels)
  {
    var item := fs[f].annotations[i].item;
    if item.IsLabelFixup() then
      var p := labels[item.id];
      ModulePosition(fs, p.cfunction, p.index) - ModulePosition(fs, f, i)
    else 0
  }

  lemma LaidNote(cf: Cfunction, its: seq<Item>, base: nat, sizes: seq<nat>, i: nat)
    requires Laid(cf, its, base, sizes) && i < |cf.annotations|
    ensures i < |Notes(its)| && base + |its| <= |sizes|
    ensures var a := cf.annotations[i];
            a.position + cf.position == Pos(sizes, base + Notes(its)[i]) && a.size == sizes[base + Notes(its)[i]]
    ensures forall k :: 0 <= k < |its| ==> Emittable(its[k])
    ensures cf.annotations[i].initialPosition == |Assembly(its[..Notes(its)[i]])|
  {
    hide Notes, Pos, Emittable, Assembly, NoteLaid;
    var a := cf.annotations[i];
    NoteLaidMeans(its, base, sizes, i, a.item, a.initialPosition, a.position, a.size);
  }

  lemma PositionInLayout(fs: seq<Cfunction>, parts: seq<seq<Item>>, sizes: seq<nat>, f: nat, i: nat)
    requires AllLaid(fs, parts, sizes) && |sizes| == |Flatten(parts)|
    requires f < |fs| && i < |fs[f].annotations|
    ensures |parts| == |fs| && i < |Notes(parts[f])|
    ensures var k := Start(parts, f) + Notes(parts[f])[i];
            k < |sizes| && ModulePosition(fs, f, i) == Pos(sizes, k) && fs[f].annotations[i].size == sizes[k]
            && Flatten(parts)[k] == fs[f].annotations[i].item
  {
    hide Laid, AllAnnotated, Start, Notes, Pos, Flatten;
    LaidNote(fs[f], parts[f], Start(parts, f), sizes, i);
    LaidIsAnnotated(fs, parts, sizes);
    AnnotationItem(fs, parts, f, i);
  }

  /** The displacement computed from the mutable positions is the distance in
      the layout from the fixup to the one mark of its label. */
  lemma DeltaIsDistance(fs: seq<Cfunction>, parts: seq<seq<Item>>, labels: map<nat, Place>, sizes: seq<nat>, f: nat,
                        i: nat)
    requires AllLaid(fs, parts, sizes) && LabelsAgree(fs, labels) && LabelsPlaced(fs, labels)
    requires |sizes| == |Flatten(parts)| && f < |fs| && i < |fs[f].annotations|
    ensures i < |Notes(parts[f])| && Start(parts, f) + Notes(parts[f])[i] < |sizes|
    ensures ItsDelta(fs, labels, f, i) == Delta(Flatten(parts), sizes, Start(parts, f) + Notes(parts[f])[i])
  {
    hide AllLaid, AllAnnotated, Start, Notes, Pos, Flatten, Target;
    PositionInLayout(fs, parts, sizes, f, i);
    var item := fs[f].annotations[i].item;
    if item.IsLabelFixup() {
      var p := labels[item.id];
      LaidIsAnnotated(fs, parts, sizes);
      PlaceIsTarget(fs, parts, labels, item.id);
      PositionInLayout(fs, parts, sizes, p.cfunction, p.index);
    }
  }

  // What every step of resolve_fixup_sizes keeps.
  ghost predicate Relaxing(fs: seq<Cfunction>, parts: seq<seq<Item>>, labels: map<nat, Place>, sizes: seq<nat>) {
    && WellFormed(Flatten(parts)) && Optimistic(Flatten(parts), sizes)
    && |sizes| == |Flatten(parts)|
    && AllLaid(fs, parts, sizes) && LabelsAgree(fs, labels) && LabelsPlaced(fs, labels)
  }

  lemma SameItems(fs: seq<Cfunction>, labels: map<nat, Place>, f: nat, i: nat, v: nat, increase: nat)
    requires LabelsAgree(fs, labels) && LabelsPlaced(fs, labels)
    requires f < |fs| && i < |fs[f].annotations|
    ensures var fs' := Shift(SetSize(fs, f, i, v), f, i, increase);
            LabelsAgree(fs', labels) && LabelsPlaced(fs', labels)
  {
    var fs' := Shift(SetSize(fs, f, i, v), f, i, increase);
    assert forall h :: 0 <= h < |fs| ==> |fs'[h].annotations| == |fs[h].annotations|;
    assert forall h, j :: 0 <= h < |fs| && 0 <= j < |fs[h].annotations| ==>
             fs'[h].annotations[j].item == fs[h].annotations[j].item;
  }

  /** One iteration of resolve_fixup_sizes: the new size is what the layout
      asks for, it is not smaller than the old one, and updating the positions
      keeps the invariant. When resize signals an error no layout exists. */
  lemma RelaxOne(fs: seq<Cfunction>, parts: seq<seq<Item>>, labels: map<nat, Place>, sizes: seq<nat>, f: nat, i: nat)
    requires Relaxing(fs, parts, labels, sizes) && f < |fs| && i < |fs[f].annotations|
    ensures |parts| == |fs| && i < |Notes(parts[f])| && Start(parts, f) + Notes(parts[f])[i] < |sizes|
    ensures var k, item := Start(parts, f) + Notes(parts[f])[i], fs[f].annotations[i].item;
            && Emittable(item)
            && fs[f].annotations[i].size == sizes[k]
            && Resize(item, ItsDelta(fs, labels, f, i)) == Want(Flatten(parts), sizes, k)
            && match Want(Flatten(parts), sizes, k)
               case None => (forall t :: !Adequate(Flatten(parts), t))
               case Some(w) =>
                 && sizes[k] <= w
                 && Relaxing(Shift(SetSize(fs, f, i, w), f, i, w - sizes[k]), parts, labels, sizes[k := w])
  {
    hide Start, Notes, Flatten, AllLaid, LabelsAgree, LabelsPlaced, Optimistic, Resize, Shift, SetSize, Adequate;
    PositionInLayout(fs, parts, sizes, f, i);
    DeltaIsDistance(fs, parts, labels, sizes, f, i);
    var k := Start(parts, f) + Notes(parts[f])[i];
    match Want(Flatten(parts), sizes, k)
    case None =>
      ErrorMeansNoLayout(Flatten(parts), sizes, k);
    case Some(w) =>
      RelaxStep(Flatten(parts), sizes, k);
      StepKeepsLayout(fs, parts, sizes, f, i, k, w);
      SameItems(fs, labels, f, i, w, w - sizes[k]);
  }

  // The sizes of the items before annotation i of function f are settled.
  ghost predicate Settled(parts: seq<seq<Item>>, sizes: seq<nat>, f: nat, i: nat)
    requires |sizes| == |Flatten(parts)| && WellFormed(Flatten(parts))
  {
    forall h, j :: 0 <= h < |parts| && 0 <= j < |Notes(parts[h])| && (h < f || (h == f && j < i)) ==>
      SettledAt(parts, sizes, h, j)
  }

  ghost predicate SettledAt(parts: seq<seq<Item>>, sizes: seq<nat>, h: nat, j: nat)
    requires |sizes| == |Flatten(parts)| && WellFormed(Flatten(parts))
    requires h < |parts| && j < |Notes(parts[h])|
  {
    var k := Start(parts, h) + Notes(parts[h])[j];
    k < |sizes| && Want(Flatten(parts), sizes, k) == Some(sizes[k])
  }

  lemma SettledIsConsistent(fs: seq<Cfunction>, parts: seq<seq<Item>>, labels: map<nat, Place>, sizes: seq<nat>, f: nat)
    requires Relaxing(fs, parts, labels, sizes) && |parts| <= f && Settled(parts, sizes, f, 0)
    ensures Consistent(Flatten(parts), sizes)
  {
    hide Flatten, Start, Notes, AllLaid, LabelsAgree, LabelsPlaced, AllAnnotated, Resize, InitialSize;
    var items := Flatten(parts);
    assert |fs| == |parts| by { AllLaidLength(fs, parts, sizes); }
    LaidIsAnnotated(fs, parts, sizes);
    forall k | 0 <= k < |items| ensures Want(items, sizes, k) == Some(sizes[k]) {
      if !items[k].Ins? {
        var h, j := ItemAnnotation(fs, parts, k);
        assert SettledAt(parts, sizes, h, j);
      } else {
        InstructionSettled(items, sizes, k);
      }
    }
  }

  // Nothing has been linked yet: what every emission keeps.
  ghost predicate Emitted(fs: seq<Cfunction>, parts: seq<seq<Item>>, labels: map<nat, Place>) {
    && |fs| == |parts|
    && (forall f :: 0 <= f < |fs| ==> Holding(fs[f], parts[f]))
    && LabelsAgree(fs, labels)
  }

  class Module {
    var cfunctions: seq<Cfunction>
    var labels: map<nat, Place>        // the labels that have been contextualized
    var nextLabel: nat
    ghost var parts: seq<seq<Item>>    // the items emitted into each function

    ghost predicate Valid()
      reads this
    {
      Emitted(cfunctions, parts, labels) && forall id :: id in labels.Keys ==> id < nextLabel
    }

    constructor ()
      ensures Valid() && parts == [] && labels == map[] && nextLabel == 0
    {
      cfunctions, labels, nextLabel, parts := [], map[], 0, [];
    }

    // Cfunction_O::make and its registration in the module.
    method AddFunction() returns (f: nat)
      requires Valid()
      modifies this
      ensures Valid() && parts == old(parts) + [[]] && f == |old(parts)|
      ensures labels == old(labels) && nextLabel == old(nextLabel)
    {
      f := |cfunctions|;
      cfunctions := cfunctions + [Cfunction([], [], 0, 0)];
      parts := parts + [[]];
    }

    // Label_O::make
    method MakeLabel() returns (id: nat)
      requires Valid()
      modifies `nextLabel
      ensures Valid() && id == old(nextLabel) && nextLabel == id + 1 && id !in labels
    {
      id := nextLabel;
      nextLabel := nextLabel + 1;
    }

    // Context::assemble0, assemble1 and assemble2
    method Assemble(f: nat, ins: Instruction) returns (ok: bool)
      requires Valid() && f < |cfunctions|
      modifies `cfunctions, `parts
      ensures Valid()
      ensures ok <==> Encodable(ins)
      ensures parts == if ok then old(parts)[f := old(parts)[f] + [Ins(ins)]] else old(parts)
    {
      if !Encodable(ins) { return false; }
      assert |cfunctions| == |parts|;
      hide Emitted, Extended;
      EmittedAppend(cfunctions, parts, labels, f, Ins(ins));
      cfunctions := cfunctions[f := Extended(cfunctions[f], Ins(ins))];
      parts := parts[f := parts[f] + [Ins(ins)]];
      ok := true;
    }

    // Label_O::contextualize and Fixup_O::contextualize
    method Contextualize(f: nat, item: Item)
      requires Valid() && f < |cfunctions| && Emittable(item) && !item.Ins?
      requires item.Mark? ==> item.id !in labels && item.id < nextLabel
      modifies `cfunctions, `parts, `labels
      ensures Valid()
      ensures parts == old(parts)[f := old(parts)[f] + [item]]
      ensures labels.Keys == if item.Mark? then old(labels.Keys) + {item.id} else old(labels.Keys)
    {
      assert |cfunctions| == |parts|;
      hide Emitted, Extended, Emittable, Registered;
      EmittedAppend(cfunctions, parts, labels, f, item);
      RegisteredKeys(labels, f, |cfunctions[f].annotations|, item);
      labels := Registered(labels, f, |cfunctions[f].annotations|, item);
      cfunctions := cfunctions[f := Extended(cfunctions[f], item)];
      parts := parts[f := parts[f] + [item]];
    }

    // Module_O::initialize_cfunction_positions
    method InitializeCfunctionPositions()
      requires Emitted(cfunctions, parts, labels) && LabelsPlaced(cfunctions, labels)
      modifies `cfunctions
      ensures WellFormed(Flatten(parts))
      ensures Relaxing(cfunctions, parts, labels, InitialSizes(Flatten(parts)))
    {
      hide *;
      EmittedIsWellFormed(cfunctions, parts, labels);
      ghost var fs, sizes := cfunctions, InitialSizes(Flatten(parts));
      var position, f := 0, 0;
      while f < |cfunctions|
        invariant 0 <= f <= |cfunctions| == |fs| == |parts|
        invariant position == Pos(sizes, Start(parts, f))
        invariant forall h :: 0 <= h < |fs| ==>
                    cfunctions[h] == if h < f then fs[h].(position := Pos(sizes, Start(parts, h))) else fs[h]
      {
        cfunctions := cfunctions[f := cfunctions[f].(position := position)];
        position := position + |cfunctions[f].bytecode|;
        HoldingLength(fs[f], parts[f]);
        FunctionLength(parts, f);
        f := f + 1;
      }
      InitiallyRelaxing(fs, cfunctions, parts, labels);
    }

    // Fixup_O::update_positions for fixup i of function f.
    method UpdatePositions(f: nat, i: nat, increase: nat)
      requires f < |cfunctions| && i < |cfunctions[f].annotations|
      modifies `cfunctions
      ensures cfunctions == Shift(old(cfunctions), f, i, increase)
    {
      var annotations := cfunctions[f].annotations;
      var idx := i + 1;
      while idx < |annotations|
        invariant i < idx <= |annotations| == |old(cfunctions)[f].annotations|
        invariant annotations[..idx] == ShiftAnnotations(old(cfunctions)[f].annotations, i, increase)[..idx]
        invariant annotations[idx..] == old(cfunctions)[f].annotations[idx..]
      {
        annotations := annotations[idx := annotations[idx].(position := annotations[idx].position + increase)];
        idx := idx + 1;
      }
      assert annotations == ShiftAnnotations(old(cfunctions)[f].annotations, i, increase);
      cfunctions := cfunctions[f :=
          cfunctions[f].(annotations := annotations, extra := cfunctions[f].extra + increase)];
      idx := f + 1;
      while idx < |cfunctions|
        invariant f < idx <= |cfunctions| == |old(cfunctions)|
        invariant cfunctions[..idx] == Shift(old(cfunctions), f, i, increase)[..idx]
        invariant cfunctions[idx..] == old(cfunctions)[idx..]
      {
        cfunctions := cfunctions[idx := cfunctions[idx].(position := cfunctions[idx].position + increase)];
        idx := idx + 1;
      }
    }

    // The inner loop body of resolve_fixup_sizes for annotation i of function f.
    // None stands for the error that resize signals.
    method ResizeAnnotation(f: nat, i: nat, ghost sizes: seq<nat>)
      returns (changed: Option<bool>, ghost sizes': seq<nat>)
      requires Relaxing(cfunctions, parts, labels, sizes)
      requires f < |cfunctions| && i < |cfunctions[f].annotations|
      modifies `cfunctions
      ensures Relaxing(cfunctions, parts, labels, sizes')
      ensures |sizes| == |sizes'| == |Flatten(parts)| && WellFormed(Flatten(parts))
      ensures |cfunctions| == |old(cfunctions)| == |parts|
      ensures |cfunctions[f].annotations| == |old(cfunctions)[f].annotations| == |Notes(parts[f])|
      ensures changed == None ==> forall t :: !Adequate(Flatten(parts), t)
      ensures changed == Some(false) ==> sizes' == sizes && SettledAt(parts, sizes, f, i)
      ensures changed == Some(true) ==> Slack(Flatten(parts), sizes') < Slack(Flatten(parts), sizes)
    {
      hide *;
      ResizeStep(cfunctions, parts, labels, sizes, f, i);
      sizes' := sizes;
      var fixup := cfunctions[f].annotations[i];
      var wanted := Resize(fixup.item, ItsDelta(cfunctions, labels, f, i));
      if wanted == None { return None, sizes; }
      var size, oldSize := wanted.value, fixup.size;
      if oldSize != size {
        cfunctions := SetSize(cfunctions, f, i, size);
        UpdatePositions(f, i, size - oldSize);
        sizes' := sizes[Start(parts, f) + Notes(parts[f])[i] := size];
      }
      changed := Some(oldSize != size);
    }

    /** Module_O::resolve_fixup_sizes terminates, fails exactly when no layout
        exists, and otherwise settles on the least layout there is. */
    method ResolveFixupSizes() returns (ok: bool, ghost sizes: seq<nat>)
      requires WellFormed(Flatten(parts)) && Relaxing(cfunctions, parts, labels, InitialSizes(Flatten(parts)))
      modifies `cfunctions
      ensures ok ==> Relaxing(cfunctions, parts, labels, sizes) && Consistent(Flatten(parts), sizes)
      ensures ok ==> Adequate(Flatten(parts), sizes)
                     && forall t :: Adequate(Flatten(parts), t) ==> AtMost(sizes, t)
      ensures !ok ==> forall t :: !Adequate(Flatten(parts), t)
    {
      hide *;
      ghost var items := Flatten(parts);
      AllEmittable(items);
      sizes := InitialSizes(items);
      var changed := true;
      while changed
        invariant Relaxing(cfunctions, parts, labels, sizes)
        invariant |sizes| == |items|
        invariant !changed ==> Consistent(items, sizes)
        decreases Slack(items, sizes), changed
      {
        changed := false;
        ghost var before := sizes;
        var f := 0;
        RelaxingMeans(cfunctions, parts, labels, sizes, 0);
        NothingSettled(parts, sizes);
        while f < |cfunctions|
          invariant 0 <= f <= |cfunctions| == |parts|
          invariant Relaxing(cfunctions, parts, labels, sizes) && |sizes| == |items|
          invariant if changed then Slack(items, sizes) < Slack(items, before)
                    else sizes == before && Settled(parts, sizes, f, 0)
        {
          var i := 0;
          RelaxingMeans(cfunctions, parts, labels, sizes, f);
          while i < |cfunctions[f].annotations|
            invariant f < |cfunctions| == |parts| && 0 <= i <= |cfunctions[f].annotations| == |Notes(parts[f])|
            invariant Relaxing(cfunctions, parts, labels, sizes) && |sizes| == |items|
            invariant if changed then Slack(items, sizes) < Slack(items, before)
                      else sizes == before && Settled(parts, sizes, f, i)
            decreases |cfunctions[f].annotations| - i
          {
            var resized;
            resized, sizes := ResizeAnnotation(f, i, sizes);
            if resized == None { return false, sizes; }
            if resized.value {
              changed := true;
            } else if !changed {
              SettledNext(parts, sizes, f, i);
            }
            i := i + 1;
          }
          if !changed { FunctionSettled(parts, sizes, f); }
          f := f + 1;
        }
        RelaxingMeans(cfunctions, parts, labels, sizes, 0);
        if !changed { SettledIsConsistent(cfunctions, parts, labels, sizes, f); }
      }
      ok := true;
      ConsistentIsAdequate(items, sizes);
      LeastLayout(cfunctions, parts, labels, sizes);
    }
  }

  lemma LeastLayout(fs: seq<Cfunction>, parts: seq<seq<Item>>, labels: map<nat, Place>, sizes: seq<nat>)
    requires Relaxing(fs, parts, labels, sizes)
    ensures forall t :: Adequate(Flatten(parts), t) ==> AtMost(sizes, t)
  {
    hide AllLaid, Flatten, LabelsAgree, LabelsPlaced, AtMost, Adequate;
  }

  lemma NothingSettled(parts: seq<seq<Item>>, sizes: seq<nat>)
    requires |sizes| == |Flatten(parts)| && WellFormed(Flatten(parts))
    ensures Settled(parts, sizes, 0, 0)
  {
  }

  lemma SettledNext(parts: seq<seq<Item>>, sizes: seq<nat>, f: nat, i: nat)
    requires |sizes| == |Flatten(parts)| && WellFormed(Flatten(parts))
    requires f < |parts| && i < |Notes(parts[f])|
    requires Settled(parts, sizes, f, i) && SettledAt(parts, sizes, f, i)
    ensures Settled(parts, sizes, f, i + 1)
  {
    hide SettledAt, Notes, Flatten;
  }

  lemma FunctionSettled(parts: seq<seq<Item>>, sizes: seq<nat>, f: nat)
    requires |sizes| == |Flatten(parts)| && WellFormed(Flatten(parts))
    requires f < |parts| && Settled(parts, sizes, f, |Notes(parts[f])|)
    ensures Settled(parts, sizes, f + 1, 0)
  {
    hide SettledAt, Notes, Flatten;
  }

  lemma RelaxingMeans(fs: seq<Cfunction>, parts: seq<seq<Item>>, labels: map<nat, Place>, sizes: seq<nat>, f: nat)
    requires Relaxing(fs, parts, labels, sizes)
    ensures |fs| == |parts| && |sizes| == |Flatten(parts)| && WellFormed(Flatten(parts))
    ensures forall k :: 0 <= k < |Flatten(parts)| ==> Emittable(Flatten(parts)[k])
    ensures LabelsAgree(fs, labels) && LabelsPlaced(fs, labels)
    ensures Slack(Flatten(parts), sizes) >= 0
    ensures f < |fs| ==> |fs[f].annotations| == |Notes(parts[f])|
  {
    LaidIsAnnotated(fs, parts, sizes);
    hide Flatten, Notes, LabelsAgree, Emittable, MaxSizes, Slack, LabelsPlaced, Laid;
    SlackIsNatural(Flatten(parts), sizes);
  }

  lemma SetSizeKeeps(fs: seq<Cfunction>, f: nat, i: nat, size: nat, increase: nat)
    requires f < |fs| && i < |fs[f].annotations|
    ensures |SetSize(fs, f, i, size)[f].annotations| == |fs[f].annotations|
    ensures |Shift(SetSize(fs, f, i, size), f, i, increase)[f].annotations| == |fs[f].annotations|
  {
  }

  // Everything resize_annotation relies on, for the size that resize returns.
  lemma ResizeStep(fs: seq<Cfunction>, parts: seq<seq<Item>>, labels: map<nat, Place>, sizes: seq<nat>, f: nat, i: nat)
    requires Relaxing(fs, parts, labels, sizes) && f < |fs| && i < |fs[f].annotations|
    ensures |fs| == |parts| && |sizes| == |Flatten(parts)| && WellFormed(Flatten(parts))
    ensures |fs[f].annotations| == |Notes(parts[f])| && Start(parts, f) + Notes(parts[f])[i] < |sizes|
    ensures forall k :: 0 <= k < |Flatten(parts)| ==> Emittable(Flatten(parts)[k])
    ensures var k, a := Start(parts, f) + Notes(parts[f])[i], fs[f].annotations[i];
            && Emittable(a.item)
            && LabelsAgree(fs, labels)
            && (a.item.IsLabelFixup() ==> a.item.id in labels)
            && match Resize(a.item, ItsDelta(fs, labels, f, i))
               case None => forall t :: !Adequate(Flatten(parts), t)
               case Some(v) =>
                 && a.size <= v
                 && (v == a.size ==> SettledAt(parts, sizes, f, i))
                 && (var fs0 := SetSize(fs, f, i, v);
                     var fs', sizes' := Shift(fs0, f, i, v - a.size), sizes[k := v];
                     && |fs0[f].annotations| == |fs'[f].annotations| == |fs[f].annotations|
                     && Relaxing(fs', parts, labels, sizes')
                     && Slack(Flatten(parts), sizes') == Slack(Flatten(parts), sizes) - (v - a.size))
  {
    hide *;
    RelaxOne(fs, parts, labels, sizes, f, i);
    RelaxingMeans(fs, parts, labels, sizes, f);
    PlacedHere(fs, labels, f, i);
    var k, a := Start(parts, f) + Notes(parts[f])[i], fs[f].annotations[i];
    match Want(Flatten(parts), sizes, k)
    case None =>
    case Some(v) =>
      SetSizeKeeps(fs, f, i, v, v - a.size);
      SlackShrinks(Flatten(parts), sizes, k, v);
      if v == a.size { SettledHere(parts, sizes, f, i); }
  }

  lemma PlacedHere(fs: seq<Cfunction>, labels: map<nat, Place>, f: nat, i: nat)
    requires LabelsPlaced(fs, labels) && f < |fs| && i < |fs[f].annotations|
    ensures fs[f].annotations[i].item.IsLabelFixup() ==> fs[f].annotations[i].item.id in labels
  {
  }

  lemma SettledHere(parts: seq<seq<Item>>, sizes: seq<nat>, f: nat, i: nat)
    requires |sizes| == |Flatten(parts)| && WellFormed(Flatten(parts))
    requires f < |parts| && i < |Notes(parts[f])| && Start(parts, f) + Notes(parts[f])[i] < |sizes|
    requires var k := Start(parts, f) + Notes(parts[f])[i];
             Emittable(Flatten(parts)[k]) && Want(Flatten(parts), sizes, k) == Some(sizes[k])
    ensures SettledAt(parts, sizes, f, i)
  {
  }

  lemma EmittedIsWellFormed(fs: seq<Cfunction>, parts: seq<seq<Item>>, labels: map<nat, Place>)
    requires Emitted(fs, parts, labels) && LabelsPlaced(fs, labels)
    ensures WellFormed(Flatten(parts)) && |fs| == |parts|
    ensures forall k :: 0 <= k < |Flatten(parts)| ==> Emittable(Flatten(parts)[k])
    ensures forall f :: 0 <= f < |fs| ==> Holding(fs[f], parts[f])
    ensures Pos(InitialSizes(Flatten(parts)), Start(parts, 0)) == 0
  {
    hide Holding, Flatten, Start, InitialSizes;
    EmittedIsAnnotated(fs, parts, labels);
    LinkableIsWellFormed(fs, parts, labels);
  }

  // Linking starts with every function at the sum of the lengths before it.
  lemma InitiallyRelaxing(fs: seq<Cfunction>, fs': seq<Cfunction>, parts: seq<seq<Item>>, labels: map<nat, Place>)
    requires Emitted(fs, parts, labels) && LabelsPlaced(fs, labels)
    requires |fs| == |fs'| == |parts| && WellFormed(Flatten(parts))
    requires forall h :: 0 <= h < |fs| ==>
               fs'[h] == fs[h].(position := Pos(InitialSizes(Flatten(parts)), Start(parts, h)))
    ensures Relaxing(fs', parts, labels, InitialSizes(Flatten(parts)))
  {
    var items := Flatten(parts);
    var sizes := InitialSizes(items);
    hide Flatten, Start, Pos, WellFormed, InitialSizes, Laid, Optimistic, LabelsAgree, LabelsPlaced, Holding;
    forall h | 0 <= h < |fs'| ensures Laid(fs'[h], parts[h], Start(parts, h), sizes) {
      HoldingElsewhere(fs[h], parts[h], Pos(sizes, Start(parts, h)));
      InitialFunctionLaid(fs'[h], parts, h);
    }
    InitialOptimistic(items);
    MovedLabels(fs, fs', labels);
  }

  lemma HoldingLength(cf: Cfunction, its: seq<Item>)
    requires Holding(cf, its)
    ensures forall k :: 0 <= k < |its| ==> Emittable(its[k])
    ensures cf.bytecode == Assembly(its) && cf.FinalSize() == |Assembly(its)| && |cf.annotations| == |Notes(its)|
  {
    hide Assembly, Notes, Emittable, NoteAt;
  }

  lemma HoldingNote(cf: Cfunction, its: seq<Item>, i: nat)
    requires Holding(cf, its) && i < |cf.annotations|
    ensures forall k :: 0 <= k < |its| ==> Emittable(its[k])
    ensures var a := cf.annotations[i];
            NoteAt(its, i, a.item, a.initialPosition) && a.position == a.initialPosition
            && Emittable(a.item) && a.size == InitialSize(a.item)
  {
    hide Assembly, Notes, Emittable, NoteAt, InitialSize;
  }

  lemma HoldingElsewhere(cf: Cfunction, its: seq<Item>, position: nat)
    requires Holding(cf, its)
    ensures Holding(cf.(position := position), its)
  {
    hide NoteAt, Notes, Assembly;
  }

  lemma MovedLabels(fs: seq<Cfunction>, fs': seq<Cfunction>, labels: map<nat, Place>)
    requires LabelsAgree(fs, labels) && LabelsPlaced(fs, labels)
    requires |fs| == |fs'| && forall h :: 0 <= h < |fs| ==> fs'[h].annotations == fs[h].annotations
    ensures LabelsAgree(fs', labels) && LabelsPlaced(fs', labels)
  {
  }

  lemma EmittedIsAnnotated(fs: seq<Cfunction>, parts: seq<seq<Item>>, labels: map<nat, Place>)
    requires Emitted(fs, parts, labels)
    ensures AllAnnotated(fs, parts)
    ensures forall f, k :: 0 <= f < |parts| && 0 <= k < |parts[f]| ==> Emittable(parts[f][k])
  {
    hide Notes, Assembly, Emittable;
  }

  lemma LaidOut(cf: Cfunction, its: seq<Item>, base: nat, sizes: seq<nat>)
    requires forall k :: 0 <= k < |its| ==> Emittable(its[k])
    requires cf.bytecode == Assembly(its) && |cf.annotations| == |Notes(its)| && base + |its| <= |sizes|
    requires cf.position == Pos(sizes, base) && cf.FinalSize() == Pos(sizes, base + |its|) - Pos(sizes, base)
    requires forall i :: 0 <= i < |cf.annotations| ==>
               var a := cf.annotations[i];
               NoteLaid(its, base, sizes, i, a.item, a.initialPosition, a.position, a.size)
    ensures Laid(cf, its, base, sizes)
  {
    hide Notes, Assembly, Pos, NoteLaid, Emittable;
  }

  // Function f before relaxation, once its position has been initialized.
  lemma InitialFunctionLaid(cf: Cfunction, parts: seq<seq<Item>>, f: nat)
    requires f < |parts| && WellFormed(Flatten(parts)) && Holding(cf, parts[f])
    requires cf.position == Pos(InitialSizes(Flatten(parts)), Start(parts, f))
    ensures Laid(cf, parts[f], Start(parts, f), InitialSizes(Flatten(parts)))
  {
    hide *;
    AllEmittable(Flatten(parts));
    FunctionLength(parts, f);
    HoldingLength(cf, parts[f]);
    var sizes := InitialSizes(Flatten(parts));
    forall i | 0 <= i < |cf.annotations|
      ensures var a := cf.annotations[i];
              NoteLaid(parts[f], Start(parts, f), sizes, i, a.item, a.initialPosition, a.position, a.size)
    {
      var a := cf.annotations[i];
      HoldingNote(cf, parts[f], i);
      InitialNoteLaid(parts, f, i, a.item, a.initialPosition);
    }
    LaidOut(cf, parts[f], Start(parts, f), sizes);
  }

  // A function after an item has been emitted into it.
  function Extended(cf: Cfunction, item: Item): Cfunction
    requires Emittable(item)
  {
    var position := |cf.bytecode|;
    cf.(bytecode := cf.bytecode + Placeholder(item),
        annotations := if item.Ins? then cf.annotations
                       else cf.annotations + [Annotation(item, position, position, InitialSize(item))])
  }

  function Registered(labels: map<nat, Place>, f: nat, index: nat, item: Item): map<nat, Place> {
    if item.Mark? then labels[item.id := Place(f, index)] else labels
  }

  lemma RegisteredKeys(labels: map<nat, Place>, f: nat, index: nat, item: Item)
    ensures Registered(labels, f, index, item).Keys == if item.Mark? then labels.Keys + {item.id} else labels.Keys
  {
  }

  lemma HoldingAppend(cf: Cfunction, its: seq<Item>, item: Item)
    requires Holding(cf, its) && Emittable(item)
    ensures Holding(Extended(cf, item), its + [item])
  {
    hide Notes, Assembly, Emittable, InitialSize, Placeholder, NoteAt;
    AppendItem(its, item);
    var cf', its' := Extended(cf, item), its + [item];
    forall i | 0 <= i < |cf'.annotations|
      ensures var a := cf'.annotations[i];
              NoteAt(its', i, a.item, a.initialPosition) && a.position == a.initialPosition
              && Emittable(a.item) && a.size == InitialSize(a.item)
    {
      if i < |cf.annotations| {
        assert cf'.annotations[i] == cf.annotations[i];
        assert NoteAt(its, i, cf.annotations[i].item, cf.annotations[i].initialPosition);
      }
    }
  }

  lemma LabelsAppend(fs: seq<Cfunction>, labels: map<nat, Place>, f: nat, item: Item)
    requires LabelsAgree(fs, labels) && f < |fs| && Emittable(item)
    requires item.Mark? ==> item.id !in labels
    ensures LabelsAgree(fs[f := Extended(fs[f], item)], Registered(labels, f, |fs[f].annotations|, item))
  {
    hide Emittable, InitialSize, Placeholder;
    var fs', labels' := fs[f := Extended(fs[f], item)], Registered(labels, f, |fs[f].annotations|, item);
    forall h, i | 0 <= h < |fs'| && 0 <= i < |fs'[h].annotations| && fs'[h].annotations[i].item.Mark?
      ensures var id := fs'[h].annotations[i].item.id;
              id in labels' && labels'[id] == Place(h, i)
    {
      if h != f || i < |fs[f].annotations| {
        assert fs'[h].annotations[i] == fs[h].annotations[i];
      }
    }
  }

  lemma EmittedAppend(fs: seq<Cfunction>, parts: seq<seq<Item>>, labels: map<nat, Place>, f: nat, item: Item)
    requires Emitted(fs, parts, labels) && f < |fs| && Emittable(item)
    requires item.Mark? ==> item.id !in labels
    ensures Emitted(fs[f := Extended(fs[f], item)], parts[f := parts[f] + [item]],
                    Registered(labels, f, |fs[f].annotations|, item))
  {
    hide Holding, LabelsAgree, Extended, Registered, Emittable;
    HoldingAppend(fs[f], parts[f], item);
    LabelsAppend(fs, labels, f, item);
  }
}
