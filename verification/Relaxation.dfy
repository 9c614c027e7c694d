/** Sizes of the items of a whole module (the items of its functions in order)
    and the fixed point that resolve_fixup_sizes looks for. */
module Relaxation {
  import opened Options
  import opened Instructions

  // The total of the first k sizes: the module position of item k.
  function Pos(sizes: seq<nat>, k: nat): nat
    requires k <= |sizes|
  {
    if k == 0 then 0 else Pos(sizes, k - 1) + sizes[k - 1]
  }

  predicate AtMost(s: seq<nat>, t: seq<nat>) {
    |s| == |t| && forall k :: 0 <= k < |s| ==> s[k] <= t[k]
  }

  // The index of the mark of a label; |items| when it has none.
  function Target(items: seq<Item>, id: nat): (t: nat)
    ensures t <= |items|
    ensures t < |items| <==> Mark(id) in items
    ensures t < |items| ==> items[t] == Mark(id)
    ensures forall k :: 0 <= k < t ==> items[k] != Mark(id)
  {
    if items == [] then 0
    else if items[0] == Mark(id) then 0
    else 1 + Target(items[1..], id)
  }

  // A module that can be linked: emitted within the limits, every label placed.
  ghost predicate WellFormed(items: seq<Item>) {
    && (forall k :: 0 <= k < |items| ==> Emittable(items[k]))
    && (forall k :: 0 <= k < |items| && items[k].IsLabelFixup() ==> Mark(items[k].id) in items)
  }

  function Delta(items: seq<Item>, sizes: seq<nat>, k: nat): int
    requires |sizes| == |items| && k < |items|
  {
    if items[k].IsLabelFixup() then Pos(sizes, Target(items, items[k].id)) - Pos(sizes, k) else 0
  }

  function Want(items: seq<Item>, sizes: seq<nat>, k: nat): Option<nat>
    requires |sizes| == |items| && k < |items| && Emittable(items[k])
  {
    Resize(items[k], Delta(items, sizes, k))
  }

  function InitialSizes(items: seq<Item>): (sizes: seq<nat>)
    requires forall k :: 0 <= k < |items| ==> Emittable(items[k])
    ensures |sizes| == |items|
  {
    seq(|items|, k requires 0 <= k < |items| => InitialSize(items[k]))
  }

  function MaxSizes(items: seq<Item>): (sizes: seq<nat>)
    requires forall k :: 0 <= k < |items| ==> Emittable(items[k])
    ensures |sizes| == |items|
  {
    seq(|items|, k requires 0 <= k < |items| => MaxSize(items[k]))
  }

  // Every item has the size its resize method asks for.
  ghost predicate Consistent(items: seq<Item>, sizes: seq<nat>)
    requires WellFormed(items)
  {
    && |sizes| == |items|
    && forall k :: 0 <= k < |items| ==> Want(items, sizes, k) == Some(sizes[k])
  }

  // Every label fixup has room for its distance, and every other item for its bytes.
  ghost predicate Adequate(items: seq<Item>, sizes: seq<nat>)
    requires WellFormed(items)
  {
    && |sizes| == |items|
    && forall k :: 0 <= k < |items| ==>
         if items[k].IsLabelFixup() then Spans(items[k], sizes[k], Delta(items, sizes, k))
         else Resize(items[k], 0).value <= sizes[k]
  }

  // What every step of the relaxation keeps.
  ghost predicate Optimistic(items: seq<Item>, sizes: seq<nat>)
    requires WellFormed(items)
  {
    && AtMost(InitialSizes(items), sizes)
    && AtMost(sizes, MaxSizes(items))
    && (forall k :: 0 <= k < |items| ==>
          (Want(items, sizes, k) == None || sizes[k] <= Want(items, sizes, k).value))
    && (forall t :: Adequate(items, t) ==> AtMost(sizes, t))
  }

  // ---- sums ----

  lemma {:induction false} PosMonotone(s: seq<nat>, i: nat, j: nat)
    requires i <= j <= |s|
    ensures Pos(s, i) <= Pos(s, j)
  {
    if i < j { PosMonotone(s, i, j - 1); }
  }

  // Growing sizes moves no two items closer together.
  lemma {:induction false} GapGrows(s: seq<nat>, t: seq<nat>, i: nat, j: nat)
    requires AtMost(s, t) && i <= j <= |s|
    ensures Pos(s, j) - Pos(s, i) <= Pos(t, j) - Pos(t, i)
  {
    if i < j { GapGrows(s, t, i, j - 1); }
  }

  lemma {:induction false} PosUpdate(s: seq<nat>, k: nat, v: nat, j: nat)
    requires k < |s| && j <= |s|
    ensures Pos(s[k := v], j) == Pos(s, j) + if k < j then v - s[k] else 0
  {
    if j > 0 { PosUpdate(s, k, v, j - 1); }
  }

  // ---- monotonicity of resize ----

  /** As sizes grow no distance shrinks, so no fixup asks for fewer bytes. */
  lemma WantMonotone(items: seq<Item>, s: seq<nat>, t: seq<nat>, k: nat)
    requires WellFormed(items) && |s| == |items| && AtMost(s, t) && k < |items|
    ensures Want(items, t, k).Some? ==>
              Want(items, s, k).Some? && Want(items, s, k).value <= Want(items, t, k).value
    ensures 0 <= Delta(items, s, k) <= Delta(items, t, k) || Delta(items, t, k) <= Delta(items, s, k) <= 0
  {
    if items[k].IsLabelFixup() {
      var l := Target(items, items[k].id);
      if k <= l {
        GapGrows(s, t, k, l);
        PosMonotone(s, k, l);
      } else {
        GapGrows(s, t, l, k);
        PosMonotone(s, l, k);
      }
    }
  }

  // A fixup asks for no more than it has in a layout where everything has room.
  lemma WantBelow(items: seq<Item>, s: seq<nat>, t: seq<nat>, k: nat)
    requires WellFormed(items) && AtMost(s, t) && Adequate(items, t) && k < |items|
    ensures Want(items, s, k).Some? && Want(items, s, k).value <= t[k]
  {
    WantMonotone(items, s, t, k);
    if items[k].IsLabelFixup() {
      ResizeIsLeast(items[k], Delta(items, s, k));
      hide Delta, Resize;
      assert Spans(items[k], t[k], Delta(items, t, k));
      assert Spans(items[k], t[k], Delta(items, s, k));
    }
  }

  /** Where every fixup has the size it asks for, everything has room. */
  lemma ConsistentIsAdequate(items: seq<Item>, t: seq<nat>)
    requires WellFormed(items) && Consistent(items, t)
    ensures Adequate(items, t)
  {
    forall k | 0 <= k < |items|
      ensures if items[k].IsLabelFixup() then Spans(items[k], t[k], Delta(items, t, k))
              else Resize(items[k], 0).value <= t[k]
    {
      assert Want(items, t, k) == Some(t[k]);
      if items[k].IsLabelFixup() { ResizeIsLeast(items[k], Delta(items, t, k)); }
    }
  }

  lemma NoneConsistent(items: seq<Item>)
    requires WellFormed(items) && forall t :: !Adequate(items, t)
    ensures forall t :: !Consistent(items, t)
  {
    forall t ensures !Consistent(items, t) {
      if Consistent(items, t) { ConsistentIsAdequate(items, t); }
    }
  }

  lemma LeastConsistent(items: seq<Item>, sizes: seq<nat>)
    requires WellFormed(items) && forall t :: Adequate(items, t) ==> AtMost(sizes, t)
    ensures forall t :: Consistent(items, t) ==> AtMost(sizes, t)
  {
    forall t | Consistent(items, t) ensures AtMost(sizes, t) { ConsistentIsAdequate(items, t); }
  }

  // Sizes that leave room for everything but some label fixup.
  ghost predicate RoomForTheRest(items: seq<Item>, sizes: seq<nat>)
    requires WellFormed(items)
  {
    && |sizes| == |items|
    && forall k :: 0 <= k < |items| && !items[k].IsLabelFixup() ==> Resize(items[k], 0).value <= sizes[k]
  }

  lemma SomeFixupTooShort(items: seq<Item>, t: seq<nat>)
    requires WellFormed(items) && RoomForTheRest(items, t) && !Adequate(items, t)
    ensures exists k :: 0 <= k < |items| && items[k].IsLabelFixup() && !Spans(items[k], t[k], Delta(items, t, k))
  {
  }

  // The initial sizes leave room for no less than everything needs.
  lemma AdequateBounds(items: seq<Item>, t: seq<nat>, k: nat)
    requires WellFormed(items) && Adequate(items, t) && k < |items|
    ensures InitialSize(items[k]) <= t[k]
  {
    if items[k].IsLabelFixup() { assert Spans(items[k], t[k], Delta(items, t, k)); }
  }

  lemma WantBounds(items: seq<Item>, s: seq<nat>, k: nat)
    requires WellFormed(items) && |s| == |items| && k < |items|
    ensures Want(items, s, k).Some? ==> InitialSize(items[k]) <= Want(items, s, k).value <= MaxSize(items[k])
  {
  }

  lemma AllEmittable(items: seq<Item>)
    requires WellFormed(items)
    ensures forall k :: 0 <= k < |items| ==> Emittable(items[k])
  {
  }

  lemma InstructionSettled(items: seq<Item>, s: seq<nat>, k: nat)
    requires WellFormed(items) && Optimistic(items, s) && k < |items| && items[k].Ins?
    ensures Want(items, s, k) == Some(s[k])
  {
    assert InitialSizes(items)[k] <= s[k] <= MaxSizes(items)[k];
  }

  /** Relaxation may start from the initial sizes. */
  lemma InitialOptimistic(items: seq<Item>)
    requires WellFormed(items)
    ensures Optimistic(items, InitialSizes(items))
  {
    var s := InitialSizes(items);
    forall k | 0 <= k < |items| ensures Want(items, s, k) == None || s[k] <= Want(items, s, k).value {
      WantBounds(items, s, k);
    }
    forall t | Adequate(items, t) ensures AtMost(s, t) {
      forall k | 0 <= k < |items| ensures s[k] <= t[k] { AdequateBounds(items, t, k); }
    }
    forall k | 0 <= k < |items| ensures s[k] <= MaxSizes(items)[k] {
    }
  }

  /** One relaxation step: the size asked for is never smaller than the present
      one, and giving it to the fixup keeps the sizes below every solution. */
  lemma RelaxStep(items: seq<Item>, s: seq<nat>, k: nat)
    requires WellFormed(items) && Optimistic(items, s) && k < |items|
    requires Want(items, s, k).Some?
    ensures s[k] <= Want(items, s, k).value
    ensures Optimistic(items, s[k := Want(items, s, k).value])
  {
    var w := Want(items, s, k).value;
    var s' := s[k := w];
    WantBounds(items, s, k);
    assert AtMost(s, s');
    forall j | 0 <= j < |items|
      ensures Want(items, s', j) == None || s'[j] <= Want(items, s', j).value
    {
      WantMonotone(items, s, s', j);
    }
    forall t | Adequate(items, t) ensures AtMost(s', t) {
      WantBelow(items, s, t, k);
    }
  }

  /** A fixup whose resize signals an error shows that no layout exists. */
  lemma ErrorMeansNoLayout(items: seq<Item>, s: seq<nat>, k: nat)
    requires WellFormed(items) && Optimistic(items, s) && k < |items|
    requires Want(items, s, k) == None
    ensures forall t :: !Adequate(items, t)
  {
    forall t ensures !Adequate(items, t) {
      if Adequate(items, t) { WantBelow(items, s, t, k); }
    }
  }

  // What is left to grow: the measure that bounds relaxation.
  function Slack(items: seq<Item>, sizes: seq<nat>): (slack: int)
    requires forall k :: 0 <= k < |items| ==> Emittable(items[k])
    requires |sizes| == |items|
  {
    Pos(MaxSizes(items), |items|) - Pos(sizes, |items|)
  }

  lemma SlackIsNatural(items: seq<Item>, sizes: seq<nat>)
    requires forall k :: 0 <= k < |items| ==> Emittable(items[k])
    requires AtMost(sizes, MaxSizes(items))
    ensures Slack(items, sizes) >= 0
  {
    GapGrows(sizes, MaxSizes(items), 0, |items|);
  }

  lemma SlackShrinks(items: seq<Item>, sizes: seq<nat>, k: nat, v: nat)
    requires forall k :: 0 <= k < |items| ==> Emittable(items[k])
    requires |sizes| == |items| && k < |items|
    ensures Slack(items, sizes[k := v]) == Slack(items, sizes) - (v - sizes[k])
  {
    PosUpdate(sizes, k, v, |items|);
  }
}
