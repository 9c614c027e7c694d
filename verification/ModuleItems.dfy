/** The items of a module, function by function. */
module ModuleItems {
  import opened Instructions
  import opened Relaxation
  import opened Emission

  // The indices of the labels and fixups among the items of a function.
  function Notes(items: seq<Item>): (notes: seq<nat>)
    ensures forall i :: 0 <= i < |notes| ==> notes[i] < |items| && !items[notes[i]].Ins?
    ensures forall i, j :: 0 <= i < j < |notes| ==> notes[i] < notes[j]
  {
    if items == [] then []
    else
      var n := |items| - 1;
      Notes(items[..n]) + if items[n].Ins? then [] else [n]
  }

  // The i-th label or fixup of a function, and the length of the assembly before it.
  ghost predicate NoteAt(items: seq<Item>, i: nat, item: Item, position: nat)
    requires forall k :: 0 <= k < |items| ==> Emittable(items[k])
  {
    && i < |Notes(items)|
    && item == items[Notes(items)[i]]
    && position == |Assembly(items[..Notes(items)[i]])|
  }

  lemma AppendItem(items: seq<Item>, item: Item)
    requires Emittable(item) && forall k :: 0 <= k < |items| ==> Emittable(items[k])
    ensures Assembly(items + [item]) == Assembly(items) + Placeholder(item)
    ensures Notes(items + [item]) == Notes(items) + if item.Ins? then [] else [|items|]
    ensures forall i, it, p {:trigger NoteAt(items, i, it, p)} :: NoteAt(items, i, it, p) ==>
              NoteAt(items + [item], i, it, p)
    ensures !item.Ins? ==> NoteAt(items + [item], |Notes(items)|, item, |Assembly(items)|)
  {
    assert (items + [item])[..|items|] == items;
    forall i: nat, it, p: nat | NoteAt(items, i, it, p) ensures NoteAt(items + [item], i, it, p) {
      assert (items + [item])[..Notes(items)[i]] == items[..Notes(items)[i]];
    }
  }

  // The items of all functions in order; item k of function f is item Start(parts, f) + k.
  function Flatten(parts: seq<seq<Item>>): seq<Item> {
    if parts == [] then [] else Flatten(parts[..|parts| - 1]) + parts[|parts| - 1]
  }

  lemma {:induction false} FlattenPrefix(parts: seq<seq<Item>>, f: nat)
    requires f <= |parts|
    ensures Flatten(parts[..f]) <= Flatten(parts)
  {
    if f < |parts| {
      FlattenPrefix(parts[..|parts| - 1], f);
      assert parts[..|parts| - 1][..f] == parts[..f];
    } else {
      assert parts[..f] == parts;
    }
  }

  function Start(parts: seq<seq<Item>>, f: nat): (start: nat)
    requires f <= |parts|
    ensures start <= |Flatten(parts)|
    ensures f == 0 ==> start == 0
  {
    FlattenPrefix(parts, f);
    |Flatten(parts[..f])|
  }

  // Function f holds the items from Start(parts, f) up to Start(parts, f + 1).
  lemma FunctionItems(parts: seq<seq<Item>>, f: nat)
    requires f < |parts|
    ensures Start(parts, f + 1) == Start(parts, f) + |parts[f]|
    ensures forall k {:trigger parts[f][k]} :: 0 <= k < |parts[f]| ==>
              Flatten(parts)[Start(parts, f) + k] == parts[f][k]
    ensures Start(parts, |parts|) == |Flatten(parts)|
  {
    FlattenPrefix(parts, f + 1);
    assert parts[..f + 1][..f] == parts[..f];
    assert parts[..|parts|] == parts;
    var front, all := Flatten(parts[..f + 1]), Flatten(parts);
    assert front == Flatten(parts[..f]) + parts[f];
    assert front <= all;
    forall k {:trigger parts[f][k]} | 0 <= k < |parts[f]| ensures all[Start(parts, f) + k] == parts[f][k] {
      assert all[Start(parts, f) + k] == front[Start(parts, f) + k];
    }
  }

  lemma FunctionSpan(parts: seq<seq<Item>>, f: nat)
    requires f < |parts|
    ensures Start(parts, f + 1) == Start(parts, f) + |parts[f]| <= |Flatten(parts)|
  {
    FunctionItems(parts, f);
  }

  lemma StartOrder(parts: seq<seq<Item>>, f: nat, g: nat)
    requires f < g <= |parts|
    ensures Start(parts, f) + |parts[f]| <= Start(parts, g)
  {
    FunctionItems(parts, f);
    FlattenPrefix(parts[..g], f + 1);
    assert parts[..g][..f + 1] == parts[..f + 1];
  }

  // No two items mark the same label.
  ghost predicate UniqueMarks(items: seq<Item>) {
    forall i, j :: 0 <= i < j < |items| && items[i].Mark? ==> items[i] != items[j]
  }

  lemma {:induction false} PosSegment(s: seq<nat>, t: seq<nat>, base: nat, n: nat)
    requires n <= |t| && base + |t| <= |s|
    requires forall k {:trigger t[k]} :: 0 <= k < |t| ==> s[base + k] == t[k]
    ensures Pos(s, base + n) - Pos(s, base) == Pos(t, n)
  {
    if n > 0 {
      PosSegment(s, t, base, n - 1);
      assert s[base + (n - 1)] == t[n - 1];
    }
  }

  lemma StretchSizes(all: seq<Item>, its: seq<Item>, base: nat)
    requires forall k :: 0 <= k < |all| ==> Emittable(all[k])
    requires base + |its| <= |all|
    requires forall k {:trigger its[k]} :: 0 <= k < |its| ==> all[base + k] == its[k]
    ensures forall k :: 0 <= k < |its| ==> Emittable(its[k])
    ensures forall k {:trigger InitialSizes(its)[k]} :: 0 <= k < |its| ==>
              InitialSizes(all)[base + k] == InitialSizes(its)[k]
  {
    hide Emittable, InitialSize;
    forall k | 0 <= k < |its| ensures Emittable(its[k]) {
      assert all[base + k] == its[k];
    }
    forall k | 0 <= k < |its| ensures InitialSizes(all)[base + k] == InitialSizes(its)[k] {
      assert all[base + k] == its[k];
    }
  }

  // A function's initial sizes are a stretch of the module's.
  lemma FunctionSizes(parts: seq<seq<Item>>, f: nat)
    requires f < |parts|
    requires forall k :: 0 <= k < |Flatten(parts)| ==> Emittable(Flatten(parts)[k])
    ensures Start(parts, f) + |parts[f]| <= |Flatten(parts)|
    ensures forall k :: 0 <= k < |parts[f]| ==> Emittable(parts[f][k])
    ensures forall k {:trigger InitialSizes(parts[f])[k]} :: 0 <= k < |parts[f]| ==>
              InitialSizes(Flatten(parts))[Start(parts, f) + k] == InitialSizes(parts[f])[k]
  {
    hide *;
    FunctionItems(parts, f);
    FunctionSpan(parts, f);
    StretchSizes(Flatten(parts), parts[f], Start(parts, f));
  }

  // Before relaxation an item of a function stands where its assembly put it.
  lemma InitialPosition(parts: seq<seq<Item>>, f: nat, n: nat)
    requires f < |parts| && n <= |parts[f]|
    requires forall k :: 0 <= k < |Flatten(parts)| ==> Emittable(Flatten(parts)[k])
    ensures Start(parts, f) + |parts[f]| <= |Flatten(parts)|
    ensures forall k :: 0 <= k < |parts[f]| ==> Emittable(parts[f][k])
    ensures Pos(InitialSizes(Flatten(parts)), Start(parts, f) + n) - Pos(InitialSizes(Flatten(parts)), Start(parts, f))
            == |Assembly(parts[f][..n])|
  {
    hide Flatten, Start, Emittable, InitialSize, InitialSizes, Pos, Assembly;
    FunctionSizes(parts, f);
    AssemblyLength(parts[f], n);
    PosSegment(InitialSizes(Flatten(parts)), InitialSizes(parts[f]), Start(parts, f), n);
  }

  lemma FunctionLength(parts: seq<seq<Item>>, f: nat)
    requires f < |parts|
    requires forall k :: 0 <= k < |Flatten(parts)| ==> Emittable(Flatten(parts)[k])
    ensures Start(parts, f + 1) == Start(parts, f) + |parts[f]| <= |Flatten(parts)|
    ensures forall k :: 0 <= k < |parts[f]| ==> Emittable(parts[f][k])
    ensures Pos(InitialSizes(Flatten(parts)), Start(parts, f + 1))
            == Pos(InitialSizes(Flatten(parts)), Start(parts, f)) + |Assembly(parts[f])|
  {
    hide *;
    FunctionSpan(parts, f);
    InitialPosition(parts, f, |parts[f]|);
    assert parts[f][..|parts[f]|] == parts[f];
  }

  // What linking keeps of the i-th label or fixup of a function whose first
  // item is item base of the module.
  ghost predicate NoteLaid(its: seq<Item>, base: nat, sizes: seq<nat>, i: nat,
                           item: Item, initialPosition: nat, position: nat, size: nat)
    requires forall k :: 0 <= k < |its| ==> Emittable(its[k])
    requires base + |its| <= |sizes|
  {
    && i < |Notes(its)|
    && NoteAt(its, i, item, initialPosition)
    && position == Pos(sizes, base + Notes(its)[i]) - Pos(sizes, base)
    && size == sizes[base + Notes(its)[i]]
  }

  lemma NoteLaidMeans(its: seq<Item>, base: nat, sizes: seq<nat>, i: nat,
                      item: Item, initialPosition: nat, position: nat, size: nat)
    requires forall k :: 0 <= k < |its| ==> Emittable(its[k])
    requires base + |its| <= |sizes|
    requires NoteLaid(its, base, sizes, i, item, initialPosition, position, size)
    ensures i < |Notes(its)|
    ensures position + Pos(sizes, base) == Pos(sizes, base + Notes(its)[i])
    ensures size == sizes[base + Notes(its)[i]]
    ensures initialPosition == |Assembly(its[..Notes(its)[i]])|
  {
  }

  lemma InitialNoteLaid(parts: seq<seq<Item>>, f: nat, i: nat, item: Item, position: nat)
    requires f < |parts|
    requires forall k :: 0 <= k < |Flatten(parts)| ==> Emittable(Flatten(parts)[k])
    requires forall k :: 0 <= k < |parts[f]| ==> Emittable(parts[f][k])
    requires NoteAt(parts[f], i, item, position)
    requires Start(parts, f) + |parts[f]| <= |Flatten(parts)|
    ensures NoteLaid(parts[f], Start(parts, f), InitialSizes(Flatten(parts)), i,
                     item, position, position, InitialSize(item))
  {
    hide Flatten, Start, Emittable, InitialSize, Pos, Assembly;
    var n, base, sizes := Notes(parts[f])[i], Start(parts, f), InitialSizes(Flatten(parts));
    assert position == Pos(sizes, base + n) - Pos(sizes, base) by { InitialPosition(parts, f, n); }
    assert sizes[base + n] == InitialSize(item) by {
      FunctionItems(parts, f);
      assert Flatten(parts)[base + n] == parts[f][n];
    }
  }

  // A size changes: the positions of what comes after it in the function move.
  lemma NoteLaidUpdate(its: seq<Item>, base: nat, sizes: seq<nat>, i: nat,
                       item: Item, initialPosition: nat, position: nat, size: nat, k: nat, v: nat)
    requires forall j :: 0 <= j < |its| ==> Emittable(its[j])
    requires base + |its| <= |sizes| && k < |sizes| && sizes[k] <= v
    requires NoteLaid(its, base, sizes, i, item, initialPosition, position, size)
    ensures NoteLaid(its, base, sizes[k := v], i, item, initialPosition,
                     position + (if base <= k < base + Notes(its)[i] then v - sizes[k] else 0),
                     if k == base + Notes(its)[i] then v else size)
  {
    hide Emittable, Notes, NoteAt, Pos;
    PosUpdate(sizes, k, v, base);
    PosUpdate(sizes, k, v, base + Notes(its)[i]);
  }

  // Where item k, the n-th of function f, lies relative to function h.
  lemma ItemBeside(parts: seq<seq<Item>>, f: nat, n: nat, h: nat, k: nat)
    requires f < |parts| && h < |parts| && n < |parts[f]| && k == Start(parts, f) + n
    ensures Start(parts, h) + |parts[h]| <= |Flatten(parts)|
    ensures k < Start(parts, h) <==> f < h
    ensures Start(parts, h) <= k < Start(parts, h) + |parts[h]| <==> f == h
  {
    FunctionSpan(parts, f);
    FunctionSpan(parts, h);
    if h < f { StartOrder(parts, h, f); } else if f < h { StartOrder(parts, f, h); }
  }

  lemma NoteBeside(parts: seq<seq<Item>>, f: nat, i: nat, h: nat, j: nat, k: nat)
    requires f < |parts| && h < |parts| && i < |Notes(parts[f])| && k == Start(parts, f) + Notes(parts[f])[i]
    requires j < |Notes(parts[h])|
    ensures Start(parts, h) <= k < Start(parts, h) + Notes(parts[h])[j] <==> f == h && i < j
    ensures k == Start(parts, h) + Notes(parts[h])[j] <==> f == h && i == j
  {
    hide Flatten, Start, Notes;
    var n, m := Notes(parts[f])[i], Notes(parts[h])[j];
    assert n < |parts[f]| && m < |parts[h]|;
    ItemBeside(parts, f, n, h, k);
    if f == h { assert (i < j <==> n < m) && (i == j <==> n == m); }
  }

  // Item k, in function f, is given size v: what moves in function h.
  lemma FunctionMoves(parts: seq<seq<Item>>, sizes: seq<nat>, f: nat, n: nat, h: nat, k: nat, v: nat)
    requires f < |parts| && h < |parts| && n < |parts[f]| && k == Start(parts, f) + n
    requires |sizes| == |Flatten(parts)| && k < |sizes| && sizes[k] <= v
    ensures Start(parts, h) + |parts[h]| <= |sizes|
    ensures Pos(sizes[k := v], Start(parts, h)) == Pos(sizes, Start(parts, h)) + if f < h then v - sizes[k] else 0
    ensures Pos(sizes[k := v], Start(parts, h) + |parts[h]|) - Pos(sizes[k := v], Start(parts, h))
            == Pos(sizes, Start(parts, h) + |parts[h]|) - Pos(sizes, Start(parts, h))
               + if f == h then v - sizes[k] else 0
  {
    ItemBeside(parts, f, n, h, k);
    hide Flatten, Start, Pos;
    PosUpdate(sizes, k, v, Start(parts, h));
    PosUpdate(sizes, k, v, Start(parts, h) + |parts[h]|);
  }

  // The i-th label or fixup of function f is given size v: what it does to the
  // j-th of function h.
  lemma NoteMoves(parts: seq<seq<Item>>, sizes: seq<nat>, f: nat, i: nat, h: nat, j: nat,
                  item: Item, initialPosition: nat, position: nat, size: nat, k: nat, v: nat)
    requires f < |parts| && h < |parts| && i < |Notes(parts[f])| && k == Start(parts, f) + Notes(parts[f])[i]
    requires |sizes| == |Flatten(parts)| && k < |sizes| && sizes[k] <= v
    requires forall n :: 0 <= n < |parts[h]| ==> Emittable(parts[h][n])
    requires Start(parts, h) + |parts[h]| <= |sizes|
    requires NoteLaid(parts[h], Start(parts, h), sizes, j, item, initialPosition, position, size)
    ensures NoteLaid(parts[h], Start(parts, h), sizes[k := v], j, item, initialPosition,
                     position + (if f == h && i < j then v - sizes[k] else 0),
                     if f == h && i == j then v else size)
  {
    hide *;
    NoteLaidMeans(parts[h], Start(parts, h), sizes, j, item, initialPosition, position, size);
    NoteBeside(parts, f, i, h, j, k);
    NoteLaidUpdate(parts[h], Start(parts, h), sizes, j, item, initialPosition, position, size, k, v);
  }

  lemma TargetIs(items: seq<Item>, t: nat, id: nat)
    requires UniqueMarks(items) && t < |items| && items[t] == Mark(id)
    ensures Target(items, id) == t
  {
  }

  // Every label and fixup of a function is one of its notes.
  lemma {:induction false} NoteOf(items: seq<Item>, n: nat) returns (i: nat)
    requires n < |items| && !items[n].Ins?
    ensures i < |Notes(items)| && Notes(items)[i] == n
  {
    var m := |items| - 1;
    if n == m { i := |Notes(items)| - 1; } else { i := NoteOf(items[..m], n); }
  }

  // Every item of a module belongs to one of its functions.
  lemma {:induction false} FunctionOf(parts: seq<seq<Item>>, g: nat) returns (f: nat, n: nat)
    requires g < |Flatten(parts)|
    ensures f < |parts| && n < |parts[f]| && g == Start(parts, f) + n && Flatten(parts)[g] == parts[f][n]
  {
    var m := |parts| - 1;
    FunctionItems(parts, m);
    if g < Start(parts, m) {
      f, n := FunctionOf(parts[..m], g);
      assert parts[..m][..f] == parts[..f];
    } else {
      f, n := m, g - Start(parts, m);
    }
  }
}
