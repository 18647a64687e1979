/** How list edits and block-by-block freeing agree. The in-place code edits the list at a
    cursor; these lemmas show each edit to be `Insert` or a step towards it. */
module Refree {
  import opened Wrappers
  import opened Words
  import opened Layouts
  import opened Holes
  import opened FirstFit

  /** An edit whose new hole covers the freed block and the holes it replaces is `Insert`. */
  lemma {:induction false} EditIsInsert(hs: seq<Hole>, i: nat, j: nat, m: Hole, h: Hole, lo: nat, hi: nat)
    requires WellFormed(hs, lo, hi) && h.Listable(lo, hi) && m.Listable(lo, hi) && Apart(hs, h)
    requires i <= j <= |hs| && ClearOf(hs, i, j, [m])
    requires forall b: int :: m.Covers(b) <==> h.Covers(b) || Free(hs[i..j], b)
    ensures Splice(hs, i, j, [m]) == Insert(hs, h)
  {
    SpliceWellFormed(hs, i, j, [m], lo, hi);
    InsertWellFormed(hs, h, lo, hi);
    forall b: int
      ensures Free(Splice(hs, i, j, [m]), b) <==> Free(Insert(hs, h), b)
    {
      SpliceBytes(hs, i, j, [m], b);
      InsertBytes(hs, h, b);
      assert Free([m], b) <==> m.Covers(b) by { assert [m][0] == m; }
    }
    Canonical(Splice(hs, i, j, [m]), Insert(hs, h), lo, hi);
  }

  lemma {:induction false} TwoHoleBytes(hs: seq<Hole>, k: nat, c: int)
    requires k + 1 < |hs|
    ensures Free(hs[k..k + 2], c) <==> hs[k].Covers(c) || hs[k + 1].Covers(c)
  {
    assert hs[k..k + 2] == [hs[k]] + [hs[k + 1]];
    AppendBytes([hs[k]], [hs[k + 1]], c);
    assert [hs[k]][0] == hs[k] && [hs[k + 1]][0] == hs[k + 1];
  }

  /** The hole that fills a gap covers the block and both neighbours, ... */
  lemma {:induction false} GapBytes(hs: seq<Hole>, n: nat, h: Hole, b: int)
    requires 0 < n < |hs| && hs[n - 1].End() == h.addr && h.End() == hs[n].addr
    ensures Hole(hs[n - 1].addr, hs[n - 1].size + h.size + hs[n].size).Covers(b) <==>
            h.Covers(b) || Free(hs[n - 1..n + 1], b)
  {
    TwoHoleBytes(hs, n - 1, b);
  }

  /** ... and fits where they were. */
  lemma {:induction false} GapFits(hs: seq<Hole>, n: nat, h: Hole, lo: nat, hi: nat)
    requires WellFormed(hs, lo, hi) && h.Listable(lo, hi) && 0 < n < |hs|
    requires hs[n - 1].End() == h.addr && h.End() == hs[n].addr
    ensures var m := Hole(hs[n - 1].addr, hs[n - 1].size + h.size + hs[n].size);
            m.Listable(lo, hi) && ClearOf(hs, n - 1, n + 1, [m])
  {
    assert n > 1 ==> hs[n - 2].End() < hs[n - 1].addr;
    assert n + 1 < |hs| ==> hs[n].End() < hs[n + 1].addr;
    assert hs[n - 1].size % WORD == 0 && h.size % WORD == 0;
  }

  /** The block closes the gap between two holes. */
  lemma {:induction false} GapFilled(hs: seq<Hole>, n: nat, h: Hole, lo: nat, hi: nat)
    requires WellFormed(hs, lo, hi) && h.Listable(lo, hi) && Apart(hs, h) && 0 < n < |hs|
    requires hs[n - 1].End() == h.addr && h.End() == hs[n].addr
    ensures Splice(hs, n - 1, n + 1, [Hole(hs[n - 1].addr, hs[n - 1].size + h.size + hs[n].size)]) == Insert(hs, h)
  {
    var m := Hole(hs[n - 1].addr, hs[n - 1].size + h.size + hs[n].size);
    forall b: int
      ensures m.Covers(b) <==> h.Covers(b) || Free(hs[n - 1..n + 1], b)
    {
      GapBytes(hs, n, h, b);
    }
    GapFits(hs, n, h, lo, hi);
    EditIsInsert(hs, n - 1, n + 1, m, h, lo, hi);
  }

  /** The block lies right behind hole n - 1 and does not reach the next hole. */
  lemma {:induction false} HoleExtended(hs: seq<Hole>, n: nat, h: Hole, lo: nat, hi: nat)
    requires WellFormed(hs, lo, hi) && h.Listable(lo, hi) && Apart(hs, h) && 0 < n <= |hs|
    requires hs[n - 1].End() == h.addr && (n < |hs| ==> h.End() < hs[n].addr)
    ensures Splice(hs, n - 1, n, [Hole(hs[n - 1].addr, hs[n - 1].size + h.size)]) == Insert(hs, h)
  {
    var m := Hole(hs[n - 1].addr, hs[n - 1].size + h.size);
    forall b: int
      ensures m.Covers(b) <==> h.Covers(b) || Free(hs[n - 1..n], b)
    {
      OneHoleBytes(hs, n - 1, b);
    }
    assert ClearOf(hs, n - 1, n, [m]);
    EditIsInsert(hs, n - 1, n, m, h, lo, hi);
  }

  /** The block touches neither neighbour. */
  lemma {:induction false} HoleAdded(hs: seq<Hole>, n: nat, h: Hole, lo: nat, hi: nat)
    requires WellFormed(hs, lo, hi) && h.Listable(lo, hi) && Apart(hs, h) && n <= |hs|
    requires (n > 0 ==> hs[n - 1].End() < h.addr) && (n < |hs| ==> h.End() < hs[n].addr)
    ensures Splice(hs, n, n, [h]) == Insert(hs, h)
  {
    assert hs[n..n] == [];
    assert ClearOf(hs, n, n, [h]);
    EditIsInsert(hs, n, n, h, h, lo, hi);
  }

  /** Removing hole n keeps the list well-formed, and removes exactly its bytes. */
  lemma {:induction false} RemoveOne(hs: seq<Hole>, n: nat, lo: nat, hi: nat)
    requires WellFormed(hs, lo, hi) && n < |hs|
    ensures WellFormed(Splice(hs, n, n + 1, []), lo, hi)
    ensures forall b: int :: Free(Splice(hs, n, n + 1, []), b) <==> Free(hs, b) && !hs[n].Covers(b)
  {
    SpliceWellFormed(hs, n, n + 1, [], lo, hi);
    forall b: int
      ensures Free(Splice(hs, n, n + 1, []), b) <==> Free(hs, b) && !hs[n].Covers(b)
    {
      SpliceBytes(hs, n, n + 1, [], b);
      OneHoleBytes(hs, n, b);
      if hs[n].Covers(b) {
        RestApart(hs, n, lo, hi, b);
      }
    }
  }

  /** A block right before hole n: removing that hole and freeing both together is freeing
      the block. */
  lemma {:induction false} AbsorbNext(hs: seq<Hole>, n: nat, h: Hole, lo: nat, hi: nat)
    requires WellFormed(hs, lo, hi) && h.Listable(lo, hi) && Apart(hs, h) && n < |hs| && h.End() == hs[n].addr
    ensures var rest := Splice(hs, n, n + 1, []);
            var m := Hole(h.addr, h.size + hs[n].size);
            && WellFormed(rest, lo, hi) && m.Listable(lo, hi) && Apart(rest, m)
            && Insert(rest, m) == Insert(hs, h)
  {
    var rest := Splice(hs, n, n + 1, []);
    var m := Hole(h.addr, h.size + hs[n].size);
    RemoveOne(hs, n, lo, hi);
    forall b: int | m.Covers(b)
      ensures !Free(rest, b)
    {
      if h.Covers(b) {
        ApartBytes(hs, h, b);
      }
    }
    ApartByBytes(rest, m, lo, hi);
    InsertWellFormed(rest, m, lo, hi);
    InsertWellFormed(hs, h, lo, hi);
    forall b: int
      ensures Free(Insert(rest, m), b) <==> Free(Insert(hs, h), b)
    {
      InsertBytes(rest, m, b);
      InsertBytes(hs, h, b);
      assert hs[n].Covers(b) ==> Free(hs, b);
    }
    Canonical(Insert(rest, m), Insert(hs, h), lo, hi);
  }

  lemma {:induction false} ApartBytes(hs: seq<Hole>, h: Hole, b: int)
    requires Apart(hs, h) && h.Covers(b)
    ensures !Free(hs, b)
  {
  }

  // ----- re-freeing the paddings of an allocation -----

  /** What is left to free of the paddings once the hole itself is off the list. */
  function Refreed(hs: seq<Hole>, k: nat, a: Allocation): seq<Hole>
    requires k < |hs|
  {
    var rest := Splice(hs, k, k + 1, []);
    var front := if a.front.Some? then Insert(rest, a.front.value) else rest;
    if a.back.Some? then Insert(front, a.back.value) else front
  }

  /** The front padding, and then the back padding, may be freed, ... */
  lemma {:induction false} PaddingsFreeable(hs: seq<Hole>, k: nat, a: Allocation, lo: nat, hi: nat)
    requires WellFormed(hs, lo, hi) && k < |hs| && Tiles(a, hs[k]) && WellFormed(Paddings(a), lo, hi) && a.info.size > 0
    ensures var rest := Splice(hs, k, k + 1, []);
            && WellFormed(rest, lo, hi)
            && (a.front.Some? ==> a.front.value.Listable(lo, hi) && Apart(rest, a.front.value))
            && (a.back.Some? ==>
                  var front := if a.front.Some? then Insert(rest, a.front.value) else rest;
                  a.back.value.Listable(lo, hi) && Apart(front, a.back.value) && WellFormed(front, lo, hi))
  {
    var rest := Splice(hs, k, k + 1, []);
    RemoveOne(hs, k, lo, hi);
    assert a.front.Some? ==> Paddings(a)[0] == a.front.value;
    assert a.back.Some? ==> Paddings(a)[|Paddings(a)| - 1] == a.back.value;
    if a.front.Some? {
      PartApart(hs, k, a.front.value, lo, hi);
      InsertWellFormed(rest, a.front.value, lo, hi);
    }
    if a.back.Some? {
      PartApart(hs, k, a.back.value, lo, hi);
      if a.front.Some? {
        assert [a.front.value][0] == a.front.value;
        ApartAfterInsert(rest, a.front.value, a.back.value, lo, hi);
      }
    }
  }

  /** A part of a removed hole is apart from the rest. */
  lemma {:induction false} PartApart(hs: seq<Hole>, k: nat, h: Hole, lo: nat, hi: nat)
    requires WellFormed(hs, lo, hi) && k < |hs| && h.size > 0 && hs[k].addr <= h.addr && h.End() <= hs[k].End()
    ensures Apart(Splice(hs, k, k + 1, []), h)
  {
    RemoveOne(hs, k, lo, hi);
    ApartByBytes(Splice(hs, k, k + 1, []), h, lo, hi);
  }

  /** ... and freeing them merges with no neighbour: it puts exactly the paddings in the
      place of the hole. */
  lemma {:induction false} RefreedIsReplaced(hs: seq<Hole>, k: nat, a: Allocation, lo: nat, hi: nat)
    requires WellFormed(hs, lo, hi) && k < |hs| && Tiles(a, hs[k]) && WellFormed(Paddings(a), lo, hi) && a.info.size > 0
    ensures Refreed(hs, k, a) == Splice(hs, k, k + 1, Paddings(a))
  {
    var rest := Splice(hs, k, k + 1, []);
    var front := if a.front.Some? then Insert(rest, a.front.value) else rest;
    PaddingsFreeable(hs, k, a, lo, hi);
    if a.front.Some? {
      InsertWellFormed(rest, a.front.value, lo, hi);
    }
    if a.back.Some? {
      InsertWellFormed(front, a.back.value, lo, hi);
    }
    ReplacedList(hs, k, a, lo, hi);
    forall b: int
      ensures Free(Refreed(hs, k, a), b) <==> Free(Splice(hs, k, k + 1, Paddings(a)), b)
    {
      RefreedBytes(hs, k, a, lo, hi, b);
      ReplacedBytes(hs, k, a, lo, hi, b);
    }
    Canonical(Refreed(hs, k, a), Splice(hs, k, k + 1, Paddings(a)), lo, hi);
  }

  lemma {:induction false} RefreedBytes(hs: seq<Hole>, k: nat, a: Allocation, lo: nat, hi: nat, b: int)
    requires WellFormed(hs, lo, hi) && k < |hs| && Tiles(a, hs[k])
    ensures Free(Refreed(hs, k, a), b) <==> Free(hs, b) && !a.info.Covers(b)
  {
    var rest := Splice(hs, k, k + 1, []);
    var front := if a.front.Some? then Insert(rest, a.front.value) else rest;
    RemoveOne(hs, k, lo, hi);
    if a.front.Some? {
      InsertBytes(rest, a.front.value, b);
    }
    if a.back.Some? {
      InsertBytes(front, a.back.value, b);
    }
    assert hs[k].Covers(b) ==> Free(hs, b);
  }
}
