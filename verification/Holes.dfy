/** Lists of holes as values: what src/alloc/cortex_m/alloc/hole.rs means by its linked list.

    A list of holes is a canonical form of a set of free bytes (`Canonical`): two well-formed
    lists with the same free bytes are equal. Most facts about freeing and allocating follow
    from that one. */
module Holes {
  import opened Wrappers
  import opened Words

  /** The alignment of a hole header: the four bytes of a machine word on Cortex-M. The proofs
      about masks and sums hold for words of any width, and leave `Words.BITS` open. */
  const WORD: nat := 4

  /** `HoleList::min_size`: a header is a size and a pointer. */
  const MIN_SIZE: nat := 2 * WORD

  /** Address and size of a stretch of memory (`HoleInfo`). */
  datatype Hole = Hole(addr: nat, size: nat) {
    function End(): nat {
      addr + size
    }

    ghost predicate Covers(b: int) {
      addr <= b < End()
    }

    /** A stretch of [lo, hi) that may be put on the list. Only the one that touches the end
        of the region may have a size that is not a whole number of words. */
    ghost predicate Listable(lo: nat, hi: nat) {
      && lo <= addr && End() <= hi
      && addr % WORD == 0 && size >= MIN_SIZE
      && (size % WORD == 0 || End() == hi)
    }
  }

  /** Sorted by address, and a gap between any two holes. */
  ghost predicate WellFormed(hs: seq<Hole>, lo: nat, hi: nat) {
    && (forall i :: 0 <= i < |hs| ==> hs[i].Listable(lo, hi))
    && (forall i, j :: 0 <= i < j < |hs| ==> hs[i].End() < hs[j].addr)
  }

  /** Byte `b` lies in some hole. */
  ghost predicate Free(hs: seq<Hole>, b: int) {
    exists i :: 0 <= i < |hs| && hs[i].Covers(b)
  }

  /** No byte of `h` is free. */
  ghost predicate Apart(hs: seq<Hole>, h: Hole) {
    forall i :: 0 <= i < |hs| ==> hs[i].End() <= h.addr || h.End() <= hs[i].addr
  }

  function Total(hs: seq<Hole>): nat {
    if hs == [] then 0 else hs[0].size + Total(hs[1..])
  }

  lemma {:induction false} TotalAppend(xs: seq<Hole>, ys: seq<Hole>)
    ensures Total(xs + ys) == Total(xs) + Total(ys)
  {
    if xs == [] {
      assert xs + ys == ys;
    } else {
      TotalAppend(xs[1..], ys);
      assert (xs + ys)[1..] == xs[1..] + ys;
    }
  }

  // ----- canonical form -----

  ghost predicate SameBytes(xs: seq<Hole>, ys: seq<Hole>) {
    forall b: int :: Free(xs, b) <==> Free(ys, b)
  }

  /** The head of a well-formed list is determined by its free bytes: it starts at the least
      of them and ends at the first byte behind that is not free. */
  lemma {:induction false} HeadDetermined(xs: seq<Hole>, ys: seq<Hole>, lo: nat, hi: nat)
    requires WellFormed(xs, lo, hi) && WellFormed(ys, lo, hi) && SameBytes(xs, ys)
    requires xs != []
    ensures ys != [] && xs[0] == ys[0]
  {
    assert xs[0].Covers(xs[0].addr);
    assert Free(ys, xs[0].addr);
    assert ys[0].Covers(ys[0].addr);
    assert Free(xs, ys[0].addr);
    assert xs[0].addr == ys[0].addr;
    assert !Free(xs, xs[0].End()) && !Free(ys, ys[0].End());
    assert !ys[0].Covers(xs[0].End()) && !xs[0].Covers(ys[0].End());
  }

  lemma {:induction false} TailBytes(xs: seq<Hole>, lo: nat, hi: nat, b: int)
    requires WellFormed(xs, lo, hi) && xs != []
    ensures Free(xs[1..], b) <==> Free(xs, b) && xs[0].End() <= b
  {
    if i :| 0 <= i < |xs[1..]| && xs[1..][i].Covers(b) {
      assert xs[i + 1].Covers(b);
    }
    if i :| 0 <= i < |xs| && xs[i].Covers(b) {
      assert i > 0 ==> xs[1..][i - 1].Covers(b);
    }
  }

  lemma {:induction false} TailWellFormed(xs: seq<Hole>, lo: nat, hi: nat)
    requires WellFormed(xs, lo, hi) && xs != []
    ensures WellFormed(xs[1..], lo, hi)
  {
  }

  /** Well-formed lists with the same free bytes are equal. */
  lemma {:induction false} Canonical(xs: seq<Hole>, ys: seq<Hole>, lo: nat, hi: nat)
    requires WellFormed(xs, lo, hi) && WellFormed(ys, lo, hi) && SameBytes(xs, ys)
    ensures xs == ys
    decreases |xs|
  {
    if xs == [] {
      if ys != [] {
        HeadDetermined(ys, xs, lo, hi);
      }
    } else {
      HeadDetermined(xs, ys, lo, hi);
      TailWellFormed(xs, lo, hi);
      TailWellFormed(ys, lo, hi);
      forall b: int
        ensures Free(xs[1..], b) <==> Free(ys[1..], b)
      {
        TailBytes(xs, lo, hi, b);
        TailBytes(ys, lo, hi, b);
      }
      Canonical(xs[1..], ys[1..], lo, hi);
    }
  }

  // ----- replacing a stretch of the list -----

  /** The list with holes i .. j replaced by `mid`. */
  function Splice(hs: seq<Hole>, i: nat, j: nat, mid: seq<Hole>): seq<Hole>
    requires i <= j <= |hs|
  {
    hs[..i] + mid + hs[j..]
  }

  /** `mid` stays clear of the neighbours of the replaced stretch. */
  ghost predicate ClearOf(hs: seq<Hole>, i: nat, j: nat, mid: seq<Hole>)
    requires i <= j <= |hs|
  {
    forall k :: 0 <= k < |mid| ==>
      && (i > 0 ==> hs[i - 1].End() < mid[k].addr)
      && (j < |hs| ==> mid[k].End() < hs[j].addr)
  }

  lemma {:induction false} SpliceWellFormed(hs: seq<Hole>, i: nat, j: nat, mid: seq<Hole>, lo: nat, hi: nat)
    requires i <= j <= |hs| && WellFormed(hs, lo, hi) && WellFormed(mid, lo, hi) && ClearOf(hs, i, j, mid)
    ensures WellFormed(Splice(hs, i, j, mid), lo, hi)
  {
    var r := Splice(hs, i, j, mid);
    forall p, q | 0 <= p < q < |r|
      ensures r[p].End() < r[q].addr
    {
      if p < i && i <= q < i + |mid| {
        assert hs[i - 1].End() < mid[q - i].addr;
        assert p == i - 1 || hs[p].End() < hs[i - 1].addr;
      } else if i <= p < i + |mid| && i + |mid| <= q {
        assert mid[p - i].End() < hs[j].addr;
        assert q - i - |mid| + j == j || hs[j].End() < hs[q - i - |mid| + j].addr;
      }
    }
  }

  lemma {:induction false} SpliceBytes(hs: seq<Hole>, i: nat, j: nat, mid: seq<Hole>, b: int)
    requires i <= j <= |hs|
    ensures Free(Splice(hs, i, j, mid), b) <==> Free(hs[..i], b) || Free(mid, b) || Free(hs[j..], b)
    ensures Free(hs, b) <==> Free(hs[..i], b) || Free(hs[i..j], b) || Free(hs[j..], b)
  {
    var xs, ys, zs := hs[..i], hs[i..j], hs[j..];
    assert hs == xs + ys + zs;
    AppendBytes(xs, mid, b);
    AppendBytes(xs + mid, zs, b);
    AppendBytes(xs, ys, b);
    AppendBytes(xs + ys, zs, b);
  }

  lemma {:induction false} AppendBytes(xs: seq<Hole>, ys: seq<Hole>, b: int)
    ensures Free(xs + ys, b) <==> Free(xs, b) || Free(ys, b)
  {
    if i :| 0 <= i < |xs| && xs[i].Covers(b) {
      assert (xs + ys)[i].Covers(b);
    }
    if i :| 0 <= i < |ys| && ys[i].Covers(b) {
      assert (xs + ys)[|xs| + i].Covers(b);
    }
    if i :| 0 <= i < |xs + ys| && (xs + ys)[i].Covers(b) {
      assert if i < |xs| then xs[i].Covers(b) else ys[i - |xs|].Covers(b);
    }
  }

  lemma {:induction false} SpliceTotal(hs: seq<Hole>, i: nat, j: nat, mid: seq<Hole>)
    requires i <= j <= |hs|
    ensures Total(Splice(hs, i, j, mid)) == Total(hs) - Total(hs[i..j]) + Total(mid)
  {
    var xs, ys, zs := hs[..i], hs[i..j], hs[j..];
    assert hs == xs + ys + zs;
    TotalAppend(xs, mid);
    TotalAppend(xs + mid, zs);
    TotalAppend(xs, ys);
    TotalAppend(xs + ys, zs);
  }

  // ----- freeing -----

  /** The list with the block `h` given back, merged with the holes it touches. */
  function Insert(hs: seq<Hole>, h: Hole): seq<Hole>
    decreases |hs|
  {
    if hs == [] || h.End() < hs[0].addr then [h] + hs
    else if h.End() == hs[0].addr then [Hole(h.addr, h.size + hs[0].size)] + hs[1..]
    else if hs[0].End() == h.addr then Insert(hs[1..], Hole(hs[0].addr, hs[0].size + h.size))
    else [hs[0]] + Insert(hs[1..], h)
  }

  /** Freeing a block that is not free yet gives the well-formed list for the old free bytes
      and the block, and adds its size to the total. */
  lemma {:induction false} InsertMeaning(hs: seq<Hole>, h: Hole, lo: nat, hi: nat)
    requires WellFormed(hs, lo, hi) && h.Listable(lo, hi) && Apart(hs, h)
    ensures WellFormed(Insert(hs, h), lo, hi)
    ensures forall b: int :: Free(Insert(hs, h), b) <==> Free(hs, b) || h.Covers(b)
    ensures Total(Insert(hs, h)) == Total(hs) + h.size
    decreases |hs|
  {
    InsertWellFormed(hs, h, lo, hi);
    InsertTotal(hs, h);
    forall b: int
      ensures Free(Insert(hs, h), b) <==> Free(hs, b) || h.Covers(b)
    {
      InsertBytes(hs, h, b);
    }
  }

  /** A block right behind the first hole, merged with it, is apart from the other holes. */
  lemma {:induction false} MergeApart(hs: seq<Hole>, h: Hole, lo: nat, hi: nat)
    requires WellFormed(hs, lo, hi) && h.Listable(lo, hi) && Apart(hs, h) && hs != [] && hs[0].End() == h.addr
    ensures Apart(hs[1..], Hole(hs[0].addr, hs[0].size + h.size))
    ensures Hole(hs[0].addr, hs[0].size + h.size).Listable(lo, hi)
  {
    var m := Hole(hs[0].addr, hs[0].size + h.size);
    var tail := hs[1..];
    forall i | 0 <= i < |tail|
      ensures m.End() <= tail[i].addr
    {
      assert hs[0].End() < hs[i + 1].addr;
    }
  }

  lemma {:induction false} InsertHead(hs: seq<Hole>, h: Hole, lo: nat, hi: nat)
    requires WellFormed(hs, lo, hi) && h.Listable(lo, hi) && Apart(hs, h)
    ensures Insert(hs, h) != []
    ensures Insert(hs, h)[0].addr == if hs != [] && hs[0].addr < h.addr then hs[0].addr else h.addr
    decreases |hs|
  {
    if hs != [] && hs[0].End() == h.addr {
      TailWellFormed(hs, lo, hi);
      MergeApart(hs, h, lo, hi);
      InsertHead(hs[1..], Hole(hs[0].addr, hs[0].size + h.size), lo, hi);
    }
  }

  lemma {:induction false} InsertWellFormed(hs: seq<Hole>, h: Hole, lo: nat, hi: nat)
    requires WellFormed(hs, lo, hi) && h.Listable(lo, hi) && Apart(hs, h)
    ensures WellFormed(Insert(hs, h), lo, hi)
    decreases |hs|
  {
    if hs == [] || h.End() < hs[0].addr {
      ConsWellFormed(h, hs, lo, hi);
    } else if h.End() == hs[0].addr {
      MergeNext(hs, h, lo, hi);
    } else if hs[0].End() == h.addr {
      TailWellFormed(hs, lo, hi);
      MergeApart(hs, h, lo, hi);
      InsertWellFormed(hs[1..], Hole(hs[0].addr, hs[0].size + h.size), lo, hi);
    } else {
      TailWellFormed(hs, lo, hi);
      assert Apart(hs[1..], h);
      InsertWellFormed(hs[1..], h, lo, hi);
      InsertBehind(hs, h, lo, hi);
    }
  }

  /** A block right before the first hole, merged with it. */
  lemma {:induction false} MergeNext(hs: seq<Hole>, h: Hole, lo: nat, hi: nat)
    requires WellFormed(hs, lo, hi) && h.Listable(lo, hi) && hs != [] && h.End() == hs[0].addr
    ensures WellFormed([Hole(h.addr, h.size + hs[0].size)] + hs[1..], lo, hi)
  {
    TailWellFormed(hs, lo, hi);
    assert |hs| > 1 ==> hs[0].End() < hs[1].addr;
    ConsWellFormed(Hole(h.addr, h.size + hs[0].size), hs[1..], lo, hi);
  }

  /** The first hole stays in front of a list that a block behind it was inserted into. */
  lemma {:induction false} InsertBehind(hs: seq<Hole>, h: Hole, lo: nat, hi: nat)
    requires WellFormed(hs, lo, hi) && h.Listable(lo, hi) && Apart(hs, h)
    requires hs != [] && hs[0].End() < h.addr && WellFormed(Insert(hs[1..], h), lo, hi)
    ensures WellFormed([hs[0]] + Insert(hs[1..], h), lo, hi)
  {
    assert Apart(hs[1..], h);
    InsertHead(hs[1..], h, lo, hi);
    assert |hs| > 1 ==> hs[0].End() < hs[1].addr;
    ConsWellFormed(hs[0], Insert(hs[1..], h), lo, hi);
  }

  lemma {:induction false} ConsWellFormed(h: Hole, hs: seq<Hole>, lo: nat, hi: nat)
    requires WellFormed(hs, lo, hi) && h.Listable(lo, hi) && (hs == [] || h.End() < hs[0].addr)
    ensures WellFormed([h] + hs, lo, hi)
  {
    assert ClearOf(hs, 0, 0, [h]);
    SpliceWellFormed(hs, 0, 0, [h], lo, hi);
    assert Splice(hs, 0, 0, [h]) == [h] + hs;
  }

  lemma {:induction false} ConsBytes(h: Hole, hs: seq<Hole>, b: int)
    ensures Free([h] + hs, b) <==> h.Covers(b) || Free(hs, b)
  {
    AppendBytes([h], hs, b);
    assert h.Covers(b) ==> [h][0].Covers(b);
  }

  lemma {:induction false} InsertBytes(hs: seq<Hole>, h: Hole, b: int)
    ensures Free(Insert(hs, h), b) <==> Free(hs, b) || h.Covers(b)
    decreases |hs|
  {
    if hs == [] || h.End() < hs[0].addr {
      ConsBytes(h, hs, b);
    } else {
      ConsBytes(hs[0], hs[1..], b);
      assert hs == [hs[0]] + hs[1..];
      if h.End() == hs[0].addr {
        ConsBytes(Hole(h.addr, h.size + hs[0].size), hs[1..], b);
      } else if hs[0].End() == h.addr {
        InsertBytes(hs[1..], Hole(hs[0].addr, hs[0].size + h.size), b);
      } else {
        InsertBytes(hs[1..], h, b);
        ConsBytes(hs[0], Insert(hs[1..], h), b);
      }
    }
  }

  lemma {:induction false} InsertTotal(hs: seq<Hole>, h: Hole)
    ensures Total(Insert(hs, h)) == Total(hs) + h.size
    decreases |hs|
  {
    if hs != [] && h.End() >= hs[0].addr {
      if h.End() != hs[0].addr && hs[0].End() == h.addr {
        InsertTotal(hs[1..], Hole(hs[0].addr, hs[0].size + h.size));
      } else if h.End() != hs[0].addr {
        InsertTotal(hs[1..], h);
      }
    }
  }

  /** Frees commute: the list does not depend on the order in which two blocks came back. */
  lemma {:induction false} FreesCommute(hs: seq<Hole>, g: Hole, h: Hole, lo: nat, hi: nat)
    requires WellFormed(hs, lo, hi) && g.Listable(lo, hi) && h.Listable(lo, hi)
    requires Apart(hs, g) && Apart(hs, h) && Apart([g], h)
    ensures Insert(Insert(hs, g), h) == Insert(Insert(hs, h), g)
  {
    assert [g][0] == g && [h][0] == h;
    ApartAfterInsert(hs, g, h, lo, hi);
    ApartAfterInsert(hs, h, g, lo, hi);
    InsertWellFormed(hs, g, lo, hi);
    InsertWellFormed(hs, h, lo, hi);
    InsertWellFormed(Insert(hs, g), h, lo, hi);
    InsertWellFormed(Insert(hs, h), g, lo, hi);
    forall b: int
      ensures Free(Insert(Insert(hs, g), h), b) <==> Free(Insert(Insert(hs, h), g), b)
    {
      InsertBytes(hs, g, b);
      InsertBytes(hs, h, b);
      InsertBytes(Insert(hs, g), h, b);
      InsertBytes(Insert(hs, h), g, b);
    }
    Canonical(Insert(Insert(hs, g), h), Insert(Insert(hs, h), g), lo, hi);
  }

  /** A block apart from the list and from a freed block is apart from the new list. */
  lemma {:induction false} ApartAfterInsert(hs: seq<Hole>, g: Hole, h: Hole, lo: nat, hi: nat)
    requires WellFormed(hs, lo, hi) && g.Listable(lo, hi) && h.size > 0
    requires Apart(hs, g) && Apart(hs, h) && Apart([g], h)
    ensures Apart(Insert(hs, g), h)
  {
    InsertWellFormed(hs, g, lo, hi);
    forall b: int | h.Covers(b)
      ensures !Free(Insert(hs, g), b)
    {
      InsertBytes(hs, g, b);
      assert [g][0] == g;
    }
    ApartByBytes(Insert(hs, g), h, lo, hi);
  }

  /** A stretch is apart from a list when none of its bytes is free. */
  lemma {:induction false} ApartByBytes(hs: seq<Hole>, h: Hole, lo: nat, hi: nat)
    requires WellFormed(hs, lo, hi)
    requires h.size > 0
    requires forall b: int :: h.Covers(b) ==> !Free(hs, b)
    ensures Apart(hs, h)
  {
    forall i | 0 <= i < |hs|
      ensures hs[i].End() <= h.addr || h.End() <= hs[i].addr
    {
      var b := if hs[i].addr <= h.addr then h.addr else hs[i].addr;
      assert hs[i].Covers(b) ==> Free(hs, b);
      assert !h.Covers(b) || !hs[i].Covers(b);
    }
  }
}
