/** Splitting a hole and first-fit search, as values: `split_hole` and the search of
    `allocate_first_fit` in src/alloc/cortex_m/alloc/hole.rs. */
module FirstFit {
  import opened Wrappers
  import opened Words
  import opened Layouts
  import opened Holes

  datatype Allocation = Allocation(info: Hole, front: Option<Hole>, back: Option<Hole>)

  /** `None` when the hole is unusable for the layout. */
  function SplitHole(hole: Hole, layout: Layout): Option<Allocation>
    requires layout.align > 0
  {
    if hole.addr == RoundUp(hole.addr, layout.align) then SplitFrom(hole, layout.size, hole.addr, None)
    else
      var alignedAddr := RoundUp(hole.addr + MIN_SIZE, layout.align);
      RoundUpBounds(hole.addr + MIN_SIZE, layout.align);
      SplitFrom(hole, layout.size, alignedAddr, Some(Hole(hole.addr, alignedAddr - hole.addr)))
  }

  /** The second half of `split_hole`: the aligned hole and the back padding. */
  function SplitFrom(hole: Hole, size: nat, alignedAddr: nat, front: Option<Hole>): Option<Allocation>
    requires hole.addr <= alignedAddr
  {
    if alignedAddr + size > hole.End() then None
    else
      var alignedSize := hole.size - (alignedAddr - hole.addr);
      if alignedSize == size then Some(Allocation(Hole(alignedAddr, size), front, None))
      else if alignedSize - size < MIN_SIZE then None
      else Some(Allocation(Hole(alignedAddr, size), front, Some(Hole(alignedAddr + size, alignedSize - size))))
  }

  /** A leftover is no hole at all, or large enough for a header. */
  ghost predicate Leftover(n: int) {
    n == 0 || n >= MIN_SIZE
  }

  /** The layout may be placed at `p` in the hole: aligned, inside, with proper leftovers. */
  ghost predicate Fits(hole: Hole, layout: Layout, p: int)
    requires layout.align > 0
  {
    && Multiple(p, layout.align)
    && hole.addr <= p && p + layout.size <= hole.End()
    && Leftover(p - hole.addr) && Leftover(hole.End() - (p + layout.size))
  }

  /** What the heap passes down: a power-of-two alignment, and a size that is a whole number
      of words and holds a header. */
  ghost predicate Rounded(layout: Layout) {
    IsPowerOfTwo(layout.align) && layout.align > 0 && layout.size >= MIN_SIZE && layout.size % WORD == 0
  }

  /** The paddings around the block, in address order. */
  function Paddings(a: Allocation): seq<Hole> {
    match (a.front, a.back)
    case (Some(f), Some(b)) => [f, b]
    case (Some(f), None) => [f]
    case (None, Some(b)) => [b]
    case (None, None) => []
  }

  // ----- one hole -----

  lemma {:induction false} SmallPowers()
    ensures Pow2(0) == 1 && Pow2(1) == 2 && Pow2(2) == 4 && Pow2(3) == 8
  {
    assert Pow2(1) == 2 * Pow2(0);
    assert Pow2(2) == 2 * Pow2(1);
    assert Pow2(3) == 2 * Pow2(2);
  }

  /** A power of two that does not divide a word-aligned address is a multiple of the
      header size. */
  lemma {:induction false} CoarseAlignment(addr: nat, align: usize)
    requires IsPowerOfTwo(align) && align > 0 && addr % WORD == 0
    ensures Multiple(addr, align) || Multiple(align, MIN_SIZE)
  {
    var k := Exponent(align);
    SmallPowers();
    if k <= 2 {
      Pow2Multiple(k, 2);
      MultipleTrans(addr, WORD, align);
    } else {
      Pow2Multiple(3, k);
    }
  }

  lemma {:induction false} AtLeastDivisor(a: nat, n: nat)
    requires n > 0 && a > 0 && Multiple(a, n)
    ensures a >= n
  {
    if a < n {
      SmallMultiple(a, n);
    }
  }

  /** The address `SplitHole` tries. */
  function Candidate(hole: Hole, layout: Layout): nat
    requires layout.align > 0
  {
    if hole.addr == RoundUp(hole.addr, layout.align) then hole.addr
    else RoundUp(hole.addr + MIN_SIZE, layout.align)
  }

  /** The candidate is word-aligned, and leaves no front padding or one with room for a header. */
  lemma {:induction false} CandidateAligned(hole: Hole, layout: Layout)
    requires Rounded(layout) && hole.addr % WORD == 0
    ensures Multiple(Candidate(hole, layout), layout.align) && Candidate(hole, layout) % WORD == 0
    ensures if hole.addr == RoundUp(hole.addr, layout.align) then Candidate(hole, layout) == hole.addr
            else Multiple(layout.align, MIN_SIZE) && Candidate(hole, layout) >= hole.addr + MIN_SIZE
  {
    CoarseAlignment(hole.addr, layout.align);
    RoundUpSame(hole.addr, layout.align);
    if !Multiple(hole.addr, layout.align) {
      CoarseRound(hole.addr + MIN_SIZE, layout.align);
    }
  }

  lemma {:induction false} CoarseRound(a: nat, align: nat)
    requires align > 0 && Multiple(align, MIN_SIZE)
    ensures Multiple(RoundUp(a, align), align) && RoundUp(a, align) % WORD == 0 && RoundUp(a, align) >= a
  {
    RoundUpBounds(a, align);
    MultipleTrans(RoundUp(a, align), align, MIN_SIZE);
  }

  /** One candidate suffices: it is at or below every fitting address, and between it and the
      next fitting address there is room for a header. */
  lemma {:induction false} CandidateLeast(hole: Hole, layout: Layout, p: int)
    requires Rounded(layout) && hole.addr % WORD == 0 && Fits(hole, layout, p)
    ensures Candidate(hole, layout) <= p && Leftover(p - Candidate(hole, layout))
  {
    var c := Candidate(hole, layout);
    CandidateAligned(hole, layout);
    if c != hole.addr {
      assert p != hole.addr by { if p == hole.addr { RoundUpFixed(hole.addr, layout.align); } }
      RoundUpLeast(hole.addr + MIN_SIZE, layout.align, p);
      AtLeastDivisor(layout.align, MIN_SIZE);
      if c < p {
        MultipleGap(c, p, layout.align);
      }
    }
  }

  /** The outcome of splitting at a given address. */
  function SplitAt(hole: Hole, size: nat, p: nat): Option<Allocation>
    requires hole.addr <= p
  {
    if p + size > hole.End() then None
    else if 0 < hole.End() - (p + size) < MIN_SIZE then None
    else
      Some(Allocation(Hole(p, size),
                      if p == hole.addr then None else Some(Hole(hole.addr, p - hole.addr)),
                      if p + size == hole.End() then None else Some(Hole(p + size, hole.End() - (p + size)))))
  }

  lemma {:induction false} SplitIsSplitAt(hole: Hole, layout: Layout)
    requires Rounded(layout) && hole.addr % WORD == 0
    ensures Candidate(hole, layout) >= hole.addr
    ensures SplitHole(hole, layout) == SplitAt(hole, layout.size, Candidate(hole, layout))
  {
    CandidateAligned(hole, layout);
    SplitFromIsSplitAt(hole, layout.size, Candidate(hole, layout));
  }

  lemma {:induction false} SplitFromIsSplitAt(hole: Hole, size: nat, p: nat)
    requires hole.addr <= p
    ensures SplitFrom(hole, size, p, if p == hole.addr then None else Some(Hole(hole.addr, p - hole.addr))) ==
            SplitAt(hole, size, p)
  {
  }

  /** `split_hole` finds the least fitting address, and fails only when there is none. */
  lemma {:induction false} SplitComplete(hole: Hole, layout: Layout)
    requires Rounded(layout) && hole.addr % WORD == 0
    ensures SplitHole(hole, layout).None? <==> forall p: int :: !Fits(hole, layout, p)
    ensures SplitHole(hole, layout).Some? ==>
              var p := SplitHole(hole, layout).value.info.addr;
              Fits(hole, layout, p) && forall q: int :: Fits(hole, layout, q) ==> p <= q
  {
    SplitIsSplitAt(hole, layout);
    forall q: int | Fits(hole, layout, q)
      ensures SplitHole(hole, layout).Some? && Candidate(hole, layout) <= q
    {
      CandidateLeast(hole, layout, q);
    }
    CandidateAligned(hole, layout);
    if SplitHole(hole, layout).Some? {
      assert Fits(hole, layout, Candidate(hole, layout));
    }
  }

  /** The paddings and the block tile the hole, in address order. */
  ghost predicate Tiles(a: Allocation, hole: Hole) {
    && (if a.front.Some? then a.front.value.addr == hole.addr && a.front.value.End() == a.info.addr
        else a.info.addr == hole.addr)
    && (if a.back.Some? then a.back.value.addr == a.info.End() && a.back.value.End() == hole.End()
        else a.info.End() == hole.End())
  }

  lemma {:induction false} SplitTiles(hole: Hole, layout: Layout, lo: nat, hi: nat)
    requires Rounded(layout) && hole.Listable(lo, hi) && SplitHole(hole, layout).Some?
    ensures var a := SplitHole(hole, layout).value;
            && a.info.Listable(lo, hi) && a.info.size == layout.size && Multiple(a.info.addr, layout.align)
            && WellFormed(Paddings(a), lo, hi)
            && Tiles(a, hole)
            && Total(Paddings(a)) + layout.size == hole.size
  {
    CandidateAligned(hole, layout);
    SplitIsSplitAt(hole, layout);
    SplitAtTiles(hole, layout.size, Candidate(hole, layout), lo, hi);
  }

  lemma {:induction false} SplitAtTiles(hole: Hole, size: nat, p: nat, lo: nat, hi: nat)
    requires hole.Listable(lo, hi) && p % WORD == 0 && size % WORD == 0 && size >= MIN_SIZE
    requires p == hole.addr || p >= hole.addr + MIN_SIZE
    requires SplitAt(hole, size, p).Some?
    ensures var a := SplitAt(hole, size, p).value;
            && a.info == Hole(p, size) && a.info.Listable(lo, hi)
            && WellFormed(Paddings(a), lo, hi)
            && Tiles(a, hole)
            && Total(Paddings(a)) + size == hole.size
  {
    var a := SplitAt(hole, size, p).value;
    SplitAtListable(hole, size, p, lo, hi);
    PaddingsTotal(a);
    PaddingsListable(a, lo, hi);
  }

  lemma {:induction false} SplitAtListable(hole: Hole, size: nat, p: nat, lo: nat, hi: nat)
    requires hole.Listable(lo, hi) && p % WORD == 0 && size % WORD == 0 && size >= MIN_SIZE
    requires p == hole.addr || p >= hole.addr + MIN_SIZE
    requires SplitAt(hole, size, p).Some?
    ensures var a := SplitAt(hole, size, p).value;
            && a.info.Listable(lo, hi)
            && (a.front.Some? ==> a.front.value.Listable(lo, hi))
            && (a.back.Some? ==> a.back.value.Listable(lo, hi))
  {
    WordsAdd(p, size);
    if p > hole.addr {
      PieceListable(hole, hole.addr, p, lo, hi);
    }
    PieceListable(hole, p, p + size, lo, hi);
    if p + size < hole.End() {
      PieceListable(hole, p + size, hole.End(), lo, hi);
    }
  }

  /** A piece of a hole, cut at words. */
  lemma {:induction false} PieceListable(hole: Hole, a: nat, b: nat, lo: nat, hi: nat)
    requires hole.Listable(lo, hi) && hole.addr <= a && a + MIN_SIZE <= b <= hole.End()
    requires a % WORD == 0 && (b % WORD == 0 || b == hole.End())
    ensures Hole(a, b - a).Listable(lo, hi)
  {
    if b % WORD == 0 {
      WordsSubtract(b, a);
    }
  }

  lemma {:induction false} WordsAdd(a: nat, b: nat)
    requires a % WORD == 0 && b % WORD == 0
    ensures (a + b) % WORD == 0
  {
  }

  lemma {:induction false} WordsSubtract(b: nat, a: nat)
    requires a % WORD == 0 && b % WORD == 0 && a <= b
    ensures (b - a) % WORD == 0
  {
  }

  lemma {:induction false} PaddingsListable(a: Allocation, lo: nat, hi: nat)
    requires a.front.Some? ==> a.front.value.Listable(lo, hi)
    requires a.back.Some? ==> a.back.value.Listable(lo, hi)
    requires a.front.Some? && a.back.Some? ==> a.front.value.End() < a.back.value.addr
    ensures WellFormed(Paddings(a), lo, hi)
  {
  }

  lemma {:induction false} PaddingsTotal(a: Allocation)
    ensures Total(Paddings(a)) ==
            (if a.front.Some? then a.front.value.size else 0) + (if a.back.Some? then a.back.value.size else 0)
  {
    match (a.front, a.back)
    case (Some(f), Some(b)) => assert [f, b][1..] == [b]; assert Total([b]) == b.size;
    case (Some(f), None) => assert Total([f]) == f.size;
    case (None, Some(b)) => assert Total([b]) == b.size;
    case (None, None) =>
  }

  lemma {:induction false} PaddingsBytes(a: Allocation, c: int)
    ensures Free(Paddings(a), c) <==>
            (a.front.Some? && a.front.value.Covers(c)) || (a.back.Some? && a.back.value.Covers(c))
  {
    var ps := Paddings(a);
    assert a.front.Some? ==> ps[0] == a.front.value;
    assert a.back.Some? ==> ps[|ps| - 1] == a.back.value;
  }

  // ----- machine arithmetic -----

  datatype Overflow = Overflow

  /** `split_hole` on usize, with masks and with every sum checked. */
  function SplitHoleWords(hole: Hole, layout: Layout): Result<Option<Allocation>, Overflow>
    requires hole.End() <= USIZE_MAX
  {
    match AlignUp(hole.addr, layout.align)
    case None => Err(Overflow)
    case Some(up) =>
      if hole.addr == up then SplitFromWords(hole, layout.size, hole.addr, None)
      else if hole.addr + MIN_SIZE > USIZE_MAX then Err(Overflow) else
      match AlignUp(hole.addr + MIN_SIZE, layout.align)
      case None => Err(Overflow)
      case Some(alignedAddr) =>
        if alignedAddr < hole.addr then Err(Overflow)
        else SplitFromWords(hole, layout.size, alignedAddr, Some(Hole(hole.addr, alignedAddr - hole.addr)))
  }

  function SplitFromWords(hole: Hole, size: usize, alignedAddr: usize, front: Option<Hole>)
    : Result<Option<Allocation>, Overflow>
    requires hole.End() <= USIZE_MAX && hole.addr <= alignedAddr
  {
    match CheckedAdd(alignedAddr, size)
    case None => Err(Overflow)
    case Some(end) =>
      if end > hole.End() then Ok(None)
      else
        var alignedSize := hole.size - (alignedAddr - hole.addr);
        if alignedSize == size then Ok(Some(Allocation(Hole(alignedAddr, size), front, None)))
        else if alignedSize - size < MIN_SIZE then Ok(None)
        else Ok(Some(Allocation(Hole(alignedAddr, size), front, Some(Hole(end, alignedSize - size)))))
  }

  /** One of the sums that `split_hole` comes to does not fit a word. */
  predicate Overflows(hole: Hole, layout: Layout)
    requires layout.align > 0
  {
    || hole.addr + layout.align > USIZE_MAX
    || (hole.addr != RoundUp(hole.addr, layout.align) && hole.addr + MIN_SIZE + layout.align > USIZE_MAX)
    || Candidate(hole, layout) + layout.size > USIZE_MAX
  }

  /** For every hole in memory the machine arithmetic fails exactly when one of three sums
      overflows; otherwise the masks compute what the model computes. */
  lemma {:induction false} SplitWordsExact(hole: Hole, layout: Layout)
    requires hole.End() <= USIZE_MAX && IsPowerOfTwo(layout.align) && layout.align > 0
    ensures SplitHoleWords(hole, layout).Err? <==> Overflows(hole, layout)
    ensures SplitHoleWords(hole, layout).Ok? ==> SplitHoleWords(hole, layout) == Ok(SplitHole(hole, layout))
  {
    if hole.addr + layout.align <= USIZE_MAX {
      AlignUpRounds(hole.addr, layout.align);
      if hole.addr == RoundUp(hole.addr, layout.align) {
        SplitFromExact(hole, layout.size, hole.addr, None);
      } else if hole.addr + MIN_SIZE + layout.align <= USIZE_MAX {
        AlignUpRounds(hole.addr + MIN_SIZE, layout.align);
        RoundUpBounds(hole.addr + MIN_SIZE, layout.align);
        var alignedAddr := RoundUp(hole.addr + MIN_SIZE, layout.align);
        SplitFromExact(hole, layout.size, alignedAddr, Some(Hole(hole.addr, alignedAddr - hole.addr)));
      }
    }
  }

  lemma {:induction false} SplitFromExact(hole: Hole, size: usize, alignedAddr: usize, front: Option<Hole>)
    requires hole.End() <= USIZE_MAX && hole.addr <= alignedAddr
    ensures SplitFromWords(hole, size, alignedAddr, front) ==
            if alignedAddr + size > USIZE_MAX then Err(Overflow) else Ok(SplitFrom(hole, size, alignedAddr, front))
  {
  }

  // ----- the whole list -----

  /** The position of the first usable hole. */
  function FirstUsable(hs: seq<Hole>, layout: Layout): (k: Option<nat>)
    requires layout.align > 0
    ensures k.Some? ==> k.value < |hs| && SplitHole(hs[k.value], layout).Some?
                        && forall i :: 0 <= i < k.value ==> SplitHole(hs[i], layout).None?
    ensures k.None? ==> forall i :: 0 <= i < |hs| ==> SplitHole(hs[i], layout).None?
  {
    if hs == [] then None
    else if SplitHole(hs[0], layout).Some? then Some(0)
    else
      match FirstUsable(hs[1..], layout)
      case None => None
      case Some(k) => Some(k + 1)
  }

  /** None of the first n holes is usable. */
  ghost predicate Unusable(hs: seq<Hole>, layout: Layout, n: nat)
    requires layout.align > 0
  {
    n <= |hs| && forall i :: 0 <= i < n ==> SplitHole(hs[i], layout).None?
  }

  /** The two ways the search ends, and the way it goes on. */
  lemma {:induction false} FirstUsableIs(hs: seq<Hole>, layout: Layout, n: nat)
    requires layout.align > 0 && Unusable(hs, layout, n)
    ensures n == |hs| ==> FirstUsable(hs, layout) == None
    ensures n < |hs| && SplitHole(hs[n], layout).Some? ==> FirstUsable(hs, layout) == Some(n)
    ensures n < |hs| && SplitHole(hs[n], layout).None? ==> Unusable(hs, layout, n + 1)
  {
    match FirstUsable(hs, layout)
    case None =>
    case Some(k) =>
      if k < n {
        assert false;
      } else if n < k {
        assert SplitHole(hs[n], layout).None?;
      }
  }

  /** The block first fit hands out. */
  function Chosen(hs: seq<Hole>, layout: Layout): Option<Hole>
    requires layout.align > 0
  {
    match FirstUsable(hs, layout)
    case None => None
    case Some(k) => Some(SplitHole(hs[k], layout).value.info)
  }

  /** The list afterwards: the chosen hole is replaced by its paddings. */
  function Taken(hs: seq<Hole>, layout: Layout): seq<Hole>
    requires layout.align > 0
  {
    match FirstUsable(hs, layout)
    case None => hs
    case Some(k) => Splice(hs, k, k + 1, Paddings(SplitHole(hs[k], layout).value))
  }

  /** First fit is complete and lowest-address: it fails exactly when no hole admits any
      placement, and otherwise takes the least placement there is in any hole. */
  lemma {:induction false} FirstFitLowest(hs: seq<Hole>, layout: Layout, lo: nat, hi: nat)
    requires Rounded(layout) && WellFormed(hs, lo, hi)
    ensures Chosen(hs, layout).None? <==> forall i, p: int :: 0 <= i < |hs| ==> !Fits(hs[i], layout, p)
    ensures Chosen(hs, layout).Some? ==>
              var b := Chosen(hs, layout).value;
              && b.size == layout.size
              && (exists i :: 0 <= i < |hs| && Fits(hs[i], layout, b.addr))
              && (forall i, p: int :: 0 <= i < |hs| && Fits(hs[i], layout, p) ==> b.addr <= p)
  {
    forall i | 0 <= i < |hs|
      ensures SplitHole(hs[i], layout).None? <==> forall p: int :: !Fits(hs[i], layout, p)
    {
      SplitComplete(hs[i], layout);
    }
    var k := FirstUsable(hs, layout);
    if k.Some? {
      SplitComplete(hs[k.value], layout);
      var b := Chosen(hs, layout).value;
      assert Fits(hs[k.value], layout, b.addr);
      forall i, p: int | 0 <= i < |hs| && Fits(hs[i], layout, p)
        ensures b.addr <= p
      {
        assert i > k.value ==> hs[k.value].End() < hs[i].addr;
      }
    }
  }

  /** Taking a block removes exactly its bytes, and keeps the list well-formed: the paddings
      never touch a neighbour because no two holes do. */
  lemma {:induction false} TakenMeaning(hs: seq<Hole>, layout: Layout, lo: nat, hi: nat)
    requires Rounded(layout) && WellFormed(hs, lo, hi) && Chosen(hs, layout).Some?
    ensures var b := Chosen(hs, layout).value;
            && b.Listable(lo, hi) && b.size == layout.size && Multiple(b.addr, layout.align)
            && WellFormed(Taken(hs, layout), lo, hi)
            && (forall c: int :: b.Covers(c) ==> Free(hs, c))
            && (forall c: int :: Free(Taken(hs, layout), c) <==> Free(hs, c) && !b.Covers(c))
            && Total(Taken(hs, layout)) + layout.size == Total(hs)
            && Apart(Taken(hs, layout), b)
  {
    var k := FirstUsable(hs, layout).value;
    var a := SplitHole(hs[k], layout).value;
    SplitTiles(hs[k], layout, lo, hi);
    ReplacedList(hs, k, a, lo, hi);
    forall c: int
      ensures a.info.Covers(c) ==> Free(hs, c)
      ensures Free(Taken(hs, layout), c) <==> Free(hs, c) && !a.info.Covers(c)
    {
      TakenBytes(hs, layout, lo, hi, c);
    }
    ApartByBytes(Taken(hs, layout), a.info, lo, hi);
  }

  /** The paddings stay clear of the neighbours because the hole they came from does. */
  lemma {:induction false} PaddingsClear(hs: seq<Hole>, k: nat, a: Allocation, lo: nat, hi: nat)
    requires WellFormed(hs, lo, hi) && k < |hs| && Tiles(a, hs[k]) && WellFormed(Paddings(a), lo, hi)
    ensures ClearOf(hs, k, k + 1, Paddings(a))
  {
    assert k > 0 ==> hs[k - 1].End() < hs[k].addr;
    assert k + 1 < |hs| ==> hs[k].End() < hs[k + 1].addr;
    assert a.front.Some? ==> Paddings(a)[0] == a.front.value;
    assert a.back.Some? ==> Paddings(a)[|Paddings(a)| - 1] == a.back.value;
  }

  lemma {:induction false} ReplacedList(hs: seq<Hole>, k: nat, a: Allocation, lo: nat, hi: nat)
    requires WellFormed(hs, lo, hi) && k < |hs| && Tiles(a, hs[k]) && WellFormed(Paddings(a), lo, hi)
    ensures WellFormed(Splice(hs, k, k + 1, Paddings(a)), lo, hi)
    ensures Total(Splice(hs, k, k + 1, Paddings(a))) == Total(hs) - hs[k].size + Total(Paddings(a))
  {
    PaddingsClear(hs, k, a, lo, hi);
    SpliceWellFormed(hs, k, k + 1, Paddings(a), lo, hi);
    SpliceTotal(hs, k, k + 1, Paddings(a));
    assert hs[k..k + 1] == [hs[k]];
    assert Total([hs[k]]) == hs[k].size;
  }

  lemma {:induction false} TakenBytes(hs: seq<Hole>, layout: Layout, lo: nat, hi: nat, c: int)
    requires Rounded(layout) && WellFormed(hs, lo, hi) && Chosen(hs, layout).Some?
    ensures Chosen(hs, layout).value.Covers(c) ==> Free(hs, c)
    ensures Free(Taken(hs, layout), c) <==> Free(hs, c) && !Chosen(hs, layout).value.Covers(c)
  {
    var k := FirstUsable(hs, layout).value;
    SplitTiles(hs[k], layout, lo, hi);
    ReplacedBytes(hs, k, SplitHole(hs[k], layout).value, lo, hi, c);
  }

  lemma {:induction false} ReplacedBytes(hs: seq<Hole>, k: nat, a: Allocation, lo: nat, hi: nat, c: int)
    requires WellFormed(hs, lo, hi) && k < |hs| && Tiles(a, hs[k])
    ensures a.info.Covers(c) ==> Free(hs, c)
    ensures Free(Splice(hs, k, k + 1, Paddings(a)), c) <==> Free(hs, c) && !a.info.Covers(c)
  {
    SpliceBytes(hs, k, k + 1, Paddings(a), c);
    OneHoleBytes(hs, k, c);
    PaddingsBytes(a, c);
    if hs[k].Covers(c) {
      RestApart(hs, k, lo, hi, c);
    }
  }

  lemma {:induction false} OneHoleBytes(hs: seq<Hole>, k: nat, c: int)
    requires k < |hs|
    ensures Free(hs[k..k + 1], c) <==> hs[k].Covers(c)
  {
    assert hs[k..k + 1] == [hs[k]];
    assert [hs[k]][0] == hs[k];
  }

  /** The holes around hole `k` share no byte with it. */
  lemma {:induction false} RestApart(hs: seq<Hole>, k: nat, lo: nat, hi: nat, c: int)
    requires k < |hs| && WellFormed(hs, lo, hi) && hs[k].Covers(c)
    ensures !Free(hs[..k], c) && !Free(hs[k + 1..], c)
  {
    forall i | 0 <= i < k
      ensures !hs[..k][i].Covers(c)
    {
      assert hs[i].End() < hs[k].addr;
    }
    var after := hs[k + 1..];
    forall i | 0 <= i < |after|
      ensures !after[i].Covers(c)
    {
      assert hs[k].End() < hs[k + 1 + i].addr;
    }
  }

  /** Giving a block straight back restores exactly the list it was taken from. */
  lemma {:induction false} TakeThenInsert(hs: seq<Hole>, layout: Layout, lo: nat, hi: nat)
    requires Rounded(layout) && WellFormed(hs, lo, hi) && Chosen(hs, layout).Some?
    ensures Insert(Taken(hs, layout), Chosen(hs, layout).value) == hs
  {
    TakenMeaning(hs, layout, lo, hi);
    var b := Chosen(hs, layout).value;
    InsertMeaning(Taken(hs, layout), b, lo, hi);
    Canonical(Insert(Taken(hs, layout), b), hs, lo, hi);
  }
}
