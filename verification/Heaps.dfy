/** The heap of src/alloc/cortex_m/alloc/mod.rs: runs of allocations and legal frees.

    `State` is what the heap is after a run, as a value; the class below does the same in
    memory, and its methods are proved to take the steps of `State`. */
module Heaps {
  import opened Wrappers
  import opened Words
  import opened Layouts
  import opened Holes
  import opened FirstFit
  import opened Chains
  import opened HoleLists

  // ----- rounding a request -----

  /** `Heap::align_layout`: at least a header, and whole words. `Err` stands for its panic. */
  function AlignLayout(layout: Layout): Result<Layout, LayoutErr> {
    var size := if layout.size < MIN_SIZE then MIN_SIZE else layout.size;
    if size > USIZE_MAX || WORD > USIZE_MAX then Err(LayoutErr) else
    match AlignUp(size, WORD)
    case None => Err(LayoutErr)
    case Some(rounded) => FromSizeAlign(rounded, layout.align)
  }

  function AtLeastHeader(size: nat): nat {
    if size < MIN_SIZE then MIN_SIZE else size
  }

  /** The size a request really takes. */
  function RoundedSize(size: nat): nat {
    RoundUp(AtLeastHeader(size), WORD)
  }

  /** `align_layout` keeps the alignment and rounds the size; it panics exactly where a sum does not
      fit a word, or the rounded size has no layout. */
  lemma {:induction false} AlignLayoutExact(layout: Layout)
    requires layout.Valid()
    ensures AlignLayout(layout).Ok? <==>
              && AtLeastHeader(layout.size) + WORD <= USIZE_MAX
              && RoundUp(RoundedSize(layout.size), layout.align) <= USIZE_MAX
    ensures AlignLayout(layout).Ok? ==>
              var r := AlignLayout(layout).value;
              r.size == RoundedSize(layout.size) && r.align == layout.align && r.Valid() && Rounded(r)
  {
    WordIsPower();
    if AtLeastHeader(layout.size) + WORD <= USIZE_MAX {
      AlignUpRounds(AtLeastHeader(layout.size), WORD);
      RoundUpBounds(AtLeastHeader(layout.size), WORD);
      FromSizeAlignExact(RoundedSize(layout.size), layout.align);
      PowerOfTwoMeaning(layout.align);
    }
  }

  /** It takes the least whole number of words that is no less than a header and the request. */
  lemma {:induction false} AlignLayoutLeast(layout: Layout)
    requires layout.Valid() && AlignLayout(layout).Ok?
    ensures var r := AlignLayout(layout).value;
            && r.align == layout.align
            && r.size >= layout.size && r.size >= MIN_SIZE && r.size % WORD == 0
            && forall m: int :: m >= layout.size && m >= MIN_SIZE && m % WORD == 0 ==> r.size <= m
  {
    AlignLayoutExact(layout);
    RoundedLeast(layout.size);
  }

  /** The rounded size is the least whole number of words that holds a header and the request. */
  lemma {:induction false} RoundedLeast(size: nat)
    ensures RoundedSize(size) >= size && RoundedSize(size) >= MIN_SIZE && RoundedSize(size) % WORD == 0
    ensures forall m: int :: m >= size && m >= MIN_SIZE && m % WORD == 0 ==> RoundedSize(size) <= m
  {
    RoundUpBounds(AtLeastHeader(size), WORD);
    forall m: int | m >= size && m >= MIN_SIZE && m % WORD == 0
      ensures RoundedSize(size) <= m
    {
      RoundUpLeast(AtLeastHeader(size), WORD, m);
    }
  }

  lemma {:induction false} WordIsPower()
    ensures MIN_SIZE <= USIZE_MAX && IsPowerOfTwo(WORD)
  {
    SmallPowers();
    Pow2Monotone(4, BITS);
    assert Pow2(4) == 2 * Pow2(3);
    Pow2HasOneOne(BITS, 2);
  }

  // ----- runs -----

  /** A live block: its address, and the layout it was requested with. */
  datatype Block = Block(addr: nat, layout: Layout) {
    function Range(): Hole {
      Hole(addr, RoundedSize(layout.size))
    }
  }

  datatype State = State(holes: seq<Hole>, used: int, live: seq<Block>)

  /** A request, or a legal free: of a live block, with its own layout. */
  datatype Op = Allocate(layout: Layout) | Release(i: nat)

  /** Requests carry valid layouts. */
  ghost predicate Legal(op: Op) {
    op.Allocate? ==> op.layout.Valid()
  }

  function Without<T>(xs: seq<T>, i: nat): seq<T>
    requires i < |xs|
  {
    xs[..i] + xs[i + 1..]
  }

  /** A request that panics in rounding, or finds no hole, changes nothing. */
  function AllocateStep(s: State, layout: Layout): State {
    match AlignLayout(layout)
    case Err(_) => s
    case Ok(aligned) =>
      if aligned.align == 0 then s else
      match Chosen(s.holes, aligned)
      case None => s
      case Some(b) => State(Taken(s.holes, aligned), s.used + aligned.size, s.live + [Block(b.addr, layout)])
  }

  function ReleaseStep(s: State, i: nat): State {
    if i >= |s.live| then s
    else State(Insert(s.holes, s.live[i].Range()), s.used - s.live[i].Range().size, Without(s.live, i))
  }

  function Step(s: State, op: Op): State {
    match op
    case Allocate(layout) => AllocateStep(s, layout)
    case Release(i) => ReleaseStep(s, i)
  }

  function Run(s: State, ops: seq<Op>): State
    decreases |ops|
  {
    if ops == [] then s else Run(Step(s, ops[0]), ops[1..])
  }

  function LiveTotal(live: seq<Block>): nat {
    if live == [] then 0 else live[0].Range().size + LiveTotal(live[1..])
  }

  ghost predicate Live(live: seq<Block>, b: int) {
    exists i :: 0 <= i < |live| && live[i].Range().Covers(b)
  }

  /** In the region, and aligned as requested. */
  ghost predicate Placed(b: Block, lo: nat, hi: nat) {
    && b.layout.Valid() && AlignLayout(b.layout).Ok?
    && b.Range().Listable(lo, hi)
    && Multiple(b.addr, b.layout.align)
  }

  ghost predicate Disjoint(g: Hole, h: Hole) {
    g.End() <= h.addr || h.End() <= g.addr
  }

  ghost predicate AllPlaced(s: State, lo: nat, hi: nat) {
    forall i :: 0 <= i < |s.live| ==> Placed(s.live[i], lo, hi) && Apart(s.holes, s.live[i].Range())
  }

  ghost predicate PairwiseDisjoint(live: seq<Block>) {
    forall i, j :: 0 <= i < j < |live| ==> Disjoint(live[i].Range(), live[j].Range())
  }

  ghost predicate Tiled(s: State, lo: nat, hi: nat) {
    forall b: int :: lo <= b < hi ==> Free(s.holes, b) || Live(s.live, b)
  }

  /** What every run keeps: sorted and coalesced holes; aligned live blocks, disjoint from one
      another and from the holes; every byte of the region free or live; and the counters. */
  ghost predicate Inv(s: State, lo: nat, hi: nat) {
    && lo <= hi
    && WellFormed(s.holes, lo, hi)
    && AllPlaced(s, lo, hi)
    && PairwiseDisjoint(s.live)
    && Tiled(s, lo, hi)
    && s.used == LiveTotal(s.live)
    && Total(s.holes) + s.used == hi - lo
  }

  lemma {:induction false} LiveTotalAppend(xs: seq<Block>, ys: seq<Block>)
    ensures LiveTotal(xs + ys) == LiveTotal(xs) + LiveTotal(ys)
  {
    if xs == [] {
      assert xs + ys == ys;
    } else {
      LiveTotalAppend(xs[1..], ys);
      assert (xs + ys)[1..] == xs[1..] + ys;
    }
  }

  lemma {:induction false} LiveTotalWithout(live: seq<Block>, i: nat)
    requires i < |live|
    ensures LiveTotal(Without(live, i)) == LiveTotal(live) - live[i].Range().size
  {
    LiveTotalAppend(live[..i], live[i + 1..]);
    LiveTotalAppend(live[..i], [live[i]] + live[i + 1..]);
    assert live == live[..i] + ([live[i]] + live[i + 1..]);
    assert ([live[i]] + live[i + 1..])[1..] == live[i + 1..];
  }

  lemma {:induction false} LiveWithout(live: seq<Block>, i: nat, b: int)
    requires i < |live|
    ensures Live(live, b) ==> Live(Without(live, i), b) || live[i].Range().Covers(b)
  {
    if j :| 0 <= j < |live| && live[j].Range().Covers(b) {
      var r := Without(live, i);
      assert j < i ==> r[j] == live[j];
      assert j > i ==> r[j - 1] == live[j];
    }
  }

  /** An allocation keeps the invariant. */
  lemma {:induction false} AllocateKeeps(s: State, layout: Layout, lo: nat, hi: nat)
    requires Inv(s, lo, hi) && Legal(Allocate(layout))
    ensures Inv(AllocateStep(s, layout), lo, hi)
  {
    AlignLayoutExact(layout);
    if AlignLayout(layout).Ok? && Chosen(s.holes, AlignLayout(layout).value).Some? {
      var aligned := AlignLayout(layout).value;
      TakenMeaning(s.holes, aligned, lo, hi);
      BlockAdded(s, Block(Chosen(s.holes, aligned).value.addr, layout), Taken(s.holes, aligned), lo, hi);
    }
  }

  /** A block that was free, and whose bytes alone left the list. */
  lemma {:induction false} BlockAdded(s: State, block: Block, taken: seq<Hole>, lo: nat, hi: nat)
    requires Inv(s, lo, hi) && WellFormed(taken, lo, hi) && Placed(block, lo, hi) && Apart(taken, block.Range())
    requires forall c: int :: block.Range().Covers(c) ==> Free(s.holes, c)
    requires forall c: int :: Free(taken, c) <==> Free(s.holes, c) && !block.Range().Covers(c)
    requires Total(taken) + block.Range().size == Total(s.holes)
    ensures Inv(State(taken, s.used + block.Range().size, s.live + [block]), lo, hi)
  {
    var s' := State(taken, s.used + block.Range().size, s.live + [block]);
    LiveTotalAppend(s.live, [block]);
    assert LiveTotal([block]) == block.Range().size;
    forall i | 0 <= i < |s.live|
      ensures Apart(taken, s.live[i].Range()) && Disjoint(s.live[i].Range(), block.Range())
    {
      LiveKept(s.holes, taken, s.live[i].Range(), block.Range(), lo, hi);
    }
    forall c: int | lo <= c < hi
      ensures Free(s'.holes, c) || Live(s'.live, c)
    {
      LiveAppend(s.live, block, c);
    }
  }

  lemma {:induction false} LiveAppend(live: seq<Block>, block: Block, c: int)
    ensures Live(live + [block], c) <==> Live(live, c) || block.Range().Covers(c)
  {
    var r := live + [block];
    assert r[|live|] == block;
    assert forall i :: 0 <= i < |live| ==> r[i] == live[i];
  }

  /** A live block stays apart from the holes, and from a block taken from them. */
  lemma {:induction false} LiveKept(holes: seq<Hole>, taken: seq<Hole>, live: Hole, b: Hole, lo: nat, hi: nat)
    requires WellFormed(taken, lo, hi) && Apart(holes, live) && live.size > 0 && b.size > 0
    requires forall c: int :: b.Covers(c) ==> Free(holes, c)
    requires forall c: int :: Free(taken, c) ==> Free(holes, c)
    ensures Apart(taken, live) && Disjoint(live, b)
  {
    assert forall c: int :: live.Covers(c) ==> !Free(holes, c);
    ApartByBytes(taken, live, lo, hi);
    var c := if live.addr <= b.addr then b.addr else live.addr;
    assert b.Covers(c) ==> !live.Covers(c);
  }

  /** A legal free keeps the invariant. */
  lemma {:induction false} ReleaseKeeps(s: State, i: nat, lo: nat, hi: nat)
    requires Inv(s, lo, hi) && i < |s.live|
    ensures Inv(ReleaseStep(s, i), lo, hi)
  {
    var s' := ReleaseStep(s, i);
    InsertMeaning(s.holes, s.live[i].Range(), lo, hi);
    LiveTotalWithout(s.live, i);
    StillPlaced(s, i, lo, hi);
    forall c: int | lo <= c < hi
      ensures Free(s'.holes, c) || Live(s'.live, c)
    {
      if Live(s.live, c) {
        LiveWithout(s.live, i, c);
      }
    }
  }

  lemma {:induction false} StillPlaced(s: State, i: nat, lo: nat, hi: nat)
    requires WellFormed(s.holes, lo, hi) && AllPlaced(s, lo, hi) && PairwiseDisjoint(s.live) && i < |s.live|
    ensures AllPlaced(ReleaseStep(s, i), lo, hi) && PairwiseDisjoint(ReleaseStep(s, i).live)
  {
    var s' := ReleaseStep(s, i);
    var h := s.live[i].Range();
    forall j | 0 <= j < |s'.live|
      ensures Placed(s'.live[j], lo, hi) && Apart(s'.holes, s'.live[j].Range())
    {
      var k := if j < i then j else j + 1;
      assert s'.live[j] == s.live[k];
      assert Disjoint(h, s.live[k].Range());
      assert [h][0] == h;
      ApartAfterInsert(s.holes, h, s.live[k].Range(), lo, hi);
    }
  }

  lemma {:induction false} StepKeeps(s: State, op: Op, lo: nat, hi: nat)
    requires Inv(s, lo, hi) && Legal(op)
    ensures Inv(Step(s, op), lo, hi)
  {
    match op
    case Allocate(layout) => AllocateKeeps(s, layout, lo, hi);
    case Release(i) =>
      if i < |s.live| {
        ReleaseKeeps(s, i, lo, hi);
      }
  }

  /** Every run of allocations and legal frees keeps the invariant. */
  lemma {:induction false} RunKeeps(s: State, ops: seq<Op>, lo: nat, hi: nat)
    requires Inv(s, lo, hi) && forall k :: 0 <= k < |ops| ==> Legal(ops[k])
    ensures Inv(Run(s, ops), lo, hi)
    decreases |ops|
  {
    if ops != [] {
      StepKeeps(s, ops[0], lo, hi);
      RunKeeps(Step(s, ops[0]), ops[1..], lo, hi);
    }
  }

  // ----- what the invariant says of whole runs -----

  /** The heap before its first request: one hole, which is the whole region. */
  function Initial(lo: nat, hi: nat): State
    requires lo <= hi
  {
    State([Hole(lo, hi - lo)], 0, [])
  }

  lemma {:induction false} InitialInv(lo: nat, hi: nat)
    requires lo % WORD == 0 && lo + MIN_SIZE <= hi
    ensures Inv(Initial(lo, hi), lo, hi)
  {
    var s := Initial(lo, hi);
    assert Total(s.holes) == hi - lo;
    forall b: int | lo <= b < hi
      ensures Free(s.holes, b)
    {
      assert s.holes[0].Covers(b);
    }
  }

  /** The check of `Heap::new` is made before the start is aligned, and is too weak: eight
      bytes at address 1 pass it, but the header written at address 4 does not fit them. */
  lemma {:induction false} StartMisfit()
    ensures 8 >= MIN_SIZE && RoundUp(1, WORD) + MIN_SIZE > 1 + 8
  {
    DivModUnique(1, WORD, 0, 1);
    DivModUnique(3, WORD, 0, 3);
  }

  /** What callers were promised: the bytes they asked for lie in the region, aligned as they
      asked, in no hole, and are nobody else's. */
  ghost predicate Served(s: State, lo: nat, hi: nat) {
    && (forall i :: 0 <= i < |s.live| ==> Granted(s.holes, s.live[i].addr, s.live[i].layout, lo, hi))
    && (forall i, j :: 0 <= i < j < |s.live| ==> Separate(s.live[i], s.live[j]))
  }

  ghost predicate Granted(holes: seq<Hole>, ptr: nat, layout: Layout, lo: nat, hi: nat) {
    && lo <= ptr && ptr + layout.size <= hi
    && layout.align > 0 && Multiple(ptr, layout.align)
    && forall c: int :: ptr <= c < ptr + layout.size ==> !Free(holes, c)
  }

  ghost predicate Separate(a: Block, b: Block) {
    a.addr + a.layout.size <= b.addr || b.addr + b.layout.size <= a.addr
  }

  lemma {:induction false} AllServed(s: State, lo: nat, hi: nat)
    requires Inv(s, lo, hi)
    ensures Served(s, lo, hi)
  {
    forall i | 0 <= i < |s.live|
      ensures Granted(s.holes, s.live[i].addr, s.live[i].layout, lo, hi)
      ensures s.live[i].Range().End() >= s.live[i].addr + s.live[i].layout.size
    {
      assert Placed(s.live[i], lo, hi) && Apart(s.holes, s.live[i].Range());
      RoundedLeast(s.live[i].layout.size);
    }
    forall i, j | 0 <= i < j < |s.live|
      ensures Separate(s.live[i], s.live[j])
    {
      assert Disjoint(s.live[i].Range(), s.live[j].Range());
    }
  }

  /** Every run serves its callers. */
  lemma {:induction false} RunServes(s: State, ops: seq<Op>, lo: nat, hi: nat)
    requires Inv(s, lo, hi) && forall k :: 0 <= k < |ops| ==> Legal(ops[k])
    ensures Served(Run(s, ops), lo, hi)
  {
    RunKeeps(s, ops, lo, hi);
    AllServed(Run(s, ops), lo, hi);
  }

  /** No byte belongs to two live blocks. */
  lemma {:induction false} OneOwner(s: State, lo: nat, hi: nat, i: nat, j: nat, b: int)
    requires Inv(s, lo, hi) && i < |s.live| && j < |s.live|
    requires s.live[i].Range().Covers(b) && s.live[j].Range().Covers(b)
    ensures i == j
  {
  }

  /** Every byte of the region is free, or belongs to exactly one live block, and never both. */
  lemma {:induction false} FreeOrLive(s: State, lo: nat, hi: nat, b: int)
    requires Inv(s, lo, hi)
    ensures lo <= b < hi ==> (Free(s.holes, b) <==> !Live(s.live, b))
    ensures Free(s.holes, b) || Live(s.live, b) ==> lo <= b < hi
    ensures forall i, j | 0 <= i < |s.live| && 0 <= j < |s.live|
                          && s.live[i].Range().Covers(b) && s.live[j].Range().Covers(b) :: i == j
  {
    forall i, j | 0 <= i < |s.live| && 0 <= j < |s.live|
                  && s.live[i].Range().Covers(b) && s.live[j].Range().Covers(b)
      ensures i == j
    {
      OneOwner(s, lo, hi, i, j, b);
    }
    forall i, j | 0 <= i < |s.holes| && 0 <= j < |s.live|
      ensures !(s.holes[i].Covers(b) && s.live[j].Range().Covers(b))
    {
      assert Apart(s.holes, s.live[j].Range());
    }
  }

  /** The hole list depends only on which bytes are live, not on the run that led there. */
  lemma {:induction false} HistoryForgotten(s: State, t: State, lo: nat, hi: nat)
    requires Inv(s, lo, hi) && Inv(t, lo, hi)
    requires forall b: int :: Live(s.live, b) <==> Live(t.live, b)
    ensures s.holes == t.holes && s.used == t.used
  {
    forall b: int
      ensures Free(s.holes, b) <==> Free(t.holes, b)
    {
      FreeOrLive(s, lo, hi, b);
      FreeOrLive(t, lo, hi, b);
    }
    Canonical(s.holes, t.holes, lo, hi);
  }

  /** Whatever the run, and in whatever order the blocks came back: once all are back, the
      heap is the single hole it started as. */
  lemma {:induction false} AllReleased(ops: seq<Op>, lo: nat, hi: nat)
    requires lo % WORD == 0 && lo + MIN_SIZE <= hi && forall k :: 0 <= k < |ops| ==> Legal(ops[k])
    requires Run(Initial(lo, hi), ops).live == []
    ensures Run(Initial(lo, hi), ops) == Initial(lo, hi)
  {
    InitialInv(lo, hi);
    RunKeeps(Initial(lo, hi), ops, lo, hi);
    HistoryForgotten(Run(Initial(lo, hi), ops), Initial(lo, hi), lo, hi);
  }

  /** Conservation, over every run: hole sizes and `used` add up to the region, and `used` is
      the sum of the rounded sizes of the live blocks, so it never underflows. */
  lemma {:induction false} Conservation(ops: seq<Op>, lo: nat, hi: nat)
    requires lo % WORD == 0 && lo + MIN_SIZE <= hi && forall k :: 0 <= k < |ops| ==> Legal(ops[k])
    ensures var s := Run(Initial(lo, hi), ops);
            Total(s.holes) + s.used == hi - lo && s.used == LiveTotal(s.live) && 0 <= s.used <= hi - lo
  {
    InitialInv(lo, hi);
    RunKeeps(Initial(lo, hi), ops, lo, hi);
  }

  /** Releasing a block straight after its allocation restores the state exactly. */
  lemma {:induction false} AllocateThenRelease(s: State, layout: Layout, lo: nat, hi: nat)
    requires Inv(s, lo, hi) && Legal(Allocate(layout))
    requires |AllocateStep(s, layout).live| > |s.live|
    ensures ReleaseStep(AllocateStep(s, layout), |s.live|) == s
  {
    AlignLayoutExact(layout);
    var aligned := AlignLayout(layout).value;
    var b := Chosen(s.holes, aligned).value;
    var s' := AllocateStep(s, layout);
    TakenMeaning(s.holes, aligned, lo, hi);
    TakeThenInsert(s.holes, aligned, lo, hi);
    assert s'.live[|s.live|].Range() == b;
    assert Without(s'.live, |s.live|) == s.live;
  }

  /** Two releases commute. */
  lemma {:induction false} ReleasesCommute(s: State, i: nat, j: nat, lo: nat, hi: nat)
    requires Inv(s, lo, hi) && i < j < |s.live|
    ensures ReleaseStep(ReleaseStep(s, i), j - 1) == ReleaseStep(ReleaseStep(s, j), i)
  {
    var g, h := s.live[i].Range(), s.live[j].Range();
    assert Placed(s.live[i], lo, hi) && Placed(s.live[j], lo, hi);
    assert Disjoint(g, h);
    assert [g][0] == g;
    FreesCommute(s.holes, g, h, lo, hi);
    WithoutTwice(s.live, i, j);
  }

  lemma {:induction false} WithoutTwice<T>(xs: seq<T>, i: nat, j: nat)
    requires i < j < |xs|
    ensures Without(xs, i)[j - 1] == xs[j] && Without(xs, j)[i] == xs[i]
    ensures Without(Without(xs, i), j - 1) == Without(Without(xs, j), i)
  {
  }

  /** A request fails exactly when no hole admits an aligned placement of its rounded size
      with proper leftovers. Otherwise the block is at the lowest such address. */
  lemma {:induction false} RequestComplete(s: State, layout: Layout, lo: nat, hi: nat)
    requires Inv(s, lo, hi) && Legal(Allocate(layout)) && AlignLayout(layout).Ok?
    ensures var aligned := Layout(AlignLayout(layout).value.size, layout.align);
            && AlignLayout(layout).value == aligned && aligned.size == RoundedSize(layout.size)
            && (AllocateStep(s, layout) == s <==>
                forall i, p: int :: 0 <= i < |s.holes| ==> !Fits(s.holes[i], aligned, p))
            && (AllocateStep(s, layout) != s ==>
                  var b := AllocateStep(s, layout).live[|s.live|];
                  && b.layout == layout
                  && (exists i :: 0 <= i < |s.holes| && Fits(s.holes[i], aligned, b.addr))
                  && (forall i, p: int :: 0 <= i < |s.holes| && Fits(s.holes[i], aligned, p) ==> b.addr <= p))
  {
    AlignLayoutExact(layout);
    var aligned := AlignLayout(layout).value;
    FirstFitLowest(s.holes, aligned, lo, hi);
    if Chosen(s.holes, aligned).Some? {
      assert |AllocateStep(s, layout).live| == |s.live| + 1;
    }
  }

  // ----- the heap in memory -----

  /** Every word of every live block is as it was. */
  ghost predicate SameContents(live: seq<Block>, before: seq<nat>, after: seq<nat>) {
    forall i :: 0 <= i < |live| ==> SameRange(live[i].Range(), before, after)
  }

  ghost predicate SameRange(h: Hole, before: seq<nat>, after: seq<nat>) {
    h.End() <= |before| && h.End() <= |after| && after[h.addr..h.End()] == before[h.addr..h.End()]
  }

  /** Writes to free words leave the contents of all live blocks alone. */
  lemma {:induction false} ContentsKept(s: State, lo: nat, hi: nat, before: seq<nat>, after: seq<nat>)
    requires WellFormed(s.holes, lo, hi) && AllPlaced(s, lo, hi)
             && hi <= |before| && OnlyFreeChanged(before, after, s.holes)
    ensures SameContents(s.live, before, after)
  {
    forall i | 0 <= i < |s.live|
      ensures SameRange(s.live[i].Range(), before, after)
    {
      assert Placed(s.live[i], lo, hi);
      LiveUnchanged(before, after, s.holes, s.live[i].Range());
    }
  }

  /** The allocation step, from what the hole list does. */
  lemma {:induction false} AllocateUnfold(
    s: State, layout: Layout, aligned: Layout, found: Option<nat>, holes: seq<Hole>)
    requires layout.Valid() && AlignLayout(layout) == Ok(aligned) && aligned.align > 0
    requires holes == Taken(s.holes, aligned)
    requires match Chosen(s.holes, aligned) case None => found == None case Some(b) => found == Some(b.addr)
    ensures var s' := AllocateStep(s, layout);
            && s'.holes == holes
            && s'.used == s.used + (if found.Some? then aligned.size else 0)
            && s'.live == if found.Some? then s.live + [Block(found.value, layout)] else s.live
  {
  }

  lemma {:induction false} ReleaseUnfold(s: State, i: nat, lo: nat, hi: nat)
    requires AllPlaced(s, lo, hi) && i < |s.live|
    ensures AlignLayout(s.live[i].layout).Ok? && AlignLayout(s.live[i].layout).value.size == s.live[i].Range().size
    ensures s.live[i].Range().Listable(lo, hi) && Apart(s.holes, s.live[i].Range())
    ensures s.used == LiveTotal(s.live) ==> s.used >= s.live[i].Range().size
  {
    assert Placed(s.live[i], lo, hi);
    AlignLayoutExact(s.live[i].layout);
    LiveTotalWithout(s.live, i);
  }

  /** A pointer, `Err(())`, or the panic of `align_layout`. */
  datatype Outcome = Allocated(ptr: nat) | NoSpace | Panicked

  class Heap {
    var bottom: nat
    var size: nat
    var used: nat
    var holes: HoleList
    ghost var state: State  // what the run so far has led to

    /** The bytes that the first alignment cut off; the empty heap has lost none. */
    function Loss(): int
      reads this
    {
      if size == 0 then 0 else RoundUp(bottom, WORD) - bottom
    }

    ghost predicate Valid()
      reads this, holes, holes.mem
    {
      && holes.Valid()
      && state.holes == holes.holes && state.used == used
      && Inv(state, holes.lo, holes.hi)
      && size == holes.hi - holes.lo + Loss()
      && (size > 0 ==> holes.lo == RoundUp(bottom, WORD))
    }

    /** `Heap::new`. Memory too small for a header gives the empty heap. Otherwise the heap is
        valid exactly when the memory still holds a header after its start was aligned, which
        the source does not check. */
    constructor New(memory: array<nat>, heapBottom: nat, heapSize: nat)
      requires 0 < heapBottom && heapBottom + heapSize <= memory.Length
               && RoundUp(heapBottom, WORD) + WORD < memory.Length
      modifies memory
      ensures fresh(this) && fresh(holes) && holes.mem == memory
      ensures heapSize < MIN_SIZE ==> Valid() && state == State([], 0, []) && size == 0
      ensures heapSize >= MIN_SIZE ==>
                && (Valid() <==> heapSize >= MIN_SIZE + (holes.lo - heapBottom))
                && holes.lo == RoundUp(heapBottom, WORD) && holes.hi == heapBottom + heapSize
                && bottom == heapBottom && size == heapSize
                && (Valid() ==> state == Initial(holes.lo, holes.hi))
    {
      used := 0;
      if heapSize < MIN_SIZE {
        bottom, size := 0, 0;
        holes := new HoleList.Empty(memory);
      } else {
        bottom, size := heapBottom, heapSize;
        holes := new HoleList.New(memory, heapBottom, heapSize);
      }
      state := State([], 0, []);
      new;
      state := State(holes.holes, 0, []);
      if heapSize >= MIN_SIZE + Loss() && heapSize >= MIN_SIZE {
        RoundUpBounds(heapBottom, WORD);
        InitialInv(holes.lo, holes.hi);
      }
    }

    /** `Heap::allocate_first_fit`: takes the step of `AllocateStep`, and writes to no word
        outside the old holes, so that every live block keeps its contents. */
    method AllocateFirstFit(layout: Layout) returns (r: Outcome)
      requires Valid() && layout.Valid()
      modifies this`used, this`state, holes, holes.mem
      ensures Valid() && state == AllocateStep(old(state), layout)
      ensures r.Panicked? <==> AlignLayout(layout).Err?
      ensures Served(state, holes.lo, holes.hi)
      ensures state.live == if r.Allocated? then old(state).live + [Block(r.ptr, layout)] else old(state).live
      ensures OnlyFreeChanged(old(holes.mem[..]), holes.mem[..], old(holes.holes))
      ensures SameContents(old(state).live, old(holes.mem[..]), holes.mem[..])
    {
      match AlignLayout(layout) {
        case Err(_) =>
          r := Panicked;
          ContentsKept(state, holes.lo, holes.hi, holes.mem[..], holes.mem[..]);
        case Ok(aligned) =>
          var found := Take(layout, aligned);
          r := if found.Some? then Allocated(found.value) else NoSpace;
      }
      AllServed(state, holes.lo, holes.hi);
    }

    /** The part of `allocate_first_fit` behind the rounding. */
    method Take(layout: Layout, aligned: Layout) returns (found: Option<nat>)
      requires Valid() && layout.Valid() && AlignLayout(layout) == Ok(aligned)
      modifies this`used, this`state, holes, holes.mem
      ensures Valid() && state == AllocateStep(old(state), layout)
      ensures state.live == if found.Some? then old(state).live + [Block(found.value, layout)] else old(state).live
      ensures OnlyFreeChanged(old(holes.mem[..]), holes.mem[..], old(holes.holes))
      ensures SameContents(old(state).live, old(holes.mem[..]), holes.mem[..])
    {
      ghost var before := state;
      AlignLayoutExact(layout);
      found := holes.AllocateFirstFit(aligned);
      if found.Some? {
        used := used + aligned.size;
      }
      AllocateUnfold(before, layout, aligned, found, holes.holes);
      AllocateKeeps(before, layout, holes.lo, holes.hi);
      state := AllocateStep(before, layout);
      ContentsKept(before, holes.lo, holes.hi, old(holes.mem[..]), holes.mem[..]);
    }

    /** `Heap::deallocate`: takes the step of `ReleaseStep`, and writes only to words of the
        new holes, so that every block still live keeps its contents. */
    method Deallocate(ptr: nat, layout: Layout, ghost i: nat)
      requires Valid() && i < |state.live| && state.live[i] == Block(ptr, layout)
      modifies this`used, this`state, holes, holes.mem
      ensures Valid() && state == ReleaseStep(old(state), i)
      ensures OnlyFreeChanged(old(holes.mem[..]), holes.mem[..], holes.holes)
      ensures SameContents(state.live, old(holes.mem[..]), holes.mem[..])
    {
      ReleaseUnfold(state, i, holes.lo, holes.hi);
      ReleaseKeeps(state, i, holes.lo, holes.hi);
      var aligned := AlignLayout(layout).value;
      holes.Deallocate(ptr, aligned);
      assert used >= aligned.size;
      used := used - aligned.size;
      state := ReleaseStep(state, i);
      ContentsKept(state, holes.lo, holes.hi, old(holes.mem[..]), holes.mem[..]);
    }

    /** `Heap::free`: what is left in holes, and the bytes the first alignment cut off. */
    function Free(): (r: int)
      requires Valid()
      reads this, holes, holes.mem
      ensures r == Total(holes.holes) + (if size == 0 then 0 else RoundUp(bottom, WORD) - bottom)
    {
      size - used
    }
  }
}
