/** The linked list in memory: which memories hold a given list of holes.

    A store is the `next` field of the dummy head and the words of memory, the word at byte
    address `a` being `words[a]`. A hole at `a` keeps its size at `a` and the address of the
    next hole at `a + WORD`; 0 is the null pointer. */
module Chains {
  import opened Words
  import opened Holes
  import opened Refree

  datatype Store = Store(first: nat, words: seq<nat>)

  /** The address of hole `i`, or null behind the last one. */
  function AddrAt(hs: seq<Hole>, i: nat): nat {
    if i < |hs| then hs[i].addr else 0
  }

  /** The cursor that has passed n holes: the dummy head, or the last of the n. */
  function CursorAt(hs: seq<Hole>, n: nat): nat
    requires n <= |hs|
  {
    if n == 0 then 0 else hs[n - 1].addr
  }

  /** The header of `h` is in memory, with the given `next`. */
  ghost predicate Header(words: seq<nat>, h: Hole, next: nat) {
    h.addr + WORD < |words| && words[h.addr] == h.size && words[h.addr + WORD] == next
  }

  /** Header `i` of the list is in memory, and points to the next one. */
  ghost predicate LinkedAt(words: seq<nat>, hs: seq<Hole>, i: nat)
    requires i < |hs|
  {
    Header(words, hs[i], AddrAt(hs, i + 1))
  }

  ghost predicate Chained(s: Store, hs: seq<Hole>) {
    && s.first == AddrAt(hs, 0)
    && (forall i :: 0 <= i < |hs| ==> LinkedAt(s.words, hs, i))
  }

  /** Headers of different holes share no word. */
  ghost predicate Spread(hs: seq<Hole>) {
    && (forall i :: 0 <= i < |hs| ==> hs[i].addr > 0 && hs[i].size >= MIN_SIZE)
    && (forall i, j :: 0 <= i < j < |hs| ==> hs[i].addr + MIN_SIZE <= hs[j].addr)
  }

  lemma {:induction false} WellFormedSpread(hs: seq<Hole>, lo: nat, hi: nat)
    requires WellFormed(hs, lo, hi) && lo > 0
    ensures Spread(hs)
  {
    forall i, j | 0 <= i < j < |hs|
      ensures hs[i].addr + MIN_SIZE <= hs[j].addr
    {
      assert hs[i].End() < hs[j].addr;
    }
  }

  lemma {:induction false} SpreadRemoved(hs: seq<Hole>, n: nat)
    requires Spread(hs) && n < |hs|
    ensures Spread(Splice(hs, n, n + 1, []))
  {
  }

  function SetNext(s: Store, cursor: nat, next: nat): Store
    requires cursor == 0 || cursor + WORD < |s.words|
  {
    if cursor == 0 then s.(first := next) else s.(words := s.words[cursor + WORD := next])
  }

  function NextOf(s: Store, cursor: nat): nat
    requires cursor == 0 || cursor + WORD < |s.words|
  {
    if cursor == 0 then s.first else s.words[cursor + WORD]
  }

  lemma {:induction false} CursorNext(s: Store, hs: seq<Hole>, n: nat)
    requires Chained(s, hs) && Spread(hs) && n <= |hs|
    ensures CursorAt(hs, n) == 0 || CursorAt(hs, n) + WORD < |s.words|
    ensures n > 0 ==> CursorAt(hs, n) > 0
    ensures NextOf(s, CursorAt(hs, n)) == AddrAt(hs, n)
  {
    assert n > 0 ==> LinkedAt(s.words, hs, n - 1);
  }

  /** A header survives a write to the `next` word of another header. */
  lemma {:induction false} HeaderKept(words: seq<nat>, h: Hole, next: nat, at: nat, v: nat)
    requires Header(words, h, next) && at + WORD < |words|
    requires h.addr + MIN_SIZE <= at || at + MIN_SIZE <= h.addr
    ensures Header(words[at + WORD := v], h, next) && Header(words[at := v], h, next)
  {
  }

  /** ... and so it does if that word is the dummy head's. */
  lemma {:induction false} HeaderKeptBySet(s: Store, h: Hole, next: nat, cursor: nat, v: nat)
    requires Header(s.words, h, next) && (cursor == 0 || cursor + WORD < |s.words|)
    requires cursor == 0 || h.addr + MIN_SIZE <= cursor || cursor + MIN_SIZE <= h.addr
    ensures Header(SetNext(s, cursor, v).words, h, next)
  {
    if cursor != 0 {
      HeaderKept(s.words, h, next, cursor, v);
    }
  }

  /** Hole i does not lie at the cursor behind n holes, unless it is hole n - 1. */
  lemma {:induction false} OffCursor(hs: seq<Hole>, n: nat, i: nat)
    requires Spread(hs) && n <= |hs| && i < |hs| && i != n - 1
    ensures var c := CursorAt(hs, n); c == 0 || hs[i].addr + MIN_SIZE <= c || c + MIN_SIZE <= hs[i].addr
  {
  }

  /** `hole.next = hole.next.as_mut().unwrap().next.take()`: the next hole's own link is
      cleared, and the cursor's link is what it was. */
  function Unlink(s: Store, cursor: nat): Store
    requires cursor == 0 || cursor + WORD < |s.words|
    requires NextOf(s, cursor) + WORD < |s.words|
  {
    var unlinked := NextOf(s, cursor);
    SetNext(SetNext(s, unlinked, 0), cursor, NextOf(s, unlinked))
  }

  lemma {:induction false} ChainUnlinked(s: Store, hs: seq<Hole>, n: nat)
    requires Chained(s, hs) && Spread(hs) && n < |hs|
    ensures hs[n].addr > 0 && hs[n].addr + WORD < |s.words|
    ensures CursorAt(hs, n) == 0 || CursorAt(hs, n) + WORD < |s.words|
    ensures NextOf(s, CursorAt(hs, n)) == hs[n].addr
    ensures Chained(Unlink(s, CursorAt(hs, n)), Splice(hs, n, n + 1, []))
  {
    CursorNext(s, hs, n);
    CursorNext(s, hs, n + 1);
    var s' := Unlink(s, CursorAt(hs, n));
    var r := Splice(hs, n, n + 1, []);
    forall i | 0 <= i < |r|
      ensures LinkedAt(s'.words, r, i)
    {
      RemovedAt(hs, n, i);
      UnlinkedHeader(s, hs, n, if i < n then i else i + 1);
    }
  }

  /** The holes that stay, and what follows each. */
  lemma {:induction false} RemovedAt(hs: seq<Hole>, n: nat, i: nat)
    requires n < |hs| && i < |hs| - 1
    ensures var r := Splice(hs, n, n + 1, []);
            && |r| == |hs| - 1
            && r[i] == hs[if i < n then i else i + 1]
            && AddrAt(r, i + 1) == AddrAt(hs, if i + 1 < n then i + 1 else i + 2)
  {
  }

  lemma {:induction false} UnlinkedHeader(s: Store, hs: seq<Hole>, n: nat, j: nat)
    requires Chained(s, hs) && Spread(hs) && n < |hs| && j < |hs| && j != n
    requires hs[n].addr + WORD < |s.words| && NextOf(s, CursorAt(hs, n)) == hs[n].addr
    requires CursorAt(hs, n) == 0 || CursorAt(hs, n) + WORD < |s.words|
    requires hs[n].addr > 0 && NextOf(s, hs[n].addr) == AddrAt(hs, n + 1)
    ensures Header(Unlink(s, CursorAt(hs, n)).words, hs[j], if j == n - 1 then AddrAt(hs, n + 1) else AddrAt(hs, j + 1))
  {
    var s1 := SetNext(s, hs[n].addr, 0);
    assert LinkedAt(s.words, hs, j);
    HeaderKept(s.words, hs[j], AddrAt(hs, j + 1), hs[n].addr, 0);
    if j != n - 1 {
      OffCursor(hs, n, j);
      HeaderKeptBySet(s1, hs[j], AddrAt(hs, j + 1), CursorAt(hs, n), AddrAt(hs, n + 1));
    }
  }

  /** Storing a new size in the header the cursor is at. */
  lemma {:induction false} ChainResized(s: Store, hs: seq<Hole>, n: nat, size: nat)
    requires Chained(s, hs) && Spread(hs) && 0 < n <= |hs|
    ensures hs[n - 1].addr < |s.words|
    ensures Chained(s.(words := s.words[hs[n - 1].addr := size]), Splice(hs, n - 1, n, [Hole(hs[n - 1].addr, size)]))
  {
    CursorNext(s, hs, n);
    var words := s.words[hs[n - 1].addr := size];
    var r := Splice(hs, n - 1, n, [Hole(hs[n - 1].addr, size)]);
    forall i | 0 <= i < |r|
      ensures LinkedAt(words, r, i)
    {
      assert LinkedAt(s.words, hs, i);
      if i != n - 1 {
        OffCursor(hs, n, i);
        HeaderKept(s.words, hs[i], AddrAt(hs, i + 1), hs[n - 1].addr, size);
      }
    }
  }

  /** Writing a header into a stretch between two holes, and linking it behind the cursor. */
  function Link(s: Store, cursor: nat, h: Hole): Store
    requires cursor == 0 || cursor + WORD < |s.words|
    requires h.addr + WORD < |s.words|
  {
    SetNext(s.(words := s.words[h.addr := h.size][h.addr + WORD := NextOf(s, cursor)]), cursor, h.addr)
  }

  lemma {:induction false} ChainLinked(s: Store, hs: seq<Hole>, n: nat, h: Hole)
    requires Chained(s, hs) && Spread(hs) && n <= |hs| && h.addr > 0 && h.addr + WORD < |s.words|
    requires Spread(Splice(hs, n, n, [h]))
    ensures CursorAt(hs, n) == 0 || CursorAt(hs, n) + WORD < |s.words|
    ensures Chained(Link(s, CursorAt(hs, n), h), Splice(hs, n, n, [h]))
  {
    CursorNext(s, hs, n);
    var s' := Link(s, CursorAt(hs, n), h);
    var r := Splice(hs, n, n, [h]);
    forall i | 0 <= i < |r|
      ensures LinkedAt(s'.words, r, i)
    {
      NewHeaderApart(hs, n, h, i);
      if i == n {
        NewHeader(s, hs, n, h);
      } else {
        OldHeader(s, hs, n, h, if i < n then i else i - 1);
      }
    }
  }

  lemma {:induction false} NewHeader(s: Store, hs: seq<Hole>, n: nat, h: Hole)
    requires n <= |hs| && h.addr + WORD < |s.words|
    requires CursorAt(hs, n) == 0 || CursorAt(hs, n) + WORD < |s.words|
    requires CursorAt(hs, n) == 0 || CursorAt(hs, n) + MIN_SIZE <= h.addr
    requires NextOf(s, CursorAt(hs, n)) == AddrAt(hs, n)
    ensures Header(Link(s, CursorAt(hs, n), h).words, h, AddrAt(hs, n))
  {
    var s1 := s.(words := s.words[h.addr := h.size][h.addr + WORD := AddrAt(hs, n)]);
    HeaderKeptBySet(s1, h, AddrAt(hs, n), CursorAt(hs, n), h.addr);
  }

  lemma {:induction false} OldHeader(s: Store, hs: seq<Hole>, n: nat, h: Hole, j: nat)
    requires Chained(s, hs) && Spread(hs) && n <= |hs| && j < |hs| && h.addr + WORD < |s.words|
    requires CursorAt(hs, n) == 0 || CursorAt(hs, n) + WORD < |s.words|
    requires NextOf(s, CursorAt(hs, n)) == AddrAt(hs, n)
    requires if j < n then hs[j].addr + MIN_SIZE <= h.addr else h.addr + MIN_SIZE <= hs[j].addr
    ensures Header(Link(s, CursorAt(hs, n), h).words, hs[j], if j == n - 1 then h.addr else AddrAt(hs, j + 1))
  {
    var sized := s.words[h.addr := h.size];
    var s1 := s.(words := sized[h.addr + WORD := AddrAt(hs, n)]);
    assert LinkedAt(s.words, hs, j);
    HeaderKept(s.words, hs[j], AddrAt(hs, j + 1), h.addr, h.size);
    HeaderKept(sized, hs[j], AddrAt(hs, j + 1), h.addr, AddrAt(hs, n));
    if j != n - 1 {
      OffCursor(hs, n, j);
      HeaderKeptBySet(s1, hs[j], AddrAt(hs, j + 1), CursorAt(hs, n), h.addr);
    }
  }

  lemma {:induction false} NewHeaderApart(hs: seq<Hole>, n: nat, h: Hole, i: nat)
    requires n <= |hs| && i <= |hs| && Spread(Splice(hs, n, n, [h]))
    ensures i == n && n > 0 ==> hs[n - 1].addr + MIN_SIZE <= h.addr
    ensures i < n ==> hs[i].addr + MIN_SIZE <= h.addr
    ensures i > n ==> h.addr + MIN_SIZE <= hs[i - 1].addr
  {
    var r := Splice(hs, n, n, [h]);
    assert r[n] == h;
    assert i < n ==> r[i] == hs[i];
    assert i > n ==> r[i] == hs[i - 1];
    assert n > 0 ==> r[n - 1] == hs[n - 1];
  }

  // ----- where a freed block lies -----

  /** The block may be freed, and lies behind the first n holes, where the cursor is. */
  ghost predicate Behind(hs: seq<Hole>, n: nat, cursor: nat, h: Hole, lo: nat, hi: nat) {
    && WellFormed(hs, lo, hi) && n <= |hs| && cursor == CursorAt(hs, n)
    && h.Listable(lo, hi) && Apart(hs, h)
    && (n > 0 ==> hs[n - 1].End() <= h.addr)
  }

  /** ... and still does once the hole right behind it has joined it. */
  lemma {:induction false} BehindJoined(hs: seq<Hole>, n: nat, cursor: nat, h: Hole, lo: nat, hi: nat)
    requires Behind(hs, n, cursor, h, lo, hi) && n < |hs| && h.End() == hs[n].addr
    ensures Behind(Splice(hs, n, n + 1, []), n, cursor, Hole(h.addr, h.size + hs[n].size), lo, hi)
    ensures Insert(Splice(hs, n, n + 1, []), Hole(h.addr, h.size + hs[n].size)) == Insert(hs, h)
    ensures |Splice(hs, n, n + 1, [])| == |hs| - 1
  {
    AbsorbNext(hs, n, h, lo, hi);
  }

  // ----- which words an operation may write -----

  /** All four bytes of the word at `b` are free. */
  ghost predicate WordFree(hs: seq<Hole>, b: int) {
    forall c: int :: b <= c < b + WORD ==> Free(hs, c)
  }

  /** Words that differ are free in `hs`. */
  ghost predicate OnlyFreeChanged(before: seq<nat>, after: seq<nat>, hs: seq<Hole>) {
    && |before| == |after|
    && forall b :: 0 <= b < |before| && before[b] != after[b] ==> WordFree(hs, b)
  }

  /** Every free byte of `xs` is free in `ys`. */
  ghost predicate FreeWithin(xs: seq<Hole>, ys: seq<Hole>) {
    forall b: int :: Free(xs, b) ==> Free(ys, b)
  }

  /** Freeing only adds free bytes. */
  lemma {:induction false} InsertCovers(hs: seq<Hole>, h: Hole)
    ensures FreeWithin(hs, Insert(hs, h))
  {
    forall b: int
      ensures Free(hs, b) ==> Free(Insert(hs, h), b)
    {
      InsertBytes(hs, h, b);
    }
  }

  /** A hole that grew into the gap behind it covers nothing that the merged list does not. */
  lemma {:induction false} ResizedWithin(hs: seq<Hole>, n: nat, size: nat, final: seq<Hole>)
    requires 0 < n < |hs| && hs[n - 1].addr + size == hs[n].End()
    requires final == Splice(hs, n - 1, n + 1, [Hole(hs[n - 1].addr, size)])
    requires FreeWithin(hs, final)
    ensures FreeWithin(Splice(hs, n - 1, n, [Hole(hs[n - 1].addr, size)]), final)
  {
    var m := Hole(hs[n - 1].addr, size);
    forall b: int | Free(Splice(hs, n - 1, n, [m]), b)
      ensures Free(final, b)
    {
      SpliceBytes(hs, n - 1, n, [m], b);
      SpliceBytes(hs, n - 1, n + 1, [m], b);
    }
  }

  /** Words that differ are free once more is. */
  lemma {:induction false} ChangedWithin(before: seq<nat>, after: seq<nat>, hs: seq<Hole>, h: Hole)
    requires OnlyFreeChanged(before, after, hs)
    ensures OnlyFreeChanged(before, after, Insert(hs, h))
  {
    InsertCovers(hs, h);
    ChangedTrans(before, before, after, hs, hs, Insert(hs, h));
  }

  lemma {:induction false} ChangedTrans(
    m0: seq<nat>, m1: seq<nat>, m2: seq<nat>, xs: seq<Hole>, ys: seq<Hole>, zs: seq<Hole>)
    requires OnlyFreeChanged(m0, m1, xs) && OnlyFreeChanged(m1, m2, ys) && FreeWithin(xs, zs) && FreeWithin(ys, zs)
    ensures OnlyFreeChanged(m0, m2, zs)
  {
    forall b | 0 <= b < |m0| && m0[b] != m2[b]
      ensures WordFree(zs, b)
    {
      assert m0[b] != m1[b] || m1[b] != m2[b];
      assert WordFree(xs, b) || WordFree(ys, b);
    }
  }

  /** Both header words of a hole are free. */
  lemma {:induction false} HeaderFree(hs: seq<Hole>, i: nat)
    requires i < |hs| && hs[i].size >= MIN_SIZE
    ensures WordFree(hs, hs[i].addr) && WordFree(hs, hs[i].addr + WORD)
  {
    forall c: int | hs[i].addr <= c < hs[i].addr + MIN_SIZE
      ensures Free(hs, c)
    {
      assert hs[i].Covers(c);
    }
  }

  lemma {:induction false} UnlinkFrame(s: Store, hs: seq<Hole>, n: nat)
    requires Chained(s, hs) && Spread(hs) && n < |hs|
    requires CursorAt(hs, n) == 0 || CursorAt(hs, n) + WORD < |s.words|
    requires NextOf(s, CursorAt(hs, n)) == hs[n].addr && hs[n].addr + WORD < |s.words|
    ensures OnlyFreeChanged(s.words, Unlink(s, CursorAt(hs, n)).words, hs)
  {
    HeaderFree(hs, n);
    if n > 0 {
      HeaderFree(hs, n - 1);
    }
  }

  lemma {:induction false} ResizeFrame(s: Store, hs: seq<Hole>, n: nat, size: nat)
    requires Chained(s, hs) && Spread(hs) && 0 < n <= |hs| && CursorAt(hs, n) < |s.words|
    ensures OnlyFreeChanged(s.words, s.words[CursorAt(hs, n) := size], hs)
  {
    HeaderFree(hs, n - 1);
  }

  lemma {:induction false} LinkFrame(s: Store, hs: seq<Hole>, n: nat, h: Hole)
    requires Chained(s, hs) && Spread(hs) && n <= |hs| && h.addr + WORD < |s.words| && h.size >= MIN_SIZE
    requires CursorAt(hs, n) == 0 || CursorAt(hs, n) + WORD < |s.words|
    ensures OnlyFreeChanged(s.words, Link(s, CursorAt(hs, n), h).words, Splice(hs, n, n, [h]))
  {
    var r := Splice(hs, n, n, [h]);
    assert r[n] == h;
    HeaderFree(r, n);
    if n > 0 {
      assert r[n - 1] == hs[n - 1];
      HeaderFree(r, n - 1);
    }
  }

  /** The contents of a live block, which is apart from every free byte, never change. */
  lemma {:induction false} LiveUnchanged(before: seq<nat>, after: seq<nat>, hs: seq<Hole>, live: Hole)
    requires OnlyFreeChanged(before, after, hs) && Apart(hs, live) && live.End() <= |before|
    ensures before[live.addr..live.End()] == after[live.addr..live.End()]
  {
    forall b | live.addr <= b < live.End()
      ensures before[b] == after[b]
    {
      assert live.Covers(b);
      assert !Free(hs, b);
    }
  }
}
