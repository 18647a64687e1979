/** The hole list of src/alloc/cortex_m/alloc/hole.rs, with its nodes inside the free memory.

    `mem` is the address space; the word at byte address `a` is `mem[a]`, for word-aligned
    `a`. A cursor (`&mut Hole` in the source) is the address of a header, or 0 for the dummy
    head. The ghost field `holes` is the list that the memory holds. */
module HoleLists {
  import opened Wrappers
  import opened Words
  import opened Layouts
  import opened Holes
  import opened FirstFit
  import opened Refree
  import opened Chains

  class HoleList {
    const mem: array<nat>
    ghost const lo: nat
    ghost const hi: nat
    var firstSize: nat
    var firstNext: nat
    ghost var holes: seq<Hole>

    /** `HoleList::empty` */
    constructor Empty(memory: array<nat>)
      requires memory.Length > 0
      ensures Valid() && holes == [] && mem == memory && fresh(this) && lo == hi
    {
      mem := memory;
      lo, hi := 1, 1;
      firstSize, firstNext := 0, 0;
      holes := [];
    }

    /** `HoleList::new`: writes the header of the only hole at the first word-aligned address.
        The list is well-formed exactly when the hole is still large enough for a header
        after the alignment cut bytes off it. */
    constructor New(memory: array<nat>, holeAddr: nat, holeSize: nat)
      requires 0 < holeAddr && holeAddr + holeSize <= memory.Length && RoundUp(holeAddr, WORD) + WORD < memory.Length
      modifies memory
      ensures mem == memory && fresh(this)
      ensures lo == RoundUp(holeAddr, WORD) && hi == holeAddr + holeSize
      ensures firstSize == 0 && firstNext == lo && mem[lo] == (if lo <= hi then hi - lo else 0) && mem[lo + WORD] == 0
      ensures holes == [Hole(lo, if lo <= hi then hi - lo else 0)]
      ensures Valid() <==> holeSize >= MIN_SIZE + (lo - holeAddr)
      ensures forall b :: 0 <= b < mem.Length && b != lo && b != lo + WORD ==> mem[b] == old(memory[b])
    {
      var aligned := RoundUp(holeAddr, WORD);
      RoundUpBounds(holeAddr, WORD);
      var size := if holeSize >= aligned - holeAddr then holeSize - (aligned - holeAddr) else 0;
      mem := memory;
      lo, hi := aligned, holeAddr + holeSize;
      firstSize, firstNext := 0, aligned;
      holes := [Hole(aligned, size)];
      new;
      mem[aligned] := size;
      mem[aligned + WORD] := 0;
      if size >= MIN_SIZE {
        assert LinkedAt(Memory().words, holes, 0);
      } else {
        assert !holes[0].Listable(lo, hi);
      }
    }

    ghost function Memory(): Store
      reads this, mem
    {
      Store(firstNext, mem[..])
    }

    /** The memory holds the list. */
    ghost predicate Linked()
      reads this, mem
    {
      && 0 < lo && hi <= mem.Length
      && firstSize == 0
      && Spread(holes)
      && Chained(Memory(), holes)
    }

    ghost predicate Valid()
      reads this, mem
    {
      Linked() && WellFormed(holes, lo, hi)
    }

    // ----- reading through a cursor -----

    function Size(cursor: nat): nat
      requires cursor < mem.Length
      reads this, mem
    {
      if cursor == 0 then firstSize else mem[cursor]
    }

    function Next(cursor: nat): nat
      requires cursor == 0 || cursor + WORD < mem.Length
      reads this, mem
    {
      if cursor == 0 then firstNext else mem[cursor + WORD]
    }

    /** Cursor, size and next link of the header behind the first n holes. */
    lemma AtCursor(n: nat)
      requires Linked() && n <= |holes|
      ensures CursorAt(holes, n) == 0 || CursorAt(holes, n) + WORD < mem.Length
      ensures n > 0 ==> CursorAt(holes, n) > 0 && mem[CursorAt(holes, n)] == holes[n - 1].size >= MIN_SIZE
      ensures Next(CursorAt(holes, n)) == AddrAt(holes, n)
      ensures n < |holes| ==>
              holes[n].addr > 0 && holes[n].addr + WORD < mem.Length && mem[holes[n].addr] == holes[n].size
    {
      CursorNext(Memory(), holes, n);
      assert n < |holes| ==> LinkedAt(Memory().words, holes, n);
      assert n > 0 ==> LinkedAt(Memory().words, holes, n - 1);
    }

    // ----- edits at a cursor -----

    /** `hole.next = hole.next.as_mut().unwrap().next.take()` */
    method UnlinkNext(cursor: nat, ghost n: nat)
      requires Linked() && n < |holes| && cursor == CursorAt(holes, n)
      modifies this`firstNext, this`holes, mem
      ensures Linked() && holes == Splice(old(holes), n, n + 1, [])
      ensures OnlyFreeChanged(old(mem[..]), mem[..], old(holes))
    {
      AtCursor(n);
      ChainUnlinked(Memory(), holes, n);
      UnlinkFrame(Memory(), holes, n);
      SpreadRemoved(holes, n);
      var unlinked := Next(cursor);
      var after := Next(unlinked);
      mem[unlinked + WORD] := 0;
      if cursor == 0 {
        firstNext := after;
      } else {
        mem[cursor + WORD] := after;
      }
      assert Memory() == Unlink(old(Memory()), cursor);
      holes := Splice(holes, n, n + 1, []);
    }

    /** `hole.size = size`, for a hole that is not the dummy head */
    method Resize(cursor: nat, size: nat, ghost n: nat)
      requires Linked() && 0 < n <= |holes| && cursor == CursorAt(holes, n) && size >= MIN_SIZE
      modifies this`holes, mem
      ensures Linked() && holes == Splice(old(holes), n - 1, n, [Hole(cursor, size)])
      ensures OnlyFreeChanged(old(mem[..]), mem[..], old(holes))
    {
      AtCursor(n);
      ChainResized(Memory(), holes, n, size);
      ResizeFrame(Memory(), holes, n, size);
      mem[cursor] := size;
      assert Memory() == old(Memory()).(words := old(Memory()).words[cursor := size]);
      holes := Splice(holes, n - 1, n, [Hole(cursor, size)]);
      assert forall i :: 0 <= i < |holes| ==> holes[i].addr == old(holes)[i].addr;
    }

    /** Writes a header for the block (addr, size) into the block, and links it behind the
        cursor. */
    method LinkBlock(cursor: nat, addr: nat, size: nat, ghost n: nat)
      requires Linked() && n <= |holes| && cursor == CursorAt(holes, n)
      requires addr > 0 && addr + WORD < mem.Length && size >= MIN_SIZE
      requires Spread(Splice(holes, n, n, [Hole(addr, size)]))
      modifies this`firstNext, this`holes, mem
      ensures Linked() && holes == Splice(old(holes), n, n, [Hole(addr, size)])
      ensures OnlyFreeChanged(old(mem[..]), mem[..], holes)
    {
      AtCursor(n);
      ChainLinked(Memory(), holes, n, Hole(addr, size));
      LinkFrame(Memory(), holes, n, Hole(addr, size));
      var next := Next(cursor);
      mem[addr] := size;
      mem[addr + WORD] := next;
      if cursor == 0 {
        firstNext := addr;
      } else {
        mem[cursor + WORD] := addr;
      }
      assert Memory() == Link(old(Memory()), cursor, Hole(addr, size));
      holes := Splice(holes, n, n, [Hole(addr, size)]);
    }

    // ----- the free functions of the source -----

    /** The freed block: in the region, not free, behind the first n holes. */
    ghost predicate Freeing(n: nat, cursor: nat, h: Hole)
      reads this, mem
    {
      Linked() && Behind(holes, n, cursor, h, lo, hi)
    }

    /** What the source reads at the cursor, and where the block can lie. */
    lemma AtBlock(n: nat, cursor: nat, h: Hole)
      requires Freeing(n, cursor, h)
      ensures cursor == 0 || cursor + WORD < mem.Length
      ensures 0 < mem.Length
      ensures Size(cursor) == 0 <==> n == 0
      ensures n > 0 ==> cursor == holes[n - 1].addr && Size(cursor) == holes[n - 1].size
      ensures n == 0 ==> cursor == 0
      ensures n < |holes| ==>
                && Next(cursor) == holes[n].addr > 0 && Next(cursor) < mem.Length && mem[Next(cursor)] == holes[n].size
                && (if holes[n].addr <= h.addr then holes[n].End() <= h.addr else h.End() <= holes[n].addr)
      ensures n == |holes| ==> Next(cursor) == 0
    {
      AtCursor(n);
    }

    /** The block is behind the next hole: the cursor may move on. */
    lemma Advance(n: nat, cursor: nat, h: Hole)
      requires Freeing(n, cursor, h) && n < |holes| && holes[n].addr <= h.addr
      ensures Freeing(n + 1, holes[n].addr, h)
    {
    }

    /** The block fills the gap between this hole and the next. */
    method FillGap(cursor: nat, size: nat, ghost n: nat, ghost h: Hole)
      requires Freeing(n, cursor, h) && 0 < n < |holes|
      requires holes[n - 1].End() == h.addr && h.End() == holes[n].addr
      requires size == holes[n - 1].size + h.size + holes[n].size
      modifies this`firstNext, this`holes, mem
      ensures Valid() && holes == Insert(old(holes), h)
      ensures OnlyFreeChanged(old(mem[..]), mem[..], holes)
    {
      GapFilled(holes, n, h, lo, hi);
      InsertWellFormed(holes, h, lo, hi);
      InsertCovers(holes, h);
      Resize(cursor, size, n);
      ghost var words, resized := mem[..], holes;
      UnlinkNext(cursor, n);
      assert holes == Splice(old(holes), n - 1, n + 1, [Hole(cursor, size)]);
      ResizedWithin(old(holes), n, size, holes);
      ChangedTrans(old(mem[..]), words, mem[..], old(holes), resized, holes);
    }

    /** The block is right behind this hole and does not reach the next. */
    method ExtendHole(cursor: nat, size: nat, ghost n: nat, ghost h: Hole)
      requires Freeing(n, cursor, h) && 0 < n
      requires holes[n - 1].End() == h.addr && (n < |holes| ==> h.End() < holes[n].addr)
      requires size == holes[n - 1].size + h.size
      modifies this`holes, mem
      ensures Valid() && holes == Insert(old(holes), h)
      ensures OnlyFreeChanged(old(mem[..]), mem[..], holes)
    {
      ghost var was, words := holes, mem[..];
      HoleExtended(was, n, h, lo, hi);
      InsertWellFormed(was, h, lo, hi);
      InsertCovers(was, h);
      Resize(cursor, size, n);
      assert holes == Insert(was, h);
      ChangedTrans(words, words, mem[..], was, was, holes);
    }

    /** The block touches no hole. */
    method AddHole(cursor: nat, addr: nat, size: nat, ghost n: nat)
      requires Freeing(n, cursor, Hole(addr, size))
      requires (n > 0 ==> holes[n - 1].End() < addr) && (n < |holes| ==> addr + size < holes[n].addr)
      modifies this`firstNext, this`holes, mem
      ensures Valid() && holes == Insert(old(holes), Hole(addr, size))
      ensures OnlyFreeChanged(old(mem[..]), mem[..], holes)
    {
      HoleAdded(holes, n, Hole(addr, size), lo, hi);
      InsertWellFormed(holes, Hole(addr, size), lo, hi);
      WellFormedSpread(Insert(holes, Hole(addr, size)), lo, hi);
      LinkBlock(cursor, addr, size, n);
    }

    /** The block is right before the next hole: that hole leaves the list and joins it. */
    method JoinNext(cursor: nat, ghost n: nat, ghost h: Hole)
      requires Freeing(n, cursor, h) && n < |holes| && h.End() == holes[n].addr
      modifies this`firstNext, this`holes, mem
      ensures |holes| == |old(holes)| - 1
      ensures Freeing(n, cursor, Hole(h.addr, h.size + old(holes)[n].size))
      ensures Insert(holes, Hole(h.addr, h.size + old(holes)[n].size)) == Insert(old(holes), h)
      ensures OnlyFreeChanged(old(mem[..]), mem[..], old(holes))
    {
      ghost var joined := Splice(holes, n, n + 1, []);
      BehindJoined(holes, n, cursor, h, lo, hi);
      UnlinkNext(cursor, n);
      assert holes == joined;
    }

    /** One turn of the loop of `deallocate`. Either the block is on the list, or the turn
        ends in a `continue` and fewer holes are left behind the cursor. The two assertions
        are the source's own; they never fail for a block that is in the region and not
        free. */
    method Turn(cursor: nat, addr: nat, size: nat, ghost n: nat)
      returns (done: bool, cursor': nat, size': nat, ghost n': nat)
      requires Freeing(n, cursor, Hole(addr, size))
      modifies this`firstNext, this`holes, mem
      ensures done ==> Valid() && holes == Insert(old(holes), Hole(addr, size))
      ensures !done ==>
                && Freeing(n', cursor', Hole(addr, size'))
                && Insert(holes, Hole(addr, size')) == Insert(old(holes), Hole(addr, size))
                && |holes| - n' < |old(holes)| - n
      ensures OnlyFreeChanged(old(mem[..]), mem[..], Insert(old(holes), Hole(addr, size)))
    {
      done, cursor', size', n' := true, cursor, size, n;
      AtBlock(n, cursor, Hole(addr, size));
      assert size >= MIN_SIZE;
      var holeSize := Size(cursor);
      var holeAddr := if holeSize == 0 then 0 else cursor;
      assert holeAddr + holeSize <= addr;

      var next := Next(cursor);
      var nextSize := if next != 0 then mem[next] else 0;
      if next != 0 && holeAddr + holeSize == addr && addr + size == next {
        FillGap(cursor, holeSize + size + nextSize, n, Hole(addr, size));
      } else if holeAddr + holeSize == addr {
        ExtendHole(cursor, holeSize + size, n, Hole(addr, size));
      } else if next != 0 && addr + size == next {
        JoinNext(cursor, n, Hole(addr, size));
        ChangedWithin(old(mem[..]), mem[..], old(holes), Hole(addr, size));
        done, size' := false, size + nextSize;
      } else if next != 0 && next <= addr {
        Advance(n, cursor, Hole(addr, size));
        done, cursor', n' := false, next, n + 1;
      } else {
        AddHole(cursor, addr, size, n);
      }
    }

    /** `deallocate`: walks to the place of the block, merging it with the holes it touches. */
    method DeallocateBlock(addr: nat, blockSize: nat)
      requires Valid() && Hole(addr, blockSize).Listable(lo, hi) && Apart(holes, Hole(addr, blockSize))
      modifies this`firstNext, this`holes, mem
      ensures Valid() && holes == Insert(old(holes), Hole(addr, blockSize))
      ensures OnlyFreeChanged(old(mem[..]), mem[..], holes)
    {
      ghost var final := Insert(holes, Hole(addr, blockSize));
      var size: nat := blockSize;
      var cursor: nat := 0;
      ghost var n: nat := 0;
      while true
        invariant Freeing(n, cursor, Hole(addr, size))
        invariant Insert(holes, Hole(addr, size)) == final
        invariant OnlyFreeChanged(old(mem[..]), mem[..], final)
        decreases |holes| - n
      {
        var done;
        ghost var words := mem[..];
        done, cursor, size, n := Turn(cursor, addr, size, n);
        ChangedTrans(old(mem[..]), words, mem[..], final, final, final);
        if done {
          return;
        }
      }
    }

    /** `allocate_first_fit` (the free function): takes the first usable hole off the list. */
    method TakeFirst(layout: Layout) returns (r: Option<Allocation>)
      requires Valid() && layout.align > 0
      modifies this`firstNext, this`holes, mem
      ensures Linked()
      ensures match FirstUsable(old(holes), layout)
              case None => r == None && holes == old(holes) && mem[..] == old(mem[..])
              case Some(k) => r == SplitHole(old(holes)[k], layout) && holes == Splice(old(holes), k, k + 1, [])
      ensures OnlyFreeChanged(old(mem[..]), mem[..], old(holes))
    {
      var previous;
      ghost var n;
      r, previous, n := FindUsable(layout);
      if r.Some? {
        UnlinkNext(previous, n);
      }
    }

    /** The walk to the first usable hole; the cursor stays in front of it. */
    method FindUsable(layout: Layout) returns (r: Option<Allocation>, previous: nat, ghost n: nat)
      requires Valid() && layout.align > 0
      ensures n <= |holes| && previous == CursorAt(holes, n)
      ensures match FirstUsable(holes, layout)
              case None => r == None
              case Some(k) => n == k < |holes| && r == SplitHole(holes[k], layout) && r.Some?
    {
      previous, n := 0, 0;
      while true
        invariant n <= |holes| && previous == CursorAt(holes, n)
        invariant Unusable(holes, layout, n)
        decreases |holes| - n
      {
        AtCursor(n);
        FirstUsableIs(holes, layout, n);
        var current := Next(previous);
        assert current != 0 ==> Hole(current, mem[current]) == holes[n];
        r := if current == 0 then None else SplitHole(Hole(current, mem[current]), layout);
        if r.Some? || current == 0 {
          return;
        }
        previous, n := current, n + 1;
      }
    }

    /** Frees the paddings of an allocation whose hole is off the list. */
    method FreePaddings(a: Allocation, ghost before: seq<Hole>, ghost k: nat)
      requires Linked() && WellFormed(before, lo, hi) && k < |before| && holes == Splice(before, k, k + 1, [])
      requires Tiles(a, before[k]) && WellFormed(Paddings(a), lo, hi) && a.info.size > 0
      modifies this`firstNext, this`holes, mem
      ensures Valid() && holes == Splice(before, k, k + 1, Paddings(a))
      ensures OnlyFreeChanged(old(mem[..]), mem[..], holes)
    {
      PaddingsFreeable(before, k, a, lo, hi);
      RefreedIsReplaced(before, k, a, lo, hi);
      ghost var words, rest := mem[..], holes;
      if a.front.Some? {
        DeallocateBlock(a.front.value.addr, a.front.value.size);
        words := mem[..];
      }
      ghost var fronted := holes;
      assert OnlyFreeChanged(old(mem[..]), words, fronted);
      if a.back.Some? {
        DeallocateBlock(a.back.value.addr, a.back.value.size);
        InsertCovers(fronted, a.back.value);
        ChangedTrans(old(mem[..]), words, mem[..], fronted, holes, holes);
      }
    }

    /** `HoleList::allocate_first_fit`: takes a hole, and frees its paddings again. The block
        and the new list are those of `FirstFit.Chosen` and `FirstFit.Taken`. */
    method AllocateFirstFit(layout: Layout) returns (r: Option<nat>)
      requires Valid() && Rounded(layout)
      modifies this`firstNext, this`holes, mem
      ensures Valid() && holes == Taken(old(holes), layout)
      ensures match Chosen(old(holes), layout)
              case None => r == None && mem[..] == old(mem[..])
              case Some(b) => r == Some(b.addr)
      ensures OnlyFreeChanged(old(mem[..]), mem[..], old(holes))
    {
      assert layout.size >= MIN_SIZE;
      ghost var k := FirstUsable(holes, layout);
      var allocation := TakeFirst(layout);
      match allocation {
        case None =>
          r := None;
        case Some(a) =>
          SplitTiles(old(holes)[k.value], layout, lo, hi);
          TakenMeaning(old(holes), layout, lo, hi);
          ghost var words := mem[..];
          FreePaddings(a, old(holes), k.value);
          ChangedTrans(old(mem[..]), words, mem[..], old(holes), holes, old(holes));
          r := Some(a.info.addr);
      }
    }

    /** `HoleList::deallocate` */
    method Deallocate(ptr: nat, layout: Layout)
      requires Valid() && Hole(ptr, layout.size).Listable(lo, hi) && Apart(holes, Hole(ptr, layout.size))
      modifies this`firstNext, this`holes, mem
      ensures Valid() && holes == Insert(old(holes), Hole(ptr, layout.size))
      ensures OnlyFreeChanged(old(mem[..]), mem[..], holes)
    {
      DeallocateBlock(ptr, layout.size);
    }
  }
}
