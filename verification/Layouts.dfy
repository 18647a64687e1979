/** Memory layouts: src/alloc/cortex_m/alloc/layout.rs, and the two alignment functions of
    src/alloc/cortex_m/alloc/mod.rs.

    The functions follow the source: wrapping sums, masks, checked sums and products. The
    lemmas state what they compute in terms of multiples and least multiples. */
module Layouts {
  import opened Wrappers
  import opened Words

  type usize = n: nat | n <= USIZE_MAX witness 0

  datatype LayoutErr = LayoutErr

  function CheckedAdd(a: usize, b: usize): Option<usize> {
    if a + b > USIZE_MAX then None else Some(a + b)
  }

  function CheckedMul(a: nat, b: usize): Option<usize> {
    if a * b > USIZE_MAX then None else Some(a * b)
  }

  datatype Layout = Layout(size: usize, align: usize) {

    /** The invariant the documentation of `Layout` gives: the alignment is a power of two,
        and the size rounded up to it is still a usize. */
    ghost predicate Valid() {
      IsPowerOfTwo(align) && align > 0 && RoundUp(size, align) <= USIZE_MAX
    }

    function PaddingNeededFor(to: usize): usize {
      var sum := WrappingSub(BITS, WrappingAdd(BITS, size, to), 1);
      var lenRoundedUp := And(BITS, sum, Not(BITS, WrappingSub(BITS, to, 1)));
      WrappingSub(BITS, lenRoundedUp, size)
    }

    /** `Err` stands for the panic of `unwrap` or of the overflowing sum. */
    function PadToAlign(): Result<Layout, LayoutErr> {
      var newSize := size + PaddingNeededFor(align);
      if newSize > USIZE_MAX then Err(LayoutErr) else FromSizeAlign(newSize, align)
    }

    /** The layout of `n` padded copies, built without the check of `FromSizeAlign`. */
    function Repeat(n: usize): Result<(Layout, nat), LayoutErr> {
      var paddedSize := size + PaddingNeededFor(align);
      match CheckedMul(paddedSize, n)
      case None => Err(LayoutErr)
      case Some(allocSize) => Ok((Layout(allocSize, align), paddedSize))
    }

    function Extend(next: Layout): Result<(Layout, usize), LayoutErr> {
      var newAlign := if align >= next.align then align else next.align;
      var pad := PaddingNeededFor(next.align);
      match CheckedAdd(size, pad)
      case None => Err(LayoutErr)
      case Some(offset) =>
        match CheckedAdd(offset, next.size)
        case None => Err(LayoutErr)
        case Some(newSize) =>
          match FromSizeAlign(newSize, newAlign)
          case Err(e) => Err(e)
          case Ok(layout) => Ok((layout, offset))
    }

    /** The layout of `[T; n]`, where this layout is the one of `T`. */
    function Array(n: usize): Result<Layout, LayoutErr> {
      match Repeat(n)
      case Err(e) => Err(e)
      case Ok(r) => r.0.PadToAlign()
    }
  }

  function FromSizeAlign(size: usize, align: usize): Result<Layout, LayoutErr> {
    if !IsPowerOfTwo(align) || align == 0 then Err(LayoutErr)
    else if size > USIZE_MAX - (align - 1) then Err(LayoutErr)
    else Ok(Layout(size, align))
  }

  /** `None` stands for the panic on an alignment that is neither zero nor a power of two. */
  function AlignDown(addr: usize, align: usize): Option<usize> {
    if IsPowerOfTwo(align) && align > 0 then
      AndBounded(BITS, addr, Not(BITS, align - 1));
      Some(And(BITS, addr, Not(BITS, align - 1)))
    else if align == 0 then Some(addr)
    else None
  }

  /** `None` also stands for an overflow of `addr + align - 1`. */
  function AlignUp(addr: usize, align: usize): Option<usize> {
    if addr + align > USIZE_MAX || addr + align < 1 then None
    else AlignDown(addr + align - 1, align)
  }

  // ----- what masks and wrapped sums compute -----

  /** Masking with `!(align - 1)` gives the greatest multiple at or below the address. */
  lemma {:induction false} AlignDownGreatest(addr: usize, align: usize)
    requires IsPowerOfTwo(align) && align > 0
    ensures var r := AlignDown(addr, align);
            && r == Some(addr - addr % align)
            && Multiple(r.value, align) && r.value <= addr
            && forall m: int :: m <= addr && Multiple(m, align) ==> m <= r.value
  {
    AlignDownFloor(addr, align);
    FloorBounds(addr, align);
    forall m: int | m <= addr && Multiple(m, align)
      ensures m <= addr - addr % align
    {
      FloorGreatest(addr, align, m);
    }
  }

  lemma {:induction false} AlignDownFloor(addr: usize, align: usize)
    requires IsPowerOfTwo(align) && align > 0
    ensures AlignDown(addr, align) == Some(addr - addr % align)
  {
    var k := Exponent(align);
    MaskClears(BITS, addr, k);
  }

  /** `align_up` gives the least multiple at or above the address, when the sum fits. */
  lemma {:induction false} AlignUpLeast(addr: usize, align: usize)
    requires IsPowerOfTwo(align) && align > 0 && addr + align <= USIZE_MAX
    ensures var r := AlignUp(addr, align);
            && r == Some(RoundUp(addr, align))
            && Multiple(r.value, align) && addr <= r.value
            && forall m: int :: m >= addr && Multiple(m, align) ==> r.value <= m
  {
    AlignUpRounds(addr, align);
    RoundUpBounds(addr, align);
    forall m: int | m >= addr && Multiple(m, align)
      ensures RoundUp(addr, align) <= m
    {
      RoundUpLeast(addr, align, m);
    }
  }

  lemma {:induction false} AlignUpRounds(addr: usize, align: usize)
    requires IsPowerOfTwo(align) && align > 0 && addr + align <= USIZE_MAX
    ensures AlignUp(addr, align) == Some(RoundUp(addr, align))
  {
    AlignDownFloor(addr + align - 1, align);
    FloorIsRoundUp(addr, align);
  }

  lemma {:induction false} FloorIsRoundUp(a: nat, n: nat)
    requires n > 0
    ensures (a + n - 1) - (a + n - 1) % n == RoundUp(a, n)
  {
    FloorBounds(a + n - 1, n);
    RoundUpBounds(a, n);
    MultiplesMeet((a + n - 1) - (a + n - 1) % n, RoundUp(a, n), n);
  }

  /** Rounding up a usize to a power of two is at most one past the greatest usize, which it
      is exactly when the check of `from_size_align` rejects the size. */
  lemma {:induction false} RoundUpRange(size: usize, align: usize)
    requires IsPowerOfTwo(align) && align > 0
    ensures RoundUp(size, align) <= USIZE_MAX + 1
    ensures RoundUp(size, align) <= USIZE_MAX <==> size <= USIZE_MAX - (align - 1)
  {
    var k := Exponent(align);
    Pow2Multiple(k, BITS);
    RoundUpBounds(size, align);
    RoundUpLeast(size, align, Pow2(BITS));
    if RoundUp(size, align) < Pow2(BITS) {
      MultipleGap(RoundUp(size, align), Pow2(BITS), align);
    }
  }

  /** `from_size_align` accepts exactly the arguments its documentation lists. */
  lemma {:induction false} FromSizeAlignExact(size: usize, align: usize)
    ensures FromSizeAlign(size, align).Ok? <==>
            align > 0 && (exists k: nat :: k < BITS && align == Pow2(k)) && RoundUp(size, align) <= USIZE_MAX
    ensures FromSizeAlign(size, align).Ok? ==>
              FromSizeAlign(size, align).value == Layout(size, align) && Layout(size, align).Valid()
  {
    PowerOfTwoMeaning(align);
    if IsPowerOfTwo(align) && align > 0 {
      RoundUpRange(size, align);
    }
  }

  /** The wrapping mask arithmetic computes the least padding, for every size, also when
      the rounded size is one past the greatest usize and wraps to zero. */
  lemma {:induction false} PaddingLeast(l: Layout, to: usize)
    requires IsPowerOfTwo(to) && to > 0
    ensures var p := l.PaddingNeededFor(to);
            && p < to && Multiple(l.size + p, to)
            && forall m: nat :: m >= l.size && Multiple(m, to) ==> p <= m - l.size
  {
    PaddingRounds(l, to);
    RoundUpBounds(l.size, to);
    forall m: nat | m >= l.size && Multiple(m, to)
      ensures RoundUp(l.size, to) <= m
    {
      RoundUpLeast(l.size, to, m);
    }
  }

  lemma {:induction false} PaddingRounds(l: Layout, to: usize)
    requires IsPowerOfTwo(to) && to > 0
    ensures l.size + l.PaddingNeededFor(to) == RoundUp(l.size, to)
  {
    RoundUpBounds(l.size, to);
    RoundUpRange(l.size, to);
    var turns := if l.size + to - 1 < Pow2(BITS) then 0 else 1;
    WrapTwice(l.size, to, turns);
    MaskedSum(l, to, turns);
    PaddingWraps(RoundUp(l.size, to) - l.size, turns);
  }

  lemma {:induction false} PaddingWraps(p: nat, turns: int)
    requires p < Pow2(BITS) && 0 <= turns <= 1
    ensures (p - turns * Pow2(BITS)) % Pow2(BITS) == p
  {
    if turns == 0 {
      DivModUnique(p, Pow2(BITS), 0, p);
    } else {
      DivModUnique(p - Pow2(BITS), Pow2(BITS), -1, p);
    }
  }

  /** The masked sum is the rounded size, less the word size when the sum wrapped. */
  lemma {:induction false} MaskedSum(l: Layout, to: usize, turns: int)
    requires IsPowerOfTwo(to) && to > 0 && 0 <= turns <= 1
    requires 0 <= l.size + to - 1 - turns * Pow2(BITS) < Pow2(BITS)
    ensures And(BITS, l.size + to - 1 - turns * Pow2(BITS), Not(BITS, WrappingSub(BITS, to, 1)))
            == RoundUp(l.size, to) - turns * Pow2(BITS)
  {
    var sum: usize := l.size + to - 1 - turns * Pow2(BITS);
    DivModUnique(to - 1, Pow2(BITS), 0, to - 1);
    AlignDownFloor(sum, to);
    if turns == 0 {
      FloorIsRoundUp(l.size, to);
    } else {
      DivModUnique(sum, to, 0, sum);
      RoundUpBounds(l.size, to);
      RoundUpRange(l.size, to);
    }
  }

  /** `len + align - 1` under two wraps, where the sum overflows `turns` times. */
  lemma {:induction false} WrapTwice(size: usize, to: usize, turns: int)
    requires to > 0 && 0 <= turns <= 1
    requires 0 <= size + to - 1 - turns * Pow2(BITS) < Pow2(BITS)
    ensures WrappingSub(BITS, WrappingAdd(BITS, size, to), 1) == size + to - 1 - turns * Pow2(BITS)
  {
    var top := Pow2(BITS);
    if size + to == (turns + 1) * top {
      DivModUnique(size + to, top, turns + 1, 0);
      DivModUnique(0 - 1, top, -1, top - 1);
    } else {
      var r := size + to - turns * top;
      DivModUnique(size + to, top, turns, r);
      DivModUnique(r - 1, top, 0, r - 1);
    }
  }

  /** `pad_to_align` never panics; it gives the least padded size, and padding twice changes
      nothing. */
  lemma {:induction false} PadToAlignTotal(l: Layout)
    requires l.Valid()
    ensures var r := l.PadToAlign();
            && r == Ok(Layout(RoundUp(l.size, l.align), l.align))
            && r.value.Valid() && r.value.PadToAlign() == r
  {
    PaddingRounds(l, l.align);
    var size := RoundUp(l.size, l.align);
    RoundUpBounds(l.size, l.align);
    RoundUpFixed(size, l.align);
    FromSizeAlignExact(size, l.align);
    PowerOfTwoMeaning(l.align);
    PaddingRounds(Layout(size, l.align), l.align);
  }

  /** `repeat` fails exactly when the padded copies do not fit a usize, and the layout it
      builds without a check is valid. */
  lemma {:induction false} RepeatExact(l: Layout, n: usize)
    requires l.Valid()
    ensures var stride := RoundUp(l.size, l.align);
            && (l.Repeat(n).Ok? <==> stride * n <= USIZE_MAX)
            && (l.Repeat(n).Ok? ==>
                  var (k, offs) := l.Repeat(n).value;
                  k.Valid() && k.size == stride * n && k.align == l.align && offs == stride)
  {
    var stride := RoundUp(l.size, l.align);
    PaddingRounds(l, l.align);
    RoundUpBounds(l.size, l.align);
    RepeatShape(l, n, stride);
    if l.Repeat(n).Ok? {
      MultipleScaled(stride, n, l.align);
      PaddedValid(l, l.Repeat(n).value.0);
    }
  }

  lemma {:induction false} RepeatShape(l: Layout, n: usize, stride: nat)
    requires l.size + l.PaddingNeededFor(l.align) == stride
    ensures l.Repeat(n).Ok? <==> stride * n <= USIZE_MAX
    ensures l.Repeat(n).Ok? ==>
              var (k, offs) := l.Repeat(n).value;
              k.size == stride * n && k.align == l.align && offs == stride
  {
  }

  /** A size that needs no padding makes a valid layout. */
  lemma {:induction false} PaddedValid(l: Layout, k: Layout)
    requires l.Valid() && k.align == l.align && Multiple(k.size, k.align)
    ensures k.Valid()
  {
    RoundUpFixed(k.size, k.align);
  }

  lemma {:induction false} RoundUpScaled(a: nat, i: nat, n: nat)
    requires n > 0 && Multiple(a, n)
    ensures RoundUp(a * i, n) == a * i
  {
    MultipleScaled(a, i, n);
    RoundUpFixed(a * i, n);
  }

  /** In a repeated layout copy `i` is aligned, and ends before the next copy and the whole. */
  lemma {:induction false} RepeatTiles(l: Layout, n: usize, i: nat)
    requires l.Valid() && i < n && l.Repeat(n).Ok?
    ensures var (k, offs) := l.Repeat(n).value;
            Multiple(i * offs, l.align) && i * offs + l.size <= (i + 1) * offs <= k.size
  {
    RepeatExact(l, n);
    RoundUpBounds(l.size, l.align);
    var stride := RoundUp(l.size, l.align);
    MultipleScaled(stride, i, l.align);
    Strides(stride, i, n);
  }

  lemma {:induction false} Strides(stride: nat, i: nat, n: nat)
    requires i < n
    ensures i * stride + stride == (i + 1) * stride <= stride * n
  {
    assert (n - i - 1) * stride >= 0;
    assert stride * n == (i + 1) * stride + (n - i - 1) * stride;
  }

  lemma {:induction false} MultipleScaled(a: int, i: int, n: nat)
    requires n > 0 && Multiple(a, n)
    ensures Multiple(a * i, n) && Multiple(i * a, n)
  {
    var q := a / n;
    assert a * i == (q * i) * n by { assert (q * n) * i == (q * i) * n; }
    MulMod(q * i, n);
  }

  function MaxAlign(a: nat, b: nat): nat {
    if a >= b then a else b
  }

  /** Of two powers of two, the smaller divides the greater. */
  lemma {:induction false} MaxAlignMultiple(a: usize, b: usize)
    requires IsPowerOfTwo(a) && IsPowerOfTwo(b) && a > 0 && b > 0
    ensures Multiple(MaxAlign(a, b), a) && Multiple(MaxAlign(a, b), b)
  {
    var j := Exponent(a);
    var k := Exponent(b);
    if j <= k {
      Pow2Monotone(j, k);
      Pow2Multiple(j, k);
      Pow2Multiple(k, k);
    } else {
      Pow2Monotone(k, j);
      Pow2Multiple(k, j);
      Pow2Multiple(j, j);
    }
  }

  /** Rounding up is monotone in the address and in the divisibility of the alignment. */
  lemma {:induction false} RoundUpMonotone(a: nat, m: nat, b: nat, n: nat)
    requires m > 0 && n > 0 && a <= b && Multiple(n, m)
    ensures RoundUp(a, m) <= RoundUp(b, n)
  {
    RoundUpBounds(b, n);
    MultipleTrans(RoundUp(b, n), n, m);
    RoundUpLeast(a, m, RoundUp(b, n));
  }

  /** `extend` succeeds exactly when the joined record, rounded to the joint alignment, fits;
      none of its three earlier checks rejects anything more. */
  lemma {:induction false} ExtendExact(l: Layout, next: Layout)
    requires l.Valid() && next.Valid()
    ensures var offset := RoundUp(l.size, next.align);
            var align := MaxAlign(l.align, next.align);
            && (l.Extend(next).Ok? <==> RoundUp(offset + next.size, align) <= USIZE_MAX)
            && (l.Extend(next).Ok? ==>
                  && l.Extend(next).value == (Layout(offset + next.size, align), offset)
                  && l.Extend(next).value.0.Valid())
  {
    PaddingRounds(l, next.align);
    var offset := RoundUp(l.size, next.align);
    var align := MaxAlign(l.align, next.align);
    RoundUpBounds(offset + next.size, align);
    if offset + next.size <= USIZE_MAX {
      FromSizeAlignExact(offset + next.size, align);
      PowerOfTwoMeaning(align);
    }
  }

  // ----- records built by folding `extend` -----

  ghost predicate AllValid(fields: seq<Layout>) {
    forall i :: 0 <= i < |fields| ==> fields[i].Valid()
  }

  /** The end of the last field of a C record: each field at the least aligned offset. */
  function RecordEnd(fields: seq<Layout>): nat {
    if fields == [] then 0
    else
      var last := fields[|fields| - 1];
      if last.align == 0 then 0
      else RoundUp(RecordEnd(fields[..|fields| - 1]), last.align) + last.size
  }

  function RecordAlign(fields: seq<Layout>): (a: nat)
    ensures a >= 1
  {
    if fields == [] then 1 else MaxAlign(RecordAlign(fields[..|fields| - 1]), fields[|fields| - 1].align)
  }

  /** A record that does not fit stays too large however many fields follow. */
  lemma {:induction false} RecordGrows(fields: seq<Layout>, i: nat)
    requires i <= |fields| && AllValid(fields)
    ensures IsPowerOfTwo(RecordAlign(fields)) && RecordAlign(fields) <= USIZE_MAX
    ensures RoundUp(RecordEnd(fields[..i]), RecordAlign(fields[..i])) <= RoundUp(RecordEnd(fields), RecordAlign(fields))
    decreases |fields|
  {
    if fields == [] {
      Pow2HasOneOne(BITS, 0);
      assert fields[..i] == fields;
    } else {
      var init, last := fields[..|fields| - 1], fields[|fields| - 1];
      RecordGrows(init, if i < |fields| then i else 0);
      MaxAlignMultiple(RecordAlign(init), last.align);
      if i < |fields| {
        assert init[..i] == fields[..i];
        RoundUpBounds(RecordEnd(init), last.align);
        RoundUpMonotone(RecordEnd(init), RecordAlign(init), RecordEnd(fields), RecordAlign(fields));
      } else {
        assert fields[..i] == fields;
      }
    }
  }

  lemma {:induction false} RecordAlignMultiple(fields: seq<Layout>, i: nat)
    requires i < |fields| && AllValid(fields)
    ensures Multiple(RecordAlign(fields), fields[i].align)
    decreases |fields|
  {
    var init, last := fields[..|fields| - 1], fields[|fields| - 1];
    RecordGrows(init, 0);
    MaxAlignMultiple(RecordAlign(init), last.align);
    if i < |init| {
      RecordAlignMultiple(init, i);
      MultipleTrans(RecordAlign(fields), RecordAlign(init), fields[i].align);
    }
  }

  ghost function PreviousEnd(fields: seq<Layout>, offsets: seq<nat>, i: nat): nat
    requires i <= |offsets| <= |fields|
  {
    if i == 0 then 0 else offsets[i - 1] + fields[i - 1].size
  }

  /** Field `i` lies at the least aligned offset behind the field before it. */
  ghost predicate PlacedAt(fields: seq<Layout>, offsets: seq<nat>, i: nat)
    requires AllValid(fields) && i < |offsets| <= |fields|
  {
    offsets[i] == RoundUp(PreviousEnd(fields, offsets, i), fields[i].align)
  }

  ghost predicate Packed(fields: seq<Layout>, offsets: seq<nat>)
    requires AllValid(fields)
  {
    && |offsets| <= |fields|
    && forall i :: 0 <= i < |offsets| ==> PlacedAt(fields, offsets, i)
  }

  /** A packed field is aligned, and at the least aligned offset that is left for it. */
  lemma {:induction false} PackedLeast(fields: seq<Layout>, offsets: seq<nat>, i: nat, m: int)
    requires AllValid(fields) && Packed(fields, offsets) && i < |offsets|
    ensures Multiple(offsets[i], fields[i].align) && PreviousEnd(fields, offsets, i) <= offsets[i]
    ensures PreviousEnd(fields, offsets, i) <= m && Multiple(m, fields[i].align) ==> offsets[i] <= m
  {
    var end, align := PreviousEnd(fields, offsets, i), fields[i].align;
    assert PlacedAt(fields, offsets, i);
    RoundUpBounds(end, align);
    if end <= m && Multiple(m, align) {
      RoundUpLeast(end, align, m);
    }
  }

  /** Packed fields lie in order and never overlap. */
  lemma {:induction false} PackedInOrder(fields: seq<Layout>, offsets: seq<nat>, i: nat, j: nat)
    requires AllValid(fields) && Packed(fields, offsets) && i < j < |offsets|
    ensures offsets[i] + fields[i].size <= offsets[j]
    decreases j
  {
    PackedLeast(fields, offsets, j, 0);
    if i < j - 1 {
      PackedInOrder(fields, offsets, i, j - 1);
    }
  }

  lemma {:induction false} PackedExtend(fields: seq<Layout>, offsets: seq<nat>, next: nat)
    requires AllValid(fields) && Packed(fields, offsets) && |offsets| < |fields|
    requires next == RoundUp(PreviousEnd(fields, offsets, |offsets|), fields[|offsets|].align)
    ensures Packed(fields, offsets + [next])
  {
    forall i | 0 <= i <= |offsets|
      ensures PlacedAt(fields, offsets + [next], i)
    {
      assert PreviousEnd(fields, offsets + [next], i) == PreviousEnd(fields, offsets, i);
      assert i < |offsets| ==> PlacedAt(fields, offsets, i);
    }
  }

  /** The layout and the offsets of the first `n` fields. */
  ghost predicate RecordPrefix(fields: seq<Layout>, n: nat, layout: Layout, offsets: seq<nat>)
    requires AllValid(fields)
  {
    && n == |offsets| <= |fields|
    && layout.Valid() && layout.size == RecordEnd(fields[..n]) && layout.align == RecordAlign(fields[..n])
    && Packed(fields, offsets) && PreviousEnd(fields, offsets, n) == layout.size
  }

  lemma {:induction false} RecordUnfold(fields: seq<Layout>, n: nat)
    requires AllValid(fields) && n < |fields|
    ensures RecordEnd(fields[..n + 1]) == RoundUp(RecordEnd(fields[..n]), fields[n].align) + fields[n].size
    ensures RecordAlign(fields[..n + 1]) == MaxAlign(RecordAlign(fields[..n]), fields[n].align)
  {
    assert fields[..n + 1][..n] == fields[..n];
  }

  lemma {:induction false} RecordStep(fields: seq<Layout>, n: nat, layout: Layout, offsets: seq<nat>)
    requires AllValid(fields) && n < |fields| && RecordPrefix(fields, n, layout, offsets)
    ensures match layout.Extend(fields[n])
            case Err(_) => RoundUp(RecordEnd(fields), RecordAlign(fields)) > USIZE_MAX
            case Ok(pair) => RecordPrefix(fields, n + 1, pair.0, offsets + [pair.1])
  {
    RecordUnfold(fields, n);
    ExtendExact(layout, fields[n]);
    match layout.Extend(fields[n])
    case Err(_) => RecordGrows(fields, n + 1);
    case Ok(pair) => PackedExtend(fields, offsets, pair.1);
  }

  /** What `repr_c` promises of its result. The fields are packed (see `PackedLeast` and
      `PackedInOrder`), the last one ends inside the record, and the record's own alignment
      keeps each field aligned wherever the record is placed. */
  ghost predicate IsRecord(fields: seq<Layout>, layout: Layout, offsets: seq<nat>)
    requires AllValid(fields)
  {
    && layout.Valid() && Multiple(layout.size, layout.align)
    && layout.size == RoundUp(RecordEnd(fields), RecordAlign(fields))
    && |offsets| == |fields| && Packed(fields, offsets)
    && PreviousEnd(fields, offsets, |fields|) <= layout.size
    && (forall i :: 0 <= i < |fields| ==> Multiple(layout.align, fields[i].align))
  }

  lemma {:induction false} RecordDone(fields: seq<Layout>, layout: Layout, offsets: seq<nat>)
    requires AllValid(fields) && RecordPrefix(fields, |fields|, layout, offsets)
    ensures layout.PadToAlign().Ok? && IsRecord(fields, layout.PadToAlign().value, offsets)
  {
    assert fields[..|fields|] == fields;
    PadToAlignTotal(layout);
    RoundUpBounds(layout.size, layout.align);
    FieldsAligned(fields);
  }

  /** The `repr_c` loop of the documentation of `extend`, finished by `pad_to_align`. It
      succeeds exactly when the padded record fits. */
  method ReprC(fields: seq<Layout>) returns (r: Result<(Layout, seq<nat>), LayoutErr>)
    requires AllValid(fields)
    ensures r.Ok? <==> RoundUp(RecordEnd(fields), RecordAlign(fields)) <= USIZE_MAX
    ensures r.Ok? ==> IsRecord(fields, r.value.0, r.value.1)
  {
    var offsets: seq<nat> := [];
    EmptyRecord(fields);
    var layout := Layout(0, 1);
    for n := 0 to |fields|
      invariant RecordPrefix(fields, n, layout, offsets)
    {
      RecordStep(fields, n, layout, offsets);
      match layout.Extend(fields[n]) {
        case Err(e) =>
          return Err(e);
        case Ok(pair) =>
          layout := pair.0;
          offsets := offsets + [pair.1];
      }
    }
    RecordDone(fields, layout, offsets);
    r := Ok((layout.PadToAlign().value, offsets));
  }

  lemma {:induction false} EmptyRecord(fields: seq<Layout>)
    requires AllValid(fields)
    ensures 1 <= USIZE_MAX && RecordPrefix(fields, 0, Layout(0, 1), [])
  {
    Pow2Monotone(1, BITS);
    assert Pow2(1) == 2 * Pow2(0);
    Pow2HasOneOne(BITS, 0);
    RoundUpFixed(0, 1);
  }

  lemma {:induction false} FieldsAligned(fields: seq<Layout>)
    requires AllValid(fields)
    ensures forall i :: 0 <= i < |fields| ==> Multiple(RecordAlign(fields), fields[i].align)
  {
    forall i | 0 <= i < |fields|
      ensures Multiple(RecordAlign(fields), fields[i].align)
    {
      RecordAlignMultiple(fields, i);
    }
  }

  /** For a type whose size is a multiple of its alignment, `array` fails exactly when the
      product overflows, and adds no padding anywhere. */
  lemma {:induction false} ArrayExact(l: Layout, n: usize)
    requires l.Valid() && Multiple(l.size, l.align)
    ensures l.Array(n) == if l.size * n <= USIZE_MAX then Ok(Layout(l.size * n, l.align)) else Err(LayoutErr)
  {
    RepeatExact(l, n);
    RoundUpFixed(l.size, l.align);
    if l.size * n <= USIZE_MAX {
      PadToAlignTotal(l.Repeat(n).value.0);
      RoundUpScaled(l.size, n, l.align);
    }
  }
}
