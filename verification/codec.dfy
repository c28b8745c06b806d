/** The value codec of `src/main.rs`: the generic midpoint, the button to
    analog expansion, the analog to bit collapse, the DualShock byte scaling and
    the half-axis (trigger) remaps.

    The Rust code is generic over `num::Bounded` types; only the `i16`
    instance the packet builder uses and the `u8` instance the unit tests
    exercise are modelled, through the explicit bounds of an `IntKind`. */
module Codec {
  import opened Integers
  import opened Results

  /** The integer types the generic codec functions are instantiated at. */
  datatype IntKind = U8 | I16Kind

  function MinValue(k: IntKind): int {
    match k
    case U8 => 0
    case I16Kind => I16Min
  }

  function MaxValue(k: IntKind): int {
    match k
    case U8 => 0xFF
    case I16Kind => I16Max
  }

  predicate InRange(k: IntKind, v: int) {
    MinValue(k) <= v <= MaxValue(k)
  }

  /** `whats_the_midpoint_of_a::<T>()`: `(max + min) / 2` in `T`'s own
      arithmetic. The sum fits in both types, and Rust's division truncates, so
      the `i16` midpoint is 0 and not -1. */
  function Midpoint(k: IntKind): (m: int)
    ensures InRange(k, m)
    ensures k == U8 ==> m == 127
    ensures k == I16Kind ==> m == 0
  {
    var sum := MaxValue(k) + MinValue(k);
    assert InRange(k, sum);
    TruncDiv(sum, 2)
  }

  /** The comparison `*byte > mid_point` that decides one bit of
      `collapse_bits`: a value reads as pressed strictly above the midpoint. */
  predicate IsPressed(k: IntKind, v: int) {
    v > Midpoint(k)
  }

  /** `convert_button`: a held button is the type's maximum, a released one
      its minimum; either way reading it back through the midpoint threshold
      recovers the button. */
  function ConvertButton(k: IntKind, pressed: bool): (v: int)
    ensures InRange(k, v)
    ensures IsPressed(k, v) == pressed
    ensures pressed ==> forall w :: InRange(k, w) ==> w <= v
    ensures !pressed ==> forall w :: InRange(k, w) ==> v <= w
  {
    if pressed then MaxValue(k) else MinValue(k)
  }

  // ---------------------------------------------------------------------------
  // Bits of a byte, counted from the most significant end

  /** The byte with only bit `j` set, counting from the most significant bit
      (`0x80 >> j`). */
  function MsbWeight(j: nat): bv8
    requires j < 8
  {
    match j
    case 0 => 0x80
    case 1 => 0x40
    case 2 => 0x20
    case 3 => 0x10
    case 4 => 0x08
    case 5 => 0x04
    case 6 => 0x02
    case _ => 0x01
  }

  /** The byte with bits `n` to 7 set, counting from the most significant
      bit: the value of `0xFF >> n`. */
  function LowMask(n: nat): bv8
    requires n <= 8
  {
    match n
    case 0 => 0xFF
    case 1 => 0x7F
    case 2 => 0x3F
    case 3 => 0x1F
    case 4 => 0x0F
    case 5 => 0x07
    case 6 => 0x03
    case 7 => 0x01
    case _ => 0x00
  }

  /** Bit `j` of `b`, counting from the most significant bit. */
  predicate MsbBit(b: bv8, j: nat)
    requires j < 8
  {
    b & MsbWeight(j) != 0
  }

  lemma LowMaskIsShift(n: nat)
    requires n <= 8
    ensures LowMask(n) == (0xFF as bv8) >> n
  {
  }

  /** `0xFF >> n` holds exactly the bits at positions `n` and below. */
  lemma LowMaskBits(n: nat, j: nat)
    requires n <= 8 && j < 8
    ensures MsbBit(LowMask(n), j) == (j >= n)
  {
  }

  lemma BitOr(x: bv8, y: bv8, j: nat)
    requires j < 8
    ensures MsbBit(x | y, j) == (MsbBit(x, j) || MsbBit(y, j))
  {
  }

  lemma BitAndNot(x: bv8, y: bv8, j: nat)
    requires j < 8
    ensures MsbBit(x & !y, j) == (MsbBit(x, j) && !MsbBit(y, j))
  {
  }

  /** Inverting a byte inverts each of its bits. */
  lemma BitNot(b: bv8, j: nat)
    requires j < 8
    ensures MsbBit(!b, j) == !MsbBit(b, j)
  {
  }

  /** A byte is determined by its eight bits. */
  lemma ByteFromBits(b: bv8, c: bv8)
    requires forall j :: 0 <= j < 8 ==> MsbBit(b, j) == MsbBit(c, j)
    ensures b == c
  {
    assert MsbBit(b, 0) == MsbBit(c, 0);
    assert MsbBit(b, 1) == MsbBit(c, 1);
    assert MsbBit(b, 2) == MsbBit(c, 2);
    assert MsbBit(b, 3) == MsbBit(c, 3);
    assert MsbBit(b, 4) == MsbBit(c, 4);
    assert MsbBit(b, 5) == MsbBit(c, 5);
    assert MsbBit(b, 6) == MsbBit(c, 6);
    assert MsbBit(b, 7) == MsbBit(c, 7);
  }

  /** The byte with every bit set is 0xFF. */
  lemma AllBitsSet(b: bv8)
    requires forall j :: 0 <= j < 8 ==> MsbBit(b, j)
    ensures b == 0xFF
  {
    assert MsbBit(b, 0) && MsbBit(b, 1) && MsbBit(b, 2) && MsbBit(b, 3);
    assert MsbBit(b, 4) && MsbBit(b, 5) && MsbBit(b, 6) && MsbBit(b, 7);
  }

  /** The reference MSB-first packing of eight bits: `c[0]` is the most
      significant bit. */
  function Pack(c: seq<bool>): bv8
    requires |c| == 8
  {
    (if c[0] then 0x80 else 0) | (if c[1] then 0x40 else 0)
    | (if c[2] then 0x20 else 0) | (if c[3] then 0x10 else 0)
    | (if c[4] then 0x08 else 0) | (if c[5] then 0x04 else 0)
    | (if c[6] then 0x02 else 0) | (if c[7] then 0x01 else 0)
  }

  lemma PackBits(c: seq<bool>)
    requires |c| == 8
    ensures forall j :: 0 <= j < 8 ==> MsbBit(Pack(c), j) == c[j]
  {
    forall j | 0 <= j < 8
      ensures MsbBit(Pack(c), j) == c[j]
    {
    }
  }

  // ---------------------------------------------------------------------------
  // collapse_bits

  /** The pressed/released decision of each item. */
  function Decisions(k: IntKind, items: seq<int>): (d: seq<bool>)
    ensures |d| == |items|
    ensures forall i :: 0 <= i < |items| ==> d[i] == IsPressed(k, items[i])
  {
    seq(|items|, i requires 0 <= i < |items| => IsPressed(k, items[i]))
  }

  /** The bit that `collapse_bits` should leave at position `j` (from the most
      significant end) once it has visited the first `i` decisions: a visited
      position holds its own decision, and every position below has been
      reached by all the masks so far and holds the last visited decision
      (0 before the first). */
  function Filled(d: seq<bool>, i: nat, j: nat): bool
    requires i <= |d|
    requires j < 8
  {
    if j < i then d[j] else i > 0 && d[i - 1]
  }

  /** The eight bits of the byte `collapse_bits` is meant to produce from all
      its decisions. */
  function Spread(d: seq<bool>): (c: seq<bool>)
    ensures |c| == 8
    ensures forall j :: 0 <= j < 8 ==> c[j] == Filled(d, |d|, j)
  {
    seq(8, j requires 0 <= j < 8 => Filled(d, |d|, j))
  }

  /** The invariant of the loop of `collapse_bits` after `i` iterations. */
  predicate Collapsed(acc: bv8, d: seq<bool>, i: nat)
    requires i <= |d|
  {
    forall j :: 0 <= j < 8 ==> MsbBit(acc, j) == Filled(d, i, j)
  }

  /** One iteration keeps the invariant: a pressed item ORs in `0xFF >> i`
      (`LowMask(i)`, see `LowMaskIsShift`), setting its own bit and every bit
      below; a released one clears the same bits with AND-NOT. */
  lemma CollapseStep(d: seq<bool>, i: nat, acc: bv8)
    requires i < |d| <= 8
    requires Collapsed(acc, d, i)
    ensures Collapsed(if d[i] then acc | LowMask(i) else acc & !LowMask(i), d, i + 1)
  {
    var next := if d[i] then acc | LowMask(i) else acc & !LowMask(i);
    forall j | 0 <= j < 8
      ensures MsbBit(next, j) == Filled(d, i + 1, j)
    {
      MaskBit(acc, i, j, d[i]);
    }
  }

  /** The step on one bit: positions above `i` keep their value, position
      `i` and everything below take the new decision. */
  lemma MaskBit(acc: bv8, i: nat, j: nat, b: bool)
    requires i < 8 && j < 8
    ensures MsbBit(if b then acc | LowMask(i) else acc & !LowMask(i), j) == if j < i then MsbBit(acc, j) else b
  {
    LowMaskBits(i, j);
    if b {
      BitOr(acc, LowMask(i), j);
    } else {
      BitAndNot(acc, LowMask(i), j);
    }
  }

  /** The loop of `collapse_bits` from iteration `i` on, with `acc` the value
      of `result` so far. */
  function CollapseFrom(k: IntKind, items: seq<int>, i: nat, acc: bv8): (r: bv8)
    requires i <= |items| <= 8
    requires Collapsed(acc, Decisions(k, items), i)
    ensures Collapsed(r, Decisions(k, items), |items|)
    decreases |items| - i
  {
    if i == |items| then acc
    else
      CollapseStep(Decisions(k, items), i, acc);
      CollapseFrom(k, items, i + 1, if items[i] > Midpoint(k) then acc | LowMask(i) else acc & !LowMask(i))
  }

  /** The loop starts from 0, which meets the invariant before any item. */
  lemma CollapseStart(d: seq<bool>)
    ensures Collapsed(0, d, 0)
  {
    forall j | 0 <= j < 8
      ensures !MsbBit(0, j)
    {
    }
  }

  /** A byte whose bits are the intended ones is the reference packing of
      them. */
  lemma CollapsedIsPack(r: bv8, d: seq<bool>)
    requires |d| <= 8
    requires Collapsed(r, d, |d|)
    ensures r == Pack(Spread(d))
  {
    PackBits(Spread(d));
    ByteFromBits(r, Pack(Spread(d)));
  }

  /** `collapse_bits` on at most 8 values (more would overflow the shift
      `0xFF >> i`): the reference packing of the decisions, with the
      unvisited low bits repeating the last decision. */
  function CollapseBits(k: IntKind, items: seq<int>): (r: bv8)
    requires |items| <= 8
    ensures r == Pack(Spread(Decisions(k, items)))
  {
    CollapseStart(Decisions(k, items));
    CollapsedIsPack(CollapseFrom(k, items, 0, 0), Decisions(k, items));
    CollapseFrom(k, items, 0, 0)
  }

  /** Bit `j` of the collapsed byte is set exactly when item `j` lies strictly
      above the type's midpoint; on fewer than 8 items each bit past the
      items is set exactly when the last item is. */
  lemma CollapseBitsMsbFirst(k: IntKind, items: seq<int>)
    requires |items| <= 8
    ensures forall j :: 0 <= j < |items| ==> (MsbBit(CollapseBits(k, items), j) <==> items[j] > Midpoint(k))
    ensures forall j :: |items| <= j < 8 ==>
      (MsbBit(CollapseBits(k, items), j) <==> |items| > 0 && items[|items| - 1] > Midpoint(k))
  {
    PackBits(Spread(Decisions(k, items)));
  }

  /** The unit-test vectors of `collapse_bits`. */
  lemma CollapseBitsExamples()
    ensures CollapseBits(U8, [0, 0, 0, 0, 0, 0, 0, 0]) == 0
    ensures !CollapseBits(U8, [0, 0, 0, 0, 0, 0, 0, 0]) == 0xFF
    ensures CollapseBits(U8, [0, 255, 0, 0, 0, 255, 0, 255]) == 0x45
    ensures !CollapseBits(U8, [0, 255, 0, 0, 0, 255, 0, 255]) == 0xBA
    ensures CollapseBits(U8, [130, 150, 170, 180, 128, 200, 220, 240]) == 0xFF
  {
    var zeros := Decisions(U8, [0, 0, 0, 0, 0, 0, 0, 0]);
    assert Spread(zeros) == [false, false, false, false, false, false, false, false];
    var mixed := Decisions(U8, [0, 255, 0, 0, 0, 255, 0, 255]);
    assert Spread(mixed) == [false, true, false, false, false, true, false, true];
    var high := Decisions(U8, [130, 150, 170, 180, 128, 200, 220, 240]);
    assert Spread(high) == [true, true, true, true, true, true, true, true];
  }

  // ---------------------------------------------------------------------------
  // The length guard of collapse_bits

  /** The failure `collapse_bits` is meant to report. */
  datatype CollapseError = WrongLength(provided: int)

  const UsizeMax: int := 0xFFFF_FFFF_FFFF_FFFF

  /** Rust's `!` on a 64-bit `usize`: bitwise NOT, not logical negation. */
  function UsizeNot(n: nat): (r: nat)
    requires n <= UsizeMax
    ensures r + n == UsizeMax
  {
    UsizeMax - n
  }

  /** `collapse_bits` with its guard as written, `!items.len() == 8`, which
      compares the bitwise NOT of the length with 8. No length that reaches
      the loop makes it fire, so the error path is dead: a short input is
      collapsed without complaint. */
  function CollapseBitsAsWritten(k: IntKind, items: seq<int>): (r: Result<bv8, CollapseError>)
    requires |items| <= 8
    ensures r == Success(CollapseBits(k, items))
  {
    if UsizeNot(|items|) == 8 then Failure(WrongLength(|items|))
    else Success(CollapseBits(k, items))
  }

  /** Seven items pass the guard as written: the last item's bit is echoed
      into bit 0 instead of an error being returned. */
  lemma LengthGuardMissesSevenItems()
    ensures CollapseBitsAsWritten(U8, [0, 0, 0, 0, 0, 0, 255]) == Success(0x03)
  {
    var d := Decisions(U8, [0, 0, 0, 0, 0, 0, 255]);
    assert Spread(d) == [false, false, false, false, false, false, true, true];
  }

  /** `collapse_bits` with the guard evidently intended, `items.len() != 8`:
      it fails exactly on the wrong lengths (including the longer ones that
      would otherwise overflow the shift) and packs exactly 8 values MSB-first. */
  function CollapseBitsChecked(k: IntKind, items: seq<int>): (r: Result<bv8, CollapseError>)
    ensures r.Failure? <==> |items| != 8
    ensures r.Failure? ==> r.error == WrongLength(|items|)
    ensures r.Success? ==> forall j :: 0 <= j < 8 ==> (MsbBit(r.value, j) <==> items[j] > Midpoint(k))
  {
    if |items| != 8 then Failure(WrongLength(|items|))
    else
      CollapseBitsMsbFirst(k, items);
      Success(CollapseBits(k, items))
  }
  /** On eight items, the only length the frame builder passes, the guard as
      written and the intended guard agree. */
  lemma GuardsAgree(k: IntKind, items: seq<int>)
    requires |items| == 8
    ensures CollapseBitsAsWritten(k, items) == CollapseBitsChecked(k, items)
  {
  }


  // ---------------------------------------------------------------------------
  // Axis conversions

  /** `convert_for_dualshock`: `wrapping_shr(8)` is an arithmetic shift of the
      `i16` (the amount 8 is below 16, so nothing wraps), which floors; adding
      `0x80` in `i16` cannot overflow, and the `as u8` cast then keeps the value.
      The result is the high byte of the axis in offset-binary form: the one
      256-wide bucket of the shifted range 0..65535 that holds the axis. */
  function ConvertForDualShock(n: I16): (b: bv8)
    ensures (b as int) * 256 <= n - I16Min < (b as int) * 256 + 256
  {
    // Dafny's `/` floors when the divisor is positive, as the arithmetic shift does.
    var shifted: I16 := n / 256;
    var sum: I16 := shifted + 0x80;
    WrapU8(sum)
  }

  /** Centred, minimum and maximum axis values land on 0x80, 0x00 and 0xFF. */
  lemma ConvertForDualShockEndpoints()
    ensures ConvertForDualShock(0) == 0x80
    ensures ConvertForDualShock(I16Min) == 0x00
    ensures ConvertForDualShock(I16Max) == 0xFF
  {
  }

  /** The byte scaling preserves order. */
  lemma ConvertForDualShockMonotone(a: I16, b: I16)
    requires a <= b
    ensures ConvertForDualShock(a) <= ConvertForDualShock(b)
  {
  }

  /** `convert_half_axis_positive`: the positive half of an axis is stretched
      over the whole `i16` range. The doubling happens in `i32`, where it cannot
      overflow, the saturating add of `i16::MIN` never saturates, and the final
      `as i16` never truncates, so the middle of the range is exactly the linear
      map `2 * stick - 32768`. */
  function HalfAxisPositive(stick: I16): (r: I16)
    ensures stick == I16Max ==> r == I16Max
    ensures stick <= 0 ==> r == I16Min
    ensures 0 < stick < I16Max ==> r == 2 * stick + I16Min
  {
    if stick == I16Max then I16Max
    else if stick <= 0 then I16Min
    else WrapI16(SaturatingAddI32(stick * 2, I16Min))
  }

  /** The remap never reverses the order of two trigger positions. */
  lemma HalfAxisPositiveMonotone(a: I16, b: I16)
    requires a <= b
    ensures HalfAxisPositive(a) <= HalfAxisPositive(b)
  {
  }

  /** The remapped value is above the `i16` midpoint exactly when the input
      is past half of the positive range. */
  lemma HalfAxisPositiveAboveMidpoint(stick: I16)
    ensures HalfAxisPositive(stick) > Midpoint(I16Kind) <==> stick > 16384
  {
  }

  /** The unit-test vectors of `convert_half_axis_positive`. */
  lemma HalfAxisPositiveExamples()
    ensures HalfAxisPositive(I16Min) == I16Min
    ensures HalfAxisPositive(0) == I16Min
    ensures HalfAxisPositive(TruncDiv(I16Max, 2) + 1) == 0
    ensures HalfAxisPositive(I16Max) == I16Max
  {
  }

  /** `convert_half_axis_negative`: the negative half of an axis, mirrored.
      `saturating_add(1)` lifts the input to at least -32767, so the negation
      cannot overflow; the net effect is the positive remap applied to the
      bitwise complement `-1 - stick` of the input. */
  function HalfAxisNegative(stick: I16): (r: I16)
    ensures r == HalfAxisPositive(-1 - stick)
  {
    var bumped := SaturatingAddI16(stick, 1);
    HalfAxisPositive(-bumped)
  }

  /** Pushing the axis further negative never lowers the output. */
  lemma HalfAxisNegativeAntitone(a: I16, b: I16)
    requires a <= b
    ensures HalfAxisNegative(b) <= HalfAxisNegative(a)
  {
    HalfAxisPositiveMonotone(-1 - b, -1 - a);
  }

  /** The remapped value is above the `i16` midpoint exactly when the input
      is past half of the negative range. */
  lemma HalfAxisNegativeAboveMidpoint(stick: I16)
    ensures HalfAxisNegative(stick) > Midpoint(I16Kind) <==> stick < -16385
  {
    HalfAxisPositiveAboveMidpoint(-1 - stick);
  }

  /** The unit-test vectors of `convert_half_axis_negative`. */
  lemma HalfAxisNegativeExamples()
    ensures HalfAxisNegative(I16Max) == I16Min
    ensures HalfAxisNegative(0) == I16Min
    ensures HalfAxisNegative(TruncDiv(I16Min, 2) - 1) == 0
    ensures HalfAxisNegative(I16Min) == I16Max
  {
  }

  /** The unit-test vectors of `whats_the_midpoint_of_a` and `convert_button`. */
  lemma MidpointExamples()
    ensures Midpoint(U8) == 127 && Midpoint(I16Kind) == 0
    ensures ConvertButton(U8, true) == 255
    ensures ConvertForDualShock(ConvertButton(I16Kind, true) as I16) == 0xFF
    ensures ConvertForDualShock(ConvertButton(I16Kind, false) as I16) == 0x00
  {
    ConvertForDualShockEndpoints();
  }
}
