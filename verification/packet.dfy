/** The packet builder of `src/main.rs`: one controller snapshot becomes the
    20-byte frame of the DualShock-style emulator firmware, whose first seven
    bytes are the 7-byte frame. */
module Packet {
  import opened Integers
  import opened Codec

  const DualShockMagic: bv8 := 0x5A
  const FooterGuideHeld: bv8 := 0xAA
  const FooterNormal: bv8 := 0x55

  /** The buttons the builder reads from the SDL game controller. */
  datatype Button =
    | DPadLeft | DPadDown | DPadRight | DPadUp
    | Start | Back | LeftStick | RightStick
    | A | B | X | Y | LeftShoulder | RightShoulder
    | Guide

  /** The axes the builder reads. */
  datatype Axis = LeftX | LeftY | RightX | RightY | TriggerLeft | TriggerRight

  /** A read-only view of one controller at one instant: which buttons are
      held and where the six axes are. */
  datatype Snapshot = Snapshot(
    held: set<Button>,
    leftX: I16, leftY: I16,
    rightX: I16, rightY: I16,
    triggerLeft: I16, triggerRight: I16)
  {
    function AxisValue(a: Axis): I16 {
      match a
      case LeftX => leftX
      case LeftY => leftY
      case RightX => rightX
      case RightY => rightY
      case TriggerLeft => triggerLeft
      case TriggerRight => triggerRight
    }
  }

  /** The snapshot of a controller at rest: nothing held, every axis 0. */
  const Neutral := Snapshot({}, 0, 0, 0, 0, 0, 0)

  /** Where L2, R2, Cross, Square and the right stick's Y come from. */
  datatype TriggerMode = Normal | RightStickAsTrigger | CrossAndSquare

  /** The `--trigger-mode` string as the builder matches it: any string other
      than the two special names leaves the normal mapping. */
  function ParseTriggerMode(name: string): (m: TriggerMode)
    ensures m == RightStickAsTrigger <==> name == "right-stick"
    ensures m == CrossAndSquare <==> name == "cross-and-square"
  {
    if name == "right-stick" then RightStickAsTrigger
    else if name == "cross-and-square" then CrossAndSquare
    else Normal
  }

  /** `normalise_stick`, a floating-point polar rescaling that is not
      modelled: the builder takes it as a parameter. */
  type Normaliser = (I16, I16) -> (I16, I16)

  /** In right-stick mode the right stick's Y is the `i16` difference of the
      two trigger axes, which overflows (a panic in a debug build) unless it
      fits. */
  predicate NoTriggerOverflow(s: Snapshot, mode: TriggerMode) {
    mode == RightStickAsTrigger ==> I16Min <= s.triggerLeft - s.triggerRight <= I16Max
  }

  /** SDL reports triggers in 0..32767, where the difference always fits. */
  lemma TriggersInSdlRangeNeverOverflow(s: Snapshot, mode: TriggerMode)
    requires s.triggerLeft >= 0 && s.triggerRight >= 0
    ensures NoTriggerOverflow(s, mode)
  {
  }

  /** Where an emulated input takes its level from: a button through
      `convert_button`, or an axis through one of the half-axis remaps. */
  datatype Source = Held(button: Button) | HalfPositive(axis: Axis) | HalfNegative(axis: Axis)

  function Level(s: Snapshot, src: Source): I16 {
    match src
    case Held(b) => ConvertButton(I16Kind, b in s.held)
    case HalfPositive(a) => HalfAxisPositive(s.AxisValue(a))
    case HalfNegative(a) => HalfAxisNegative(s.AxisValue(a))
  }


  /** The `i16` values the builder computes before packing: the sixteen
      emulated button levels and the four stick axes (before normalisation). */
  datatype Levels = Levels(
    left: I16, down: I16, right: I16, up: I16,
    start: I16, r3: I16, l3: I16, select: I16,
    square: I16, cross: I16, circle: I16, triangle: I16,
    r1: I16, l1: I16, r2: I16, l2: I16,
    rightX: I16, rightY: I16, leftX: I16, leftY: I16)

  /** The input routing of `controller_map_twenty_byte` for any way `level`
      of reading a source, written once more so that its agreement with the
      mapping table `SourceOf` is a matter of routing alone. */
  function Assemble(level: Source -> I16, mode: TriggerMode,
                    rightX: I16, rightY: I16, leftX: I16, leftY: I16): (v: Levels)
    ensures forall input: PadInput :: LevelOf(v, input) == level(SourceOf(input, mode))
    ensures v.rightX == rightX && v.rightY == rightY && v.leftX == leftX && v.leftY == leftY
  {
    var normal := Levels(
      level(Held(DPadLeft)), level(Held(DPadDown)), level(Held(DPadRight)), level(Held(DPadUp)),
      level(Held(Start)), level(Held(RightStick)), level(Held(LeftStick)), level(Held(Back)),
      level(Held(X)), level(Held(A)), level(Held(B)), level(Held(Y)),
      level(Held(RightShoulder)), level(Held(LeftShoulder)),
      level(HalfPositive(TriggerRight)), level(HalfPositive(TriggerLeft)),
      rightX, rightY, leftX, leftY);
    match mode
    case Normal => normal
    case RightStickAsTrigger =>
      normal.(l2 := level(HalfNegative(RightY)), r2 := level(HalfPositive(RightY)),
              cross := level(Held(A)), square := level(Held(X)))
    case CrossAndSquare =>
      normal.(l2 := level(Held(A)), r2 := level(Held(X)),
              cross := level(HalfPositive(TriggerRight)), square := level(HalfPositive(TriggerLeft)))
  }

  /** The level computation of `controller_map_twenty_byte`: the normal
      mapping, then the trigger mode's overrides. Every emulated input takes
      the level of its source in the mapping table `SourceOf`, and the sticks
      are the snapshot's, with the right stick's Y replaced by the trigger
      difference in right-stick mode. */
  function MapLevels(s: Snapshot, mode: TriggerMode): (v: Levels)
    requires NoTriggerOverflow(s, mode)
    ensures forall input: PadInput :: LevelOf(v, input) == Level(s, SourceOf(input, mode))
    ensures v.rightX == s.rightX && v.rightY == RightStickY(s, mode)
    ensures v.leftX == s.leftX && v.leftY == s.leftY
  {
    var normal := Levels(
      Level(s, Held(DPadLeft)), Level(s, Held(DPadDown)), Level(s, Held(DPadRight)), Level(s, Held(DPadUp)),
      Level(s, Held(Start)), Level(s, Held(RightStick)), Level(s, Held(LeftStick)), Level(s, Held(Back)),
      Level(s, Held(X)), Level(s, Held(A)), Level(s, Held(B)), Level(s, Held(Y)),
      Level(s, Held(RightShoulder)), Level(s, Held(LeftShoulder)),
      Level(s, HalfPositive(TriggerRight)), Level(s, HalfPositive(TriggerLeft)),
      s.rightX, s.rightY, s.leftX, s.leftY);
    var v := match mode
      case Normal => normal
      case RightStickAsTrigger =>
        normal.(l2 := Level(s, HalfNegative(RightY)), r2 := Level(s, HalfPositive(RightY)),
                cross := Level(s, Held(A)), square := Level(s, Held(X)),
                rightY := s.triggerLeft - s.triggerRight)
      case CrossAndSquare =>
        normal.(l2 := Level(s, Held(A)), r2 := Level(s, Held(X)),
                cross := Level(s, HalfPositive(TriggerRight)), square := Level(s, HalfPositive(TriggerLeft)));
    assert v == Assemble(src => Level(s, src), mode, s.rightX, RightStickY(s, mode), s.leftX, s.leftY);
    v
  }

  /** The emulated inputs of the DualShock that the button and pressure
      bytes carry. */
  datatype PadInput =
    | PadLeft | PadDown | PadRight | PadUp | PadStart | PadR3 | PadL3 | PadSelect
    | Square | Cross | Circle | Triangle | R1 | L1 | R2 | L2

  /** Bit order of the two button bytes, most significant first. */
  const ButtonsOneOrder: seq<PadInput> := [PadLeft, PadDown, PadRight, PadUp, PadStart, PadR3, PadL3, PadSelect]
  const ButtonsTwoOrder: seq<PadInput> := [Square, Cross, Circle, Triangle, R1, L1, R2, L2]

  /** Order of the twelve pressure bytes, frame positions 7 to 18. */
  const PressureOrder: seq<PadInput> := [PadRight, PadLeft, PadUp, PadDown, Triangle, Circle, Cross, Square, L1, R1, L2, R2]

  /** The level the builder computed for one emulated input. */
  function LevelOf(v: Levels, input: PadInput): I16 {
    match input
    case PadLeft => v.left
    case PadDown => v.down
    case PadRight => v.right
    case PadUp => v.up
    case PadStart => v.start
    case PadR3 => v.r3
    case PadL3 => v.l3
    case PadSelect => v.select
    case Square => v.square
    case Cross => v.cross
    case Circle => v.circle
    case Triangle => v.triangle
    case R1 => v.r1
    case L1 => v.l1
    case R2 => v.r2
    case L2 => v.l2
  }

  function Pick(v: Levels, order: seq<PadInput>): (levels: seq<I16>)
    ensures |levels| == |order|
    ensures forall i :: 0 <= i < |order| ==> levels[i] == LevelOf(v, order[i])
  {
    seq(|order|, i requires 0 <= i < |order| => LevelOf(v, order[i]))
  }

  /** The twelve pressure bytes: each input's level scaled to a byte. */
  function Pressures(v: Levels): (bytes: seq<bv8>)
    ensures |bytes| == 12
    ensures forall i :: 0 <= i < 12 ==> bytes[i] == ConvertForDualShock(LevelOf(v, PressureOrder[i]))
  {
    seq(12, i requires 0 <= i < 12 => ConvertForDualShock(LevelOf(v, PressureOrder[i])))
  }

  /** A byte of eight button levels: collapsed, then inverted because the
      DualShock protocol uses 0 for pressed. Bit `i` from the most
      significant end is clear exactly when level `i` is above the `i16`
      midpoint 0, that is, when the input counts as pressed. */
  function ButtonByte(levels: seq<I16>): (r: bv8)
    requires |levels| == 8
    ensures forall i :: 0 <= i < 8 ==> (MsbBit(r, i) <==> levels[i] <= 0)
  {
    var c := CollapseBitsChecked(I16Kind, levels).value;
    assert forall i :: 0 <= i < 8 ==> (MsbBit(!c, i) <==> levels[i] <= 0) by {
      forall i | 0 <= i < 8
        ensures MsbBit(!c, i) <==> levels[i] <= 0
      {
        BitNot(c, i);
      }
    }
    !c
  }

  /** The layout of a frame: magic, two button bytes, four stick bytes,
      twelve pressure bytes, and the footer. */
  function Frame(v: Levels, right: (I16, I16), left: (I16, I16), guideHeld: bool): (frame: seq<bv8>)
    ensures |frame| == 20
    ensures frame[0] == DualShockMagic
    ensures frame[1] == ButtonByte(Pick(v, ButtonsOneOrder))
    ensures frame[2] == ButtonByte(Pick(v, ButtonsTwoOrder))
    ensures frame[3] == ConvertForDualShock(right.0) && frame[4] == ConvertForDualShock(right.1)
    ensures frame[5] == ConvertForDualShock(left.0) && frame[6] == ConvertForDualShock(left.1)
    ensures frame[7..19] == Pressures(v)
    ensures frame[19] == if guideHeld then FooterGuideHeld else FooterNormal
  {
    [ DualShockMagic,
      ButtonByte(Pick(v, ButtonsOneOrder)),
      ButtonByte(Pick(v, ButtonsTwoOrder)),
      ConvertForDualShock(right.0), ConvertForDualShock(right.1),
      ConvertForDualShock(left.0), ConvertForDualShock(left.1) ]
    + Pressures(v)
    + [ if guideHeld then FooterGuideHeld else FooterNormal ]
  }

  /** `controller_map_twenty_byte`. The listing order of the source's
      vectors is the order of `ButtonsOneOrder`, `ButtonsTwoOrder` and
      `PressureOrder`. */
  function MapTwentyByte(s: Snapshot, triggerMode: string, normalise: Normaliser): (frame: seq<bv8>)
    requires NoTriggerOverflow(s, ParseTriggerMode(triggerMode))
    ensures |frame| == 20
    ensures frame[0] == DualShockMagic
    ensures frame[19] == FooterGuideHeld <==> Guide in s.held
    ensures frame[19] == FooterNormal <==> Guide !in s.held
  {
    var v := MapLevels(s, ParseTriggerMode(triggerMode));
    Frame(v, normalise(v.rightX, v.rightY), normalise(v.leftX, v.leftY), Guide in s.held)
  }

  /** `controller_map_seven_byte`: the 20-byte frame cut after the stick
      bytes, so the two dialects can never disagree on the shared part. */
  function MapSevenByte(s: Snapshot, triggerMode: string, normalise: Normaliser): (frame: seq<bv8>)
    requires NoTriggerOverflow(s, ParseTriggerMode(triggerMode))
    ensures |frame| == 7
    ensures frame[0] == DualShockMagic
    ensures forall i :: 0 <= i < 7 ==> frame[i] == MapTwentyByte(s, triggerMode, normalise)[i]
  {
    MapTwentyByte(s, triggerMode, normalise)[..7]
  }

  // ---------------------------------------------------------------------------
  // The mapping table, stated independently of the builder

  /** The source of each emulated input in each trigger mode. */
  function SourceOf(input: PadInput, mode: TriggerMode): Source {
    match input
    case PadLeft => Held(DPadLeft)
    case PadDown => Held(DPadDown)
    case PadRight => Held(DPadRight)
    case PadUp => Held(DPadUp)
    case PadStart => Held(Start)
    case PadR3 => Held(RightStick)
    case PadL3 => Held(LeftStick)
    case PadSelect => Held(Back)
    case Circle => Held(B)
    case Triangle => Held(Y)
    case R1 => Held(RightShoulder)
    case L1 => Held(LeftShoulder)
    case Square => if mode == CrossAndSquare then HalfPositive(TriggerLeft) else Held(X)
    case Cross => if mode == CrossAndSquare then HalfPositive(TriggerRight) else Held(A)
    case L2 =>
      (match mode
       case Normal => HalfPositive(TriggerLeft)
       case RightStickAsTrigger => HalfNegative(RightY)
       case CrossAndSquare => Held(A))
    case R2 =>
      (match mode
       case Normal => HalfPositive(TriggerRight)
       case RightStickAsTrigger => HalfPositive(RightY)
       case CrossAndSquare => Held(X))
  }

  /** The right stick's Y axis as the frame sees it, before normalisation. */
  function RightStickY(s: Snapshot, mode: TriggerMode): I16
    requires NoTriggerOverflow(s, mode)
  {
    if mode == RightStickAsTrigger then s.triggerLeft - s.triggerRight else s.rightY
  }

  /** Every bit of the two button bytes follows the mapping table: it is 0
      (pressed) exactly when the input's source level is above the midpoint. */
  lemma ButtonBytesFollowTable(s: Snapshot, triggerMode: string, normalise: Normaliser)
    requires NoTriggerOverflow(s, ParseTriggerMode(triggerMode))
    ensures var frame := MapTwentyByte(s, triggerMode, normalise);
      var mode := ParseTriggerMode(triggerMode);
      && (forall i :: 0 <= i < 8 ==>
            (MsbBit(frame[1], i) <==> Level(s, SourceOf(ButtonsOneOrder[i], mode)) <= 0))
      && (forall i :: 0 <= i < 8 ==>
            (MsbBit(frame[2], i) <==> Level(s, SourceOf(ButtonsTwoOrder[i], mode)) <= 0))
  {
    var mode := ParseTriggerMode(triggerMode);
    var v := MapLevels(s, mode);
    assert ButtonByte(Pick(v, ButtonsOneOrder)) == MapTwentyByte(s, triggerMode, normalise)[1];
    assert ButtonByte(Pick(v, ButtonsTwoOrder)) == MapTwentyByte(s, triggerMode, normalise)[2];
  }

  /** Every pressure byte follows the mapping table: it is the scaled level
      of the input's source. */
  lemma PressureBytesFollowTable(s: Snapshot, triggerMode: string, normalise: Normaliser)
    requires NoTriggerOverflow(s, ParseTriggerMode(triggerMode))
    ensures var frame := MapTwentyByte(s, triggerMode, normalise);
      var mode := ParseTriggerMode(triggerMode);
      forall i :: 0 <= i < 12 ==>
        frame[7 + i] == ConvertForDualShock(Level(s, SourceOf(PressureOrder[i], mode)))
  {
    var mode := ParseTriggerMode(triggerMode);
    var v := MapLevels(s, mode);
    assert Pressures(v) == MapTwentyByte(s, triggerMode, normalise)[7..19];
  }

  /** The four stick bytes are the scaled, normalised sticks; in right-stick
      mode the right stick's Y is replaced by the trigger difference. */
  lemma StickBytes(s: Snapshot, triggerMode: string, normalise: Normaliser)
    requires NoTriggerOverflow(s, ParseTriggerMode(triggerMode))
    ensures var frame := MapTwentyByte(s, triggerMode, normalise);
      var right := normalise(s.rightX, RightStickY(s, ParseTriggerMode(triggerMode)));
      var left := normalise(s.leftX, s.leftY);
      frame[3..7] == [ConvertForDualShock(right.0), ConvertForDualShock(right.1),
                      ConvertForDualShock(left.0), ConvertForDualShock(left.1)]
  {
    var mode := ParseTriggerMode(triggerMode);
    var v := MapLevels(s, mode);
    var right := normalise(v.rightX, v.rightY);
    var left := normalise(v.leftX, v.leftY);
    assert MapTwentyByte(s, triggerMode, normalise) == Frame(v, right, left, Guide in s.held);
    FrameSticks(v, right, left, Guide in s.held);
  }

  /** The stick bytes of a frame, as one slice. */
  lemma FrameSticks(v: Levels, right: (I16, I16), left: (I16, I16), guideHeld: bool)
    ensures Frame(v, right, left, guideHeld)[3..7] ==
      [ConvertForDualShock(right.0), ConvertForDualShock(right.1),
       ConvertForDualShock(left.0), ConvertForDualShock(left.1)]
  {
    var frame := Frame(v, right, left, guideHeld);
    assert frame[3..7] == [frame[3], frame[4], frame[5], frame[6]];
  }

  /** A digital source reads as pressed exactly when its button is held, and
      its pressure byte is all-or-nothing. */
  lemma HeldSourceLevel(s: Snapshot, b: Button)
    ensures Level(s, Held(b)) > 0 <==> b in s.held
    ensures ConvertForDualShock(Level(s, Held(b))) == if b in s.held then 0xFF else 0x00
  {
    ConvertForDualShockEndpoints();
  }

  /** An analog source reads as pressed once its axis is past half of its
      half of the range. */
  lemma HalfAxisSourceLevel(s: Snapshot, a: Axis)
    ensures Level(s, HalfPositive(a)) > 0 <==> s.AxisValue(a) > 16384
    ensures Level(s, HalfNegative(a)) > 0 <==> s.AxisValue(a) < -16385
  {
    HalfAxisPositiveAboveMidpoint(s.AxisValue(a));
    HalfAxisNegativeAboveMidpoint(s.AxisValue(a));
  }

  /** The button byte of eight levels, bit by bit from its pressed inputs. */
  lemma ButtonByteOfLevels(levels: seq<I16>, expected: bv8)
    requires |levels| == 8
    requires forall i :: 0 <= i < 8 ==> (MsbBit(expected, i) <==> levels[i] <= 0)
    ensures ButtonByte(levels) == expected
  {
    ByteFromBits(ButtonByte(levels), expected);
  }

  /** D-pad left and A held, the left trigger fully in, the right trigger
      released, normal trigger mode, sticks anywhere. */
  predicate IsExample(s: Snapshot, triggerMode: string) {
    && s.held == {DPadLeft, A}
    && s.triggerLeft == I16Max && s.triggerRight == 0
    && ParseTriggerMode(triggerMode) == Normal
  }

  /** In that state exactly Left (the held D-pad left), Cross (the held A)
      and L2 (the left trigger) read as fully pressed in the normal mapping;
      every other input reads as released. */
  lemma ExampleInputLevel(s: Snapshot, triggerMode: string, input: PadInput)
    requires IsExample(s, triggerMode)
    ensures Level(s, SourceOf(input, Normal)) == if input in {PadLeft, Cross, L2} then I16Max else I16Min
  {
  }

  lemma ExampleLevels(s: Snapshot, triggerMode: string)
    requires IsExample(s, triggerMode)
    ensures var v := MapLevels(s, Normal);
      && Pick(v, ButtonsOneOrder) == [I16Max, I16Min, I16Min, I16Min, I16Min, I16Min, I16Min, I16Min]
      && Pick(v, ButtonsTwoOrder) == [I16Min, I16Max, I16Min, I16Min, I16Min, I16Min, I16Min, I16Max]
  {
    var v := MapLevels(s, Normal);
    var one := [I16Max, I16Min, I16Min, I16Min, I16Min, I16Min, I16Min, I16Min];
    var two := [I16Min, I16Max, I16Min, I16Min, I16Min, I16Min, I16Min, I16Max];
    forall i | 0 <= i < 8
      ensures Pick(v, ButtonsOneOrder)[i] == one[i]
      ensures Pick(v, ButtonsTwoOrder)[i] == two[i]
    {
      ExampleInputLevel(s, triggerMode, ButtonsOneOrder[i]);
      ExampleInputLevel(s, triggerMode, ButtonsTwoOrder[i]);
    }
  }

  /** With D-pad left and A held, the left trigger fully in, the right
      trigger released and normal mode, only Left's bit is cleared in the
      first button byte and only Cross's and L2's in the second. */
  lemma ExampleButtonBytes(s: Snapshot, triggerMode: string, normalise: Normaliser)
    requires IsExample(s, triggerMode)
    ensures var frame := MapTwentyByte(s, triggerMode, normalise);
      frame[1] == 0x7F && frame[2] == 0xBE
  {
    var v := MapLevels(s, Normal);
    var frame := Frame(v, normalise(v.rightX, v.rightY), normalise(v.leftX, v.leftY), Guide in s.held);
    assert MapTwentyByte(s, triggerMode, normalise) == frame;
    ExampleLevels(s, triggerMode);
    ButtonByteOfLevels(Pick(v, ButtonsOneOrder), 0x7F);
    ButtonByteOfLevels(Pick(v, ButtonsTwoOrder), 0xBE);
  }

  /** The neutral probe the session sends before it knows the dialect: all
      buttons released (1 bits), sticks centred, no pressure, normal mode. */
  const NeutralProbe: seq<bv8> := [
    0x5A, 0xFF, 0xFF,
    0x80, 0x80, 0x80, 0x80,
    0x00, 0x00, 0x00, 0x00, 0x00, 0x00, 0x00, 0x00, 0x00, 0x00, 0x00, 0x00,
    0x55]

  /** At rest every source reads as released: no button is held, and both
      half-axis remaps send 0 to the bottom of the range. */
  lemma NeutralSourceLevel(src: Source)
    ensures Level(Neutral, src) == I16Min
  {
  }

  /** At rest every emulated input is released and every stick centred, in
      every trigger mode. */
  lemma NeutralLevels(mode: TriggerMode)
    ensures forall input :: LevelOf(MapLevels(Neutral, mode), input) == I16Min
    ensures var v := MapLevels(Neutral, mode);
      v.rightX == 0 && v.rightY == 0 && v.leftX == 0 && v.leftY == 0
  {
    var v := MapLevels(Neutral, mode);
    forall input: PadInput
      ensures LevelOf(v, input) == I16Min
    {
      NeutralSourceLevel(SourceOf(input, mode));
    }
  }

  /** Eight released levels give the all-ones button byte. */
  lemma ReleasedButtonByte(levels: seq<I16>)
    requires |levels| == 8
    requires forall i :: 0 <= i < 8 ==> levels[i] == I16Min
    ensures ButtonByte(levels) == 0xFF
  {
    AllBitsSet(ButtonByte(levels));
  }

  lemma NeutralHead(triggerMode: string, normalise: Normaliser)
    requires normalise(0, 0) == (0, 0)
    ensures MapTwentyByte(Neutral, triggerMode, normalise)[..7] == NeutralProbe[..7]
  {
    var v := MapLevels(Neutral, ParseTriggerMode(triggerMode));
    NeutralLevels(ParseTriggerMode(triggerMode));
    ReleasedButtonByte(Pick(v, ButtonsOneOrder));
    ReleasedButtonByte(Pick(v, ButtonsTwoOrder));
    ConvertForDualShockEndpoints();
  }

  lemma NeutralPressures(mode: TriggerMode)
    ensures Pressures(MapLevels(Neutral, mode)) == NeutralProbe[7..19]
  {
    var p := Pressures(MapLevels(Neutral, mode));
    NeutralLevels(mode);
    ConvertForDualShockEndpoints();
    forall i | 0 <= i < 12
      ensures p[i] == 0
    {
      assert p[i] == ConvertForDualShock(I16Min);
    }
    assert NeutralProbe[7..19] == [0, 0, 0, 0, 0, 0, 0, 0, 0, 0, 0, 0];
  }

  /** Building the frame of a controller at rest gives exactly the probe, in
      every trigger mode, provided the normalisation keeps the centre. */
  lemma NeutralSnapshotGivesProbe(triggerMode: string, normalise: Normaliser)
    requires normalise(0, 0) == (0, 0)
    ensures MapTwentyByte(Neutral, triggerMode, normalise) == NeutralProbe
    ensures MapSevenByte(Neutral, triggerMode, normalise) == NeutralProbe[..7]
  {
    var mode := ParseTriggerMode(triggerMode);
    var v := MapLevels(Neutral, mode);
    var frame := MapTwentyByte(Neutral, triggerMode, normalise);
    assert frame == Frame(v, normalise(v.rightX, v.rightY), normalise(v.leftX, v.leftY), false);
    NeutralHead(triggerMode, normalise);
    NeutralPressures(mode);
    forall i | 0 <= i < 20
      ensures frame[i] == NeutralProbe[i]
    {
      if i < 7 {
        assert frame[..7][i] == NeutralProbe[..7][i];
      } else if i < 19 {
        assert frame[7..19][i - 7] == NeutralProbe[7..19][i - 7];
      }
    }
  }
}
