# omnishock protocol core in Dafny

This project models the protocol-translation core of omnishock's `src/main.rs`.
omnishock reads a game controller through SDL. It sends the controller state
over a serial line to a PlayStation 2 controller-emulator board. The model
covers four parts:

- **The value codec** (`codec.dfy`, with `integers.dfy` for Rust's fixed-width
  arithmetic):
  - `collapse_bits`, which packs eight values into a byte with a cumulative
    mask;
  - the generic midpoint `whats_the_midpoint_of_a`;
  - `convert_button`;
  - `convert_for_dualshock`;
  - the two half-axis (trigger) remaps.
- **The packet builder** (`packet.dfy`). `controller_map_twenty_byte` turns one
  controller snapshot into the 20-byte DualShock frame. The trigger mode
  decides where L2, R2, Cross, Square and the right stick's Y come from.
  `controller_map_seven_byte` is that frame's 7-byte prefix.
- **The session** (`session.dfy`):
  - `clear_serial_buffer`;
  - the dialect decision on the reply to the neutral probe in
    `send_to_ps2_controller_emulator_via`;
  - `send_event_to_controller`.

  Each call to the serial transport is replaced by its outcome, given as a
  parameter.
- **A result type** (`results.dfy`), shared by the modules above.

Modelling choices:

- Bytes are `bv8`.
- Rust's `i16` is the subset type `Integers.I16`. Every arithmetic result stored
  in an `I16` must be proved to fit, which shows that no overflow panic occurs.
- `as i16`, `as u8`, `saturating_add` and Rust's truncating `/` are written out
  explicitly.
- The controller is an immutable `Packet.Snapshot`: the set of held buttons
  and six `i16` axes.
- `normalise_stick` is a function parameter of type `Packet.Normaliser`.

## Model

| member | source | states |
|---|---|---|
| Integers.WrapI16 | src/main.rs:174 | `as i16` keeps the value modulo 2^16 and is the identity on values already in the `i16` range |
| Integers.SaturatingAddI32 | src/main.rs:174 | `i32::saturating_add` is the exact sum in range and clamps to the nearer bound outside it |
| Integers.SaturatingAddI16 | src/main.rs:178 | `i16::saturating_add` is the exact sum in range and clamps to the nearer bound outside it |
| Integers.WrapU8 | src/main.rs:162 | `as u8` is the identity on values already in 0..255, the only values the cast at line 162 receives |
| Integers.TruncDiv | src/main.rs:151 | Rust's integer division rounds toward zero, also for a negative dividend |
| Codec.Midpoint | src/main.rs:150-152 | the midpoint is in the type's range: 127 for `u8` and 0 (not -1) for `i16` |
| Codec.ConvertButton | src/main.rs:154-159 | a held button becomes the type's largest value and a released one its smallest; the midpoint threshold reads the button back |
| Codec.MaskBit | src/main.rs:137-144 | OR-ing `0xFF >> i` sets, and AND-NOT clears, exactly the bit positions from `i` down; the positions above `i` keep their value |
| Codec.CollapseStep | src/main.rs:136-145 | one iteration of the mask loop keeps its invariant: each visited position holds its item's decision, and every position below holds the last decision |
| Codec.CollapseFrom | src/main.rs:133-147 | the mask loop run from any state that meets the invariant ends with the invariant for all items |
| Codec.CollapsedIsPack | src/main.rs:133-147 | a byte whose eight bits are those the invariant prescribes is the reference MSB-first packing of those bits |
| Codec.CollapseBits | src/main.rs:121-148 | the cumulative-mask loop equals the reference MSB-first packing of the decisions; positions past the items repeat the last decision |
| Codec.CollapseBitsMsbFirst | src/main.rs:133-147 | bit `j` from the top is set iff item `j` is strictly above the midpoint; with fewer than 8 items, each remaining bit is set iff the last item is |
| Codec.CollapseBitsExamples | src/main.rs:746-766 | the unit-test vectors: all zeros give 0 (NOT gives 0xFF), `[0,255,0,0,0,255,0,255]` gives `0b01000101` (NOT gives `0b10111010`), all values above 127 give 0xFF |
| Codec.CollapseBitsAsWritten | src/main.rs:126-131 | the guard `!items.len() == 8` never fires on a length the loop can take, so every such input succeeds |
| Codec.LengthGuardMissesSevenItems | src/main.rs:126-131 | seven items pass the guard: `[0,0,0,0,0,0,255]` gives `Ok(0x03)` instead of an error |
| Codec.CollapseBitsChecked | src/main.rs:121-148 | with the intended guard: an error carrying the length iff the length is not 8; otherwise bit `j` from the top is set iff item `j` is above the midpoint |
| Codec.GuardsAgree | src/main.rs:126-131 | on exactly eight items the guard as written and the intended guard give the same result, so the builder's use of the intended guard matches the source |
| Codec.ConvertForDualShock | src/main.rs:161-163 | the byte is the 256-wide bucket of the offset-binary axis (`floor(n / 256) + 0x80`); the shift, the add and the `as u8` cast lose nothing |
| Codec.ConvertForDualShockEndpoints | src/main.rs:161-163 | 0 maps to 0x80, `i16::MIN` maps to 0x00, and `i16::MAX` maps to 0xFF |
| Codec.ConvertForDualShockMonotone | src/main.rs:161-163 | the byte scaling preserves order |
| Codec.HalfAxisPositive | src/main.rs:165-175 | `i16::MAX` is a fixed point and inputs up to 0 give `i16::MIN`; in between the result is exactly `2 * stick - 32768`, so the `i32` arithmetic and the `as i16` cast never overflow or truncate |
| Codec.HalfAxisPositiveMonotone | src/main.rs:165-175 | the remap is monotone non-decreasing |
| Codec.HalfAxisPositiveAboveMidpoint | src/main.rs:165-175 | the remapped value is above the `i16` midpoint iff the input is above 16384 |
| Codec.HalfAxisPositiveExamples | src/main.rs:770-783 | the unit-test vectors: MIN gives MIN, 0 gives MIN, MAX/2+1 gives 0, MAX gives MAX |
| Codec.HalfAxisNegative | src/main.rs:177-179 | defined on every `i16` without overflow; it equals the positive remap of `-1 - stick` |
| Codec.HalfAxisNegativeAntitone | src/main.rs:177-179 | pushing the axis further negative never lowers the output |
| Codec.HalfAxisNegativeAboveMidpoint | src/main.rs:177-179 | the remapped value is above the `i16` midpoint iff the input is below -16385 |
| Codec.HalfAxisNegativeExamples | src/main.rs:786-799 | the unit-test vectors: MAX gives MIN, 0 gives MIN, MIN/2-1 gives 0, MIN gives MAX |
| Codec.MidpointExamples | src/main.rs:801-820 | the `u8` and `i16` midpoint tests; `convert_button::<u8>(true)` is 255; a held button's pressure byte is 0xFF and a released one's is 0x00 |
| Packet.ParseTriggerMode | src/main.rs:244-265 | `"right-stick"` and `"cross-and-square"` select their modes, each iff the string is that name; any other string keeps the normal mapping |
| Packet.TriggersInSdlRangeNeverOverflow | src/main.rs:252-255 | with both triggers non-negative, the `i16` difference of the triggers cannot overflow |
| Packet.MapTwentyByte | src/main.rs:213-324 | the frame is 20 bytes; byte 0 is 0x5A; byte 19 is 0xAA iff Guide is held, and 0x55 iff it is not |
| Packet.MapSevenByte | src/main.rs:202-211 | the 7-byte frame is exactly the first seven bytes of the 20-byte frame for the same inputs |
| Packet.Assemble | src/main.rs:219-265 | for any way of reading a source, the routing of buttons and axes to emulated inputs, with each trigger mode's overrides, gives every emulated input the reading of its source in the mapping table; the sticks pass through |
| Packet.MapLevels | src/main.rs:219-265 | in every trigger mode, every emulated input's level is the level of its source in the mapping table; the sticks are the snapshot's, and in right-stick mode the right stick's Y is the trigger difference |
| Packet.ButtonByte | src/main.rs:302-303 | in a button byte (the NOT of the collapsed levels), bit `i` from the top is 0 iff level `i` is above the `i16` midpoint |
| Packet.Frame | src/main.rs:297-323 | a frame is 20 bytes: the magic 0x5A, the two button bytes in the orders Left..Select and Square..L2, the four scaled stick axes, the twelve scaled pressure levels in the order Right, Left, Up, Down, Triangle, Circle, Cross, Square, L1, R1, L2, R2, and the footer, 0xAA iff Guide is held |
| Packet.ButtonBytesFollowTable | src/main.rs:270-303 | each bit of bytes 1 and 2 is 0 (pressed) iff its input's source level in the mapping table is above the midpoint, in the orders Left..Select and Square..L2 |
| Packet.PressureBytesFollowTable | src/main.rs:309-321 | bytes 7 to 18 are the scaled source levels in the order Right, Left, Up, Down, Triangle, Circle, Cross, Square, L1, R1, L2, R2 |
| Packet.StickBytes | src/main.rs:267-308 | bytes 3 to 6 are the scaled normalised right and left sticks; the right stick's Y is replaced in right-stick mode |
| Packet.FrameSticks | src/main.rs:304-308 | the four stick bytes of a frame are the scaled right X, right Y, left X and left Y, in that order |
| Packet.HeldSourceLevel | src/main.rs:154-163 | a digital source counts as pressed iff its button is held; its pressure byte is 0xFF or 0x00 |
| Packet.HalfAxisSourceLevel | src/main.rs:165-179 | a trigger source counts as pressed once its axis is past half of its half of the range |
| Packet.ButtonByteOfLevels | src/main.rs:299-303 | a button byte is determined bit by bit by which of its eight levels count as pressed |
| Packet.ExampleInputLevel | src/main.rs:219-243 | with D-pad left and A held, the left trigger fully in and the right trigger released, exactly Left, Cross and L2 read as fully pressed in the normal mapping |
| Packet.ExampleButtonBytes | src/main.rs:270-303 | D-pad left, A and a fully pressed left trigger in normal mode give button bytes 0x7F and 0xBE |
| Packet.NeutralSourceLevel | src/main.rs:154-179 | at rest (nothing held, every axis 0) every source reads as released: `convert_button(false)` and both half-axis remaps of 0 give `i16::MIN` |
| Packet.NeutralSnapshotGivesProbe | src/main.rs:409-451 | in all three trigger modes, a controller at rest gives exactly the 20-byte neutral probe, and the 7-byte frame is its prefix, provided normalisation keeps (0, 0) |
| Session.ReadInto | src/main.rs:606-614 | a read overwrites a prefix of the buffer with the delivered bytes, never more than the buffer holds; the rest and a failed read leave it unchanged |
| Session.BytesRead | src/main.rs:606-614 | the reported count is at most the buffer length; it is 0 on a read error and otherwise the delivered length, capped at the buffer |
| Session.ClassifyResponse | src/main.rs:454-481 | TwentyByte iff the reply starts with 0x5A, SevenByte iff it starts with 'x', None otherwise, which includes a failed or empty read on the zeroed buffer |
| Session.ClearSerialBuffer | src/main.rs:326-349 | the drain stops at the first error: a timeout after only successful reads drains, any other error panics, and an all-success run is still draining |
| Session.Negotiate | src/main.rs:398-488 | a dialect is chosen iff both drains finish and the probe write succeeds; the dialect is the classification of the reply; the bytes written are a prefix of the probe, and all of it when the write takes 20 bytes |
| Session.SendEventToController | src/main.rs:586-651 | None writes nothing and only builds the 20-byte frame; SevenByte writes the 7-byte frame and warns iff the reply does not start with 'k'; TwentyByte writes the 20-byte frame; a write error propagates; a read error counts as 0 bytes |
| Session.UpdateWritesDialectFrame | src/main.rs:597-640 | an update fails only on a write error; a successful one writes 0, 7 or 20 bytes according to the dialect, always a prefix of the 20-byte frame |
| Session.RestingUpdateRepeatsProbe | src/main.rs:402-626 | after a whole probe write and a reply starting with 0x5A, the session runs the 20-byte dialect, and an update of a resting controller repeats the probe exactly |

## Left out

- `normalise_stick` (src/main.rs:181-200) is a floating-point polar rescaling with a print. It is not modelled. The builder takes it as the parameter `normalise`. The neutral-probe lemmas assume only that it maps (0, 0) to (0, 0).
- `src/sdl_manager.rs` is not part of this model. It covers SDL initialisation, the controller registry and the rumble wrapper. `Packet.Snapshot` stands in for what the builder reads from a controller.
- Opening and configuring the serial port, the CLI, `print_events`, verbose and hex logging, and the "Unrecognised response" message are not modelled. They are I/O or output only.
- The SDL event loop is not modelled. It has a 500 ms wait, only controller 0's input events trigger a send, and a timeout forces an update only in the 20-byte dialect when controller 0 is present (src/main.rs:498-581). It is scheduling around the core, not translation logic.
- The `f32`, `u64` and `i64` instances of `whats_the_midpoint_of_a` are left out. Only the `i16` instance the builder uses and the `u8` instance the unit tests exercise are modelled, through `Codec.IntKind`.
- Idempotence of frame building is not stated as a lemma. It holds by construction, because every operation is a pure function of its inputs.
- Packet.MapTwentyByte requires `NoTriggerOverflow`. In right-stick mode the `i16` difference of the triggers overflows outside that range. A debug build then panics and a release build wraps. `Packet.TriggersInSdlRangeNeverOverflow` shows that the precondition holds for the trigger values SDL reports, which are 0..32767.
- Integers.WrapU8 does not state the wrap-around of values outside 0..255. The body computes `x % 0x100`, but the contract says only that values in 0..255 pass unchanged. The cast at src/main.rs:162 only ever receives such values (the sum `n / 256 + 0x80` in `Codec.ConvertForDualShock` always lies in 0..255), and the bit-vector conversion fact for the general case is beyond the solver's budget here.
- Codec.CollapseBits requires at most 8 items. On a ninth item, `0xFF >> 8` overflows the shift, which panics in a debug build. The guarded `Codec.CollapseBitsChecked` has no precondition.
- Codec.CollapseBitsAsWritten assumes a 64-bit `usize` for the bitwise NOT in the guard.
- Session.SendEventToController does not model the transport's internal state between calls. Each write and read is one outcome parameter.

### Behaviour of the source worth noting

- **No rumble.** `src/main.rs` never drives rumble: the controller emulator's reply is only read and logged.
- **Write errors are fatal.** A `write_all` error propagates with `?` and ends the session. Only read errors are swallowed, counted as 0 bytes.
- **The drain panics.** A non-timeout error while clearing the serial buffer panics.
- **Normalisation is unconditional.** `normalise_stick` is applied to both sticks on every frame.
- **Half-axis arithmetic.** The positive half-axis remap doubles the stick in `i32` and then adds `i16::MIN`, which gives `2 * stick - 32768` on the open interval.

## Findings

| source | as written | input that shows it | evidently intended | confidence | as-written member | corrected member |
|---|---|---|---|---|---|---|
| src/main.rs:126-131 | `if !items.len() == 8` takes the bitwise NOT of the length, which equals 8 only for a length of `usize::MAX - 8`, so the error path is dead | `collapse_bits::<u8>(&[0, 0, 0, 0, 0, 0, 255])` returns `Ok(0x03)`: the last item is echoed into bit 0 instead of an error | `if items.len() != 8`, an error naming the length for any length other than 8 | high; not executed | Codec.CollapseBitsAsWritten (counterexample: Codec.LengthGuardMissesSevenItems) | Codec.CollapseBitsChecked |

The frame builder (`Packet.ButtonByte`) uses `Codec.CollapseBitsChecked`. It
always passes eight levels, and on eight items both guards agree
(`Codec.GuardsAgree`).
