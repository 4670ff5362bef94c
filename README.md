# Charlieplexed LED-matrix driver, modelled in Dafny

The library drives an N x (N-1) matrix of diodes (usually LEDs) from N tri-state
Arduino lines. Each node is an ordered pair of distinct lines. The *vcc* line is
driven high and the *gnd* line is driven low, and every other line floats. At most
one node is lit at a time; the driver calls it the *active node*.

The repository ships the driver in three variants.

- `src/MatrixCharlieplex.cpp` is the **batched** driver.
  `libraries/Arduino-Charlieplexing/src/MatrixCharlieplex.cpp` is the same code with
  the comments stripped: every statement is the same, from line 50 of the library
  copy onward (line 54 of the src copy). The batched driver stages pin roles as bits
  in four two-byte arrays (`_exeDDRUp/Dn`, `_exePORTUp/Dn`). It then commits them
  to the AVR registers as `reg & Dn | Up`. It supports common-anode and
  common-cathode grids. One model covers both copies: module `BatchedCharlieplex`.
- The top-level `MatrixCharlieplex.cpp` is the **legacy** driver. It is common-anode
  only, and it sets each line with `pinMode`/`digitalWrite`. This model keeps those
  writes as the role each Arduino pin number is left in: module `LegacyCharlieplex`.
- `libraries/Arduino-Charlieplexing/src/MatrixCharlieplex.h` gives the value types
  and constants: module `CharlieTypes`.

The files are organised as follows.

| file | module | what it holds |
|---|---|---|
| `types.dfy` | `CharlieTypes` | `DiodeNode`, `BitMan`, pin roles, the state / polarity / Up-mask constants |
| `address_map.dfy` | `AddressMap` | both `_getNode` overloads, their agreement, and the index bijection |
| `bit_batch.dfy` | `BitBatch` | `_getBitMan`, `bitSet`/`bitClear` on two-byte arrays, pin roles read from DDR/PORT bits, the `_execute` commit, the start-up baseline |
| `node_logic.dfy` | `NodeLogic` | the decisions `_setNode` makes: the deactivation classification, the roles activation stages, and "only the active node conducts" |
| `batched.dfy` | `BatchedCharlieplex` | class `MatrixCharlieplex`: registers `DDRD/DDRB/PORTD/PORTB` as `bv8` fields, the six batch arrays as `array<bv8>`, and every method of the driver |
| `legacy.dfy` | `LegacyCharlieplex` | the legacy variant: class `MatrixCharlieplex` over a 256-entry role map, plus its two defects |

The batched class keeps the invariant `Valid`, which has four parts.

- The Dn arrays hold the start-up baseline. In that baseline the bit of every
  configured pin is 0.
- The Up arrays stage exactly the active node. While inactive, they stage nothing.
- The state flag agrees with the recorded node.
- The registers hold the last commit.

Every public method preserves `Valid`. `OnlyActiveLit` and `ConfiguredRoles` turn
it into the property the driver exists for. In the registers, a configured node
conducts exactly when it is the active node. The active vcc is high and the active
gnd is low. Every other configured line floats. Pins below 14 that are not part of
the matrix keep their register bits through every operation (`Untouched`).

Where the written description of the library and the code differ, the model
follows the code.

- The grid diagram in the header comment of src/MatrixCharlieplex.cpp (lines 14-22) numbers the cathode columns 1..N and marks the diagonal, where row and column are the same line, as unusable; that reads as columns 1..N with the row's own line skipped. The
  code maps column `col` to line `col - 1` left of the diagonal and `col` right of
  it. So columns run over 1..N-1, and column N would index past the pin array. The
  model requires `1 <= col < N`.
- The header declares `TurnOn`/`TurnOff`/`Clear`/`Reset`. The batched `.cpp` files
  define `turnOn`/`turnOff`/`clear`/`reset`. The model uses the `.cpp` behaviour
  under the header's capitalised names.

## Model

| member | source | states |
|---|---|---|
| AddressMap.RowColLines | src/MatrixCharlieplex.cpp:299-300 | for row in 1..N and col in 1..N-1, the row line and the column line are distinct lines below N; the row line is row-1, and the column is recovered from the column line by skipping the diagonal |
| AddressMap.IndexLines | src/MatrixCharlieplex.cpp:316-321 | for index in 1..N(N-1), the row and column lines are distinct lines below N |
| AddressMap.LinesIndex | src/MatrixCharlieplex.cpp:316-317 | every ordered pair of distinct lines has a linear index in 1..N(N-1) |
| AddressMap.LinesIndexRoundTrip | src/MatrixCharlieplex.cpp:316-321 | decoding the index of a pair of lines gives the pair back |
| AddressMap.IndexLinesRoundTrip | src/MatrixCharlieplex.cpp:316-321 | encoding the lines decoded from an index gives the index back |
| AddressMap.IndexLinesBijective | src/MatrixCharlieplex.cpp:316-321 | index decoding is injective on 1..N(N-1) and reaches every ordered pair of distinct lines |
| AddressMap.IndexAgreesWithRowCol | src/MatrixCharlieplex.cpp:299-321 | index (row-1)(N-1)+col is in range and decodes to the same lines as (row, col) |
| AddressMap.GetNode | src/MatrixCharlieplex.cpp:283-309 | both pins of the node are configured pins; they are distinct when the pins are; the row pin is the vcc under common anode and the gnd under common cathode |
| AddressMap.GetNodeIndex | src/MatrixCharlieplex.cpp:311-330 | both pins are configured pins, distinct when the pins are |
| AddressMap.GetNodeAgrees | libraries/Arduino-Charlieplexing/src/MatrixCharlieplex.cpp:203-231 | both `_getNode` overloads name the same node for the same matrix position, under either polarity |
| AddressMap.PolaritySwaps | src/MatrixCharlieplex.cpp:301-307 | the common-cathode node is the common-anode node with vcc and gnd exchanged; the polarity flag chooses between them |
| AddressMap.GetNodeIndexBijective | src/MatrixCharlieplex.cpp:316-328 | with distinct pins, distinct indices give distinct nodes, and every ordered pair of distinct configured pins is the node of some index |
| AddressMap.MaxNodeFits | libraries/Arduino-Charlieplexing/src/MatrixCharlieplex.h:71 | N(N-1) fits the 16-bit `_maxNode` for every byte N |
| BitBatch.GetBitMan | src/MatrixCharlieplex.cpp:332-337 | the bit is below 8, byte*8+bit is the pin, and the byte is a valid index of a two-byte array exactly for pins below 16 |
| BitBatch.Locate | src/MatrixCharlieplex.cpp:332-337 | for pins below 16, the division-free position equals `_getBitMan`'s |
| BitBatch.SetBitMeaning | src/MatrixCharlieplex.cpp:163-164 | `bitSet` makes the addressed bit 1 and leaves the other fifteen as they were |
| BitBatch.ClearBitMeaning | src/MatrixCharlieplex.cpp:194-197 | `bitClear` makes the addressed bit 0 and leaves the other fifteen as they were |
| BitBatch.BitsDetermine | libraries/Arduino-Charlieplexing/src/MatrixCharlieplex.h:63-68 | a two-byte batch array is determined by its sixteen pin bits |
| BitBatch.ClearBitNoop | src/MatrixCharlieplex.cpp:194-197 | clearing a bit that is already 0 leaves the array unchanged |
| BitBatch.ViewInjective | libraries/Arduino-Charlieplexing/src/MatrixCharlieplex.h:63-66 | two DDR/PORT array pairs that encode the same sixteen roles are equal |
| BitBatch.UpMaskFloats | libraries/Arduino-Charlieplexing/src/MatrixCharlieplex.h:36 | Up bytes equal to `MXCHARLIE_UPMASK` stage every pin floating |
| BitBatch.UpPinView | src/MatrixCharlieplex.cpp:155-168 | `_upPin`'s two `bitSet`s make the pin output-high and change no other pin's role |
| BitBatch.DownPinView | src/MatrixCharlieplex.cpp:170-184 | `_downPin` makes the pin output-low and changes no other pin's role |
| BitBatch.SinkPinView | src/MatrixCharlieplex.cpp:186-201 | `_sinkPin` makes the pin floating and changes no other pin's role |
| BitBatch.CommitPairMeaning | src/MatrixCharlieplex.cpp:146-149 | after (reg AND Dn) OR Up, a bit is 1 where Up is set, 0 where Up and Dn are both clear, and unchanged otherwise |
| BitBatch.CommitIdempotent | src/MatrixCharlieplex.cpp:146-149 | committing the same batch twice equals committing it once |
| BitBatch.InitialDnBits | src/MatrixCharlieplex.cpp:76-81 | the initial keep-masks 0b11111111 / 0b00111111 keep exactly pins 0..13 |
| BitBatch.ClearAll | src/MatrixCharlieplex.cpp:85-87 | sinking a list of pins clears exactly their Dn bits and keeps every other bit |
| BitBatch.BaselineBits | libraries/Arduino-Charlieplexing/src/MatrixCharlieplex.cpp:61-82 | in the saved baseline, bit q is 1 exactly for q below 14 that is not a configured pin |
| BitBatch.ConfiguredFollowsUp | src/MatrixCharlieplex.cpp:146-149 | committed against the baseline, a configured pin's register bit is its Up bit |
| BitBatch.OthersKept | src/MatrixCharlieplex.cpp:146-149 | committed against the baseline, an unconfigured pin below 14 whose Up bit is clear keeps its register bit |
| BitBatch.StorePair | src/MatrixCharlieplex.cpp:76-77 | the two bytes of a batch array are set to the given values |
| BitBatch.BitSetIn | src/MatrixCharlieplex.cpp:163 | `bitSet` in place on a batch array is SetBit on its contents |
| BitBatch.BitClearIn | src/MatrixCharlieplex.cpp:178 | `bitClear` in place on a batch array is ClearBit on its contents |
| NodeLogic.VccClass | src/MatrixCharlieplex.cpp:246-252 | the first deactivation block: a match exactly when the active vcc is the requested vcc; a conflict exactly when it is the requested gnd instead |
| NodeLogic.GndClass | src/MatrixCharlieplex.cpp:254-260 | the second block: a conflict exactly when the active gnd is the requested vcc; a match exactly when it is the requested gnd instead |
| NodeLogic.ShiftIn | src/MatrixCharlieplex.cpp:247 | shifting in a 1 (`_chkMatch << 1` with bit 0 set) takes a flag from 0 to 1 and from 1 to 3 |
| NodeLogic.Decide | src/MatrixCharlieplex.cpp:262-278 | the branch order of the flag tests: all clear, else any conflict, else an exact match, else a partial match |
| NodeLogic.Classify | src/MatrixCharlieplex.cpp:241-279 | for a node with distinct pins, each of the four outcomes holds exactly when its condition on shared pins and their roles holds |
| NodeLogic.ClassifySelf | src/MatrixCharlieplex.cpp:366-368 | deactivating the active node itself is an exact match |
| NodeLogic.InactiveSentinel | src/MatrixCharlieplex.cpp:68-70 | with the sentinel (0, 0) recorded, a request is harmless exactly when neither pin is pin 0 |
| NodeLogic.ExpectedView | src/MatrixCharlieplex.cpp:236-238 | the staged roles of a state: the active vcc high, the active gnd low, every other position floating |
| NodeLogic.OnlyActiveConducts | src/MatrixCharlieplex.cpp:203-240 | in the expected roles, a diode conducts exactly when the matrix is active and the diode is the active node |
| NodeLogic.StagedVcc | src/MatrixCharlieplex.cpp:207-215 | the first activation block keeps the role count |
| NodeLogic.StagedGnd | src/MatrixCharlieplex.cpp:217-225 | the second activation block keeps the role count |
| NodeLogic.StagedOn | src/MatrixCharlieplex.cpp:203-235 | activation staging keeps the role count |
| NodeLogic.StagedOnMeaning | src/MatrixCharlieplex.cpp:203-235 | from roles where the active node is driven, activation leaves the requested vcc high and gnd low, floats the old node's pins that are not reused, and leaves every other pin alone |
| NodeLogic.ActivationStagesNode | src/MatrixCharlieplex.cpp:203-240 | activation takes "only the active node staged" to "only the requested node staged", whatever pins and roles the two nodes share |
| NodeLogic.ReactivationStagesNothing | src/MatrixCharlieplex.cpp:203-235 | re-activating the active node reuses both pins and stages nothing |
| BatchedCharlieplex.MatrixCharlieplex.ConfiguredShown | src/MatrixCharlieplex.cpp:146-149 | under the invariant, each configured pin shows in the registers the role its Up bits stage |
| BatchedCharlieplex.MatrixCharlieplex.OnlyActiveLit | src/MatrixCharlieplex.cpp:203-281 | under the invariant, a configured node is lit exactly when it is the active node of an active matrix |
| BatchedCharlieplex.MatrixCharlieplex.ConfiguredRoles | src/MatrixCharlieplex.cpp:203-281 | under the invariant, the registers put the active vcc high and the active gnd low, and float every other configured pin |
| BatchedCharlieplex.MatrixCharlieplex.CommitKeepsOthers | src/MatrixCharlieplex.cpp:146-149 | a commit of a valid batch keeps the register bits of every unconfigured pin below 14 |
| BatchedCharlieplex.MatrixCharlieplex.constructor | src/MatrixCharlieplex.cpp:54-61 | the six register and batch arrays are freshly allocated; the invariant, no active node, every configured pin floating, and the registers committed against the baseline with empty Up bytes |
| BatchedCharlieplex.MatrixCharlieplex.Init | src/MatrixCharlieplex.cpp:66-94 | after `_init`, the invariant holds with no active node, both Up batch bytes are empty, and the registers are committed against the baseline with empty Up bytes |
| BatchedCharlieplex.MatrixCharlieplex.SinkConfigured | src/MatrixCharlieplex.cpp:84-87 | the start-up loop leaves both Dn arrays at the baseline and the Up arrays empty |
| BatchedCharlieplex.MatrixCharlieplex.ResetIsValid | src/MatrixCharlieplex.cpp:125-135 | a reset batch, committed, satisfies the invariant with no active node |
| BatchedCharlieplex.MatrixCharlieplex.ResetBatch | src/MatrixCharlieplex.cpp:125-135 | `_reset` restores Dn from the baseline, empties Up, commits, and returns true |
| BatchedCharlieplex.MatrixCharlieplex.Execute | src/MatrixCharlieplex.cpp:137-151 | each of the four registers becomes (reg AND Dn) OR Up; the result is true |
| BatchedCharlieplex.MatrixCharlieplex.BaselineFixed | libraries/Arduino-Charlieplexing/src/MatrixCharlieplex.cpp:74-80 | the baseline bit of a configured pin is already 0, so sinking it keeps the baseline |
| BatchedCharlieplex.MatrixCharlieplex.TurnOn | src/MatrixCharlieplex.cpp:350-352 | the node at (row, col) becomes active and is the only lit node; its vcc is high, its gnd is low, every other configured pin floats; turning on the active node changes no register; other pins are untouched |
| BatchedCharlieplex.MatrixCharlieplex.TurnOff | src/MatrixCharlieplex.cpp:354-356 | the result is true exactly for a harmless request or an exact match; an exact match ends inactive; any other outcome leaves the state, the active node, the registers and all four batch arrays unchanged |
| BatchedCharlieplex.MatrixCharlieplex.TurnOnIndex | src/MatrixCharlieplex.cpp:358-360 | as TurnOn, for the node at a linear index in 1.._maxNode |
| BatchedCharlieplex.MatrixCharlieplex.TurnOffIndex | src/MatrixCharlieplex.cpp:362-364 | as TurnOff, for the node at a linear index |
| BatchedCharlieplex.MatrixCharlieplex.Clear | src/MatrixCharlieplex.cpp:366-368 | always true; ends inactive with nothing lit and every configured pin floating; when already inactive, no register changes |
| BatchedCharlieplex.MatrixCharlieplex.Reset | src/MatrixCharlieplex.cpp:370-376 | always true; ends inactive with nothing lit and every configured pin floating; the saved baseline is kept, the Up batch bytes are empty and the Down ones equal the baseline, and the registers are committed against it with empty Up bytes |
| BatchedCharlieplex.MatrixCharlieplex.SetNode | src/MatrixCharlieplex.cpp:203-281 | activation makes the node the only lit one and is idempotent on the registers; deactivation follows Classify: true for harmless or exact, the exact match ends inactive, and otherwise neither the state nor the registers nor the batch arrays change |
| BatchedCharlieplex.MatrixCharlieplex.Activate | src/MatrixCharlieplex.cpp:204-240 | the invariant is kept with the requested node active; the result is true; the active node again leaves the registers as they were |
| BatchedCharlieplex.MatrixCharlieplex.StageOn | src/MatrixCharlieplex.cpp:205-235 | the Up arrays stage StagedOn of the old staged roles, and the Dn arrays keep the baseline |
| BatchedCharlieplex.MatrixCharlieplex.SettleVcc | src/MatrixCharlieplex.cpp:207-215 | the Up arrays stage StagedVcc; the match flag is 0b10, 0b01 or 0 by how the active vcc relates to the request |
| BatchedCharlieplex.MatrixCharlieplex.SettleGnd | src/MatrixCharlieplex.cpp:217-225 | the Up arrays stage StagedGnd; afterwards bit 0b10 of the flag is set exactly when the requested vcc is reused, and bit 0b01 exactly when the requested gnd is |
| BatchedCharlieplex.MatrixCharlieplex.CommitIsValid | src/MatrixCharlieplex.cpp:236-240 | committing a batch that stages exactly the active node restores the invariant and keeps every unconfigured pin |
| BatchedCharlieplex.MatrixCharlieplex.Deactivate | src/MatrixCharlieplex.cpp:241-279 | the result and the new state follow Classify, as in SetNode |
| BatchedCharlieplex.MatrixCharlieplex.FloatUnrelated | src/MatrixCharlieplex.cpp:262-266 | sinking two pins unrelated to the active node keeps the invariant and changes no register and no batch array; the result is true |
| BatchedCharlieplex.MatrixCharlieplex.Release | src/MatrixCharlieplex.cpp:269-276 | deactivating the active node ends inactive with the invariant kept; the result is true |
| BatchedCharlieplex.MatrixCharlieplex.CompareOff | src/MatrixCharlieplex.cpp:242-260 | the three flag tests, in branch order, are true exactly for the AllClear, Conflicting and ExactMatch outcomes |
| BatchedCharlieplex.MatrixCharlieplex.UpPin | src/MatrixCharlieplex.cpp:155-168 | sets the pin's DDR-Up and PORT-Up bits, changes nothing else, and stages the pin output-high |
| BatchedCharlieplex.MatrixCharlieplex.DownPin | src/MatrixCharlieplex.cpp:170-184 | sets DDR-Up and clears PORT-Up and PORT-Dn for the pin, and stages it output-low |
| BatchedCharlieplex.MatrixCharlieplex.SinkPin | src/MatrixCharlieplex.cpp:186-201 | clears all four of the pin's bits and stages it floating |
| LegacyCharlieplex.GetNode | MatrixCharlieplex.cpp:188-189 | the common-anode-only `_getNode(row, col)` is the batched mapping with common anode |
| LegacyCharlieplex.GetNodeIndex | MatrixCharlieplex.cpp:198-201 | the index overload, split by `_noOfPins`, is the batched mapping over the first `_noOfPins` pins, with common anode |
| LegacyCharlieplex.IndexAgrees | MatrixCharlieplex.cpp:174-203 | the two overloads name the same node for the same matrix position |
| LegacyCharlieplex.SinkAll | MatrixCharlieplex.cpp:63-65 | sinking a list of pins floats exactly those pins and keeps every other role |
| LegacyCharlieplex.VccAgainClass | MatrixCharlieplex.cpp:147-153 | the second block as written: a conflict exactly when the active vcc is the requested vcc, a match exactly when it is the requested gnd instead |
| LegacyCharlieplex.ClassifyAsWritten | MatrixCharlieplex.cpp:139-169 | a request is harmless exactly when it avoids the active vcc, and conflicting otherwise |
| LegacyCharlieplex.AsWrittenDiffers | MatrixCharlieplex.cpp:139-169 | against the intended classification, acceptance differs exactly for the active node itself and for requests that share the active gnd but not its vcc |
| LegacyCharlieplex.AsWrittenCounterexamples | MatrixCharlieplex.cpp:147-153 | the active node (2,3) cannot be turned off, while (4,3) is accepted although it shares the active gnd |
| LegacyCharlieplex.InitMissesLines | MatrixCharlieplex.cpp:52-65 | with a two-byte pointer and pins [2,3,4,5,6], the roles the constructor leaves keep pin 4's old role |
| LegacyCharlieplex.ReactivationAfterGndFloated | MatrixCharlieplex.cpp:97-133 | once the active gnd has been floated, re-activating the same node leaves it floating |
| LegacyCharlieplex.MatrixCharlieplex.constructor | MatrixCharlieplex.cpp:50-56 | the pin count is the pointer width; `_maxNode` is N(N-1) modulo 256; no node is active; exactly the first N pins are floated |
| LegacyCharlieplex.MatrixCharlieplex.Init | MatrixCharlieplex.cpp:61-69 | exactly the counted pins are floated, and the matrix is inactive with the sentinel node |
| LegacyCharlieplex.MatrixCharlieplex.UpPin | MatrixCharlieplex.cpp:73-79 | the pin becomes output-high; nothing else changes; the result is true |
| LegacyCharlieplex.MatrixCharlieplex.DownPin | MatrixCharlieplex.cpp:81-87 | the pin becomes output-low; nothing else changes; the result is true |
| LegacyCharlieplex.MatrixCharlieplex.SinkPin | MatrixCharlieplex.cpp:89-95 | the pin becomes a floating input; nothing else changes; the result is true |
| LegacyCharlieplex.MatrixCharlieplex.SetNode | MatrixCharlieplex.cpp:97-172 | activation stages the node as the batched driver does and records it; deactivation succeeds, floating both pins, exactly when ClassifyAsWritten finds it harmless, and never changes the state |
| LegacyCharlieplex.MatrixCharlieplex.Activate | MatrixCharlieplex.cpp:98-133 | the roles become StagedOn of the old roles, and the node is recorded as active |
| LegacyCharlieplex.MatrixCharlieplex.Deactivate | MatrixCharlieplex.cpp:134-170 | the outcome follows ClassifyAsWritten; the exact-match branch is unreachable |
| LegacyCharlieplex.MatrixCharlieplex.TurnOn | MatrixCharlieplex.cpp:216-218 | the node becomes active; when the old node was driven (or none was active), its vcc is high, its gnd is low, the old node's unreused pins float, and other roles are kept |
| LegacyCharlieplex.MatrixCharlieplex.TurnOff | MatrixCharlieplex.cpp:220-222 | succeeds and floats both pins exactly when the active vcc is neither of them; state and active node never change |
| LegacyCharlieplex.MatrixCharlieplex.TurnOnIndex | MatrixCharlieplex.cpp:224-226 | as TurnOn, for a linear index split by the computed pin count |
| LegacyCharlieplex.MatrixCharlieplex.TurnOffIndex | MatrixCharlieplex.cpp:228-230 | as TurnOff, for a linear index |
| LegacyCharlieplex.MatrixCharlieplex.Clear | MatrixCharlieplex.cpp:232-234 | true exactly when already inactive; an active matrix is left exactly as it was |
| LegacyCharlieplex.MatrixCharlieplex.Reset | MatrixCharlieplex.cpp:236-242 | floats the counted pins, ends inactive, and returns true |

## Left out

- Memory-mapped I/O and hardware timing are not modelled. `DDRD`, `DDRB`, `PORTD` and `PORTB` are plain `bv8` fields, and their values on entry are constructor parameters. `pinMode`/`digitalWrite` in the legacy driver are updates of a role map.
- Both drivers keep `_pins` as a pointer into the caller's array (src/MatrixCharlieplex.cpp:55, MatrixCharlieplex.cpp:51). The model copies the pins into `const pins: seq<uint8>`, so it does not capture a caller that edits the array after construction and thereby changes the mapping.
- The heap objects returned by `new DiodeNode` / `new BitMan` are values, and their leaks are not modelled. In the batched `clear()`, `_activeNode` is passed to `_setNode` and aliased. That aliasing is harmless, because its pins are read before they are zeroed, so the model passes a copy.
- The source validates no argument. Row and column bounds, index bounds, pins below 16, distinct pins and N >= 2 (for the index form) are preconditions, not error results. The library's `_maxNode` is never read; the model uses it only to bound the index.
- The batched `_setNode` is split into `Activate`, `StageOn`, `SettleVcc`, `SettleGnd`, `Deactivate`, `CompareOff`, `FloatUnrelated` and `Release`. Each one covers the contiguous block of lines it cites, in the source's statement order, so that each proof stays small.
- BatchedCharlieplex.MatrixCharlieplex.TurnOnIndex: requires the index to be at most `_maxNode`, which the source does not check. With the index bound this makes `(index-1)/(N-1)` a row below N, so its truncation to `uint8_t` never cuts anything off.
- LegacyCharlieplex.MatrixCharlieplex.TurnOnIndex: requires `2 <= _noOfPins` and an index of at most N(N-1). The divisor `_noOfPins - 1` is an `int`, so a pointer width of 1 divides by zero. A width of 0 gives the divisor -1. On AVR, where `int` has 16 bits, `index - 1` is an `unsigned int` (`index` is a `uint16_t`), so -1 converts to 65535: the quotient is 0, or 1 for index 0, and `col` is `index - 1` truncated to 8 bits, or 0 for index 0 (where `65535 % 65535` is 0). Only where `int` has 32 bits is this a division by -1, whose negative quotient wraps when it is stored in `uint8_t row`. The model covers none of these degenerate widths.
- LegacyCharlieplex.MatrixCharlieplex.constructor: requires the pointer width to be at most the length of the array passed, since the loop of `_init` reads that many entries.
- The commented-out getters, and the `_print` Serial debugging, are not modelled: batched `getActiveNode`/`getPins` (src/MatrixCharlieplex.cpp:342-348) and `_print` (96-123). The legacy `GetActiveNode`/`GetPins` (MatrixCharlieplex.cpp:208-214) only return fields, which the model exposes directly.
- The top-level `MatrixCharlieplex.h` holds declarations only, and its namespace does not match the legacy `.cpp`. `arduino_header.h` is an editor template. Neither file is part of this model.
- Concurrency and interrupt-driven refresh loops are not modelled; the source has none.

## Findings

| source | as written | input that shows it | evidently intended | confidence | as-written member | corrected member |
|---|---|---|---|---|---|---|
| MatrixCharlieplex.cpp:147-153 | the second deactivation block compares `_activeNode->vcc` again, where the first block already did | active node (2,3): turning off (2,3) returns false and leaves it lit; turning off (4,3) returns true and floats the active gnd 3 while (2,3) is still recorded active | compare `_activeNode->gnd`, as the batched driver does (src/MatrixCharlieplex.cpp:254-260) | high (not executed) | LegacyCharlieplex.ClassifyAsWritten, with LegacyCharlieplex.AsWrittenCounterexamples | NodeLogic.Classify, with BatchedCharlieplex.MatrixCharlieplex.Deactivate |
| MatrixCharlieplex.cpp:52 | `sizeof (pins) / sizeof (uint8_t)` on a pointer parameter yields the pointer width | pins [2,3,4,5,6] with a 2-byte pointer: N = 2, and `_init` leaves pin 4 in its old role | take the pin count as a parameter, as the batched constructor does (src/MatrixCharlieplex.cpp:54-57) | high (not executed) | LegacyCharlieplex.MatrixCharlieplex.constructor, with LegacyCharlieplex.InitMissesLines | BatchedCharlieplex.MatrixCharlieplex.constructor |
