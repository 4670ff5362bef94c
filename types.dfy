/** Value types and constants shared by every variant of the Charlieplexing driver. */
module CharlieTypes {

  /** C's `uint8_t` and `uint16_t`, as bounded integers. */
  type uint8 = x: int | 0 <= x < 0x100
  type uint16 = x: int | 0 <= x < 0x1_0000

  /** One addressable diode of the matrix: the pin driven high (its anode side)
      and the pin driven low (its cathode side). */
  datatype DiodeNode = DiodeNode(vcc: uint8, gnd: uint8)

  /** Where a pin lives in a two-byte batch array: bit `x` of byte `y`. */
  datatype BitMan = BitMan(x: uint8, y: uint8)

  /** The electrical state a pin is commanded into: output high, output low,
      input without pull-up (floating), or input with pull-up. */
  datatype PinRole = High | Low | Float | PullUp

  /** `_state` values: the flag is tested by truthiness. */
  const StateActive: uint8 := 0x01
  const StateInactive: uint8 := 0x00

  /** `_commonType` selectors: common anode (row line is the anode) or common cathode. */
  const CommonAnode: uint8 := 0x01
  const CommonCathode: uint8 := 0x00

  /** The value every "Up" batch byte is reset to. */
  const UpMask: bv8 := 0x00

  /** Arduino's `HIGH` and `LOW`, passed as the requested state of a node. */
  const LevelHigh: uint8 := 1
  const LevelLow: uint8 := 0

  /** The value of `_activeNode` while no node is active. */
  const NoNode: DiodeNode := DiodeNode(0, 0)

  /** No pin appears twice. */
  predicate Distinct(pins: seq<uint8>)
  {
    forall i, j :: 0 <= i < j < |pins| ==> pins[i] != pins[j]
  }

  /** A node both of whose pins are configured lines, and distinct. */
  predicate IsNodeOf(pins: seq<uint8>, node: DiodeNode)
  {
    node.vcc in pins && node.gnd in pins && node.vcc != node.gnd
  }
}
