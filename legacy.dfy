/** The earlier variant of the driver (the repository's top-level
    MatrixCharlieplex.cpp): common anode only, and each pin is switched on its own
    with `pinMode` and `digitalWrite`.  Their combined effect is modelled as the
    role each Arduino pin number is left in. */
module LegacyCharlieplex {
  import opened CharlieTypes
  import AddressMap
  import opened NodeLogic

  /** `_getNode(row, col)`: the row line is vcc, the column line (skipping the
      diagonal) is gnd. */
  function GetNode(pins: seq<uint8>, row: nat, col: nat): (node: DiodeNode)
    requires 1 <= row <= |pins| && 1 <= col < |pins|
    ensures node == AddressMap.GetNode(pins, CommonAnode, row, col)
  {
    DiodeNode(pins[row - 1], pins[if col < row then col - 1 else col])
  }

  /** `_getNode(index)`: the index is split by `_noOfPins`, not by the length of
      the array, so only its first `noOfPins` lines take part. */
  function GetNodeIndex(pins: seq<uint8>, noOfPins: nat, index: nat): (node: DiodeNode)
    requires 2 <= noOfPins <= |pins| && 1 <= index <= AddressMap.NodeCount(noOfPins)
    ensures node == AddressMap.GetNodeIndex(pins[..noOfPins], CommonAnode, index)
  {
    var row := (index - 1) / (noOfPins - 1);
    var col := (index - 1) % (noOfPins - 1);
    AddressMap.DivBelow(index - 1, noOfPins - 1, noOfPins);
    assert AddressMap.IndexLines(noOfPins, index) == AddressMap.Lines(row, if col < row then col else col + 1);
    DiodeNode(pins[row], pins[if col < row then col else col + 1])
  }

  /** The two overloads name the same node for the same matrix position. */
  lemma IndexAgrees(pins: seq<uint8>, noOfPins: nat, row: nat, col: nat)
    requires 2 <= noOfPins <= |pins| && 1 <= row <= noOfPins && 1 <= col < noOfPins
    ensures 1 <= (row - 1) * (noOfPins - 1) + col <= AddressMap.NodeCount(noOfPins)
    ensures GetNodeIndex(pins, noOfPins, (row - 1) * (noOfPins - 1) + col) == GetNode(pins, row, col)
  {
    var lines := pins[..noOfPins];
    AddressMap.GetNodeAgrees(lines, CommonAnode, row, col);
    assert GetNode(pins, row, col) == AddressMap.GetNode(lines, CommonAnode, row, col);
  }

  /** `_sinkPin` on each pin of `ps` in turn: exactly those pins float. */
  function SinkAll(roles: seq<PinRole>, ps: seq<uint8>): (r: seq<PinRole>)
    requires |roles| == 256
    ensures |r| == 256
    ensures forall p: uint8 :: r[p] == (if p in ps then Float else roles[p])
    decreases |ps|
  {
    if ps == [] then roles
    else
      var last := ps[|ps| - 1];
      var r := SinkAll(roles, ps[..|ps| - 1])[last := Float];
      assert ps == ps[..|ps| - 1] + [last];
      r
  }

  /** The second deactivation block as written: it tests the active vcc again,
      where the first block already did, instead of the active gnd. */
  function VccAgainClass(active: DiodeNode, node: DiodeNode): (c: PinClass)
    ensures c == Conflict <==> active.vcc == node.vcc
    ensures c == Match <==> active.vcc != node.vcc && active.vcc == node.gnd
  {
    if active.vcc == node.vcc then Conflict
    else if active.vcc == node.gnd then Match
    else Clear
  }

  /** The classification the variant's flags encode: a request is harmless exactly
      when it does not use the active vcc, and conflicting otherwise.  No request
      is an exact or a partial match. */
  function ClassifyAsWritten(active: DiodeNode, node: DiodeNode): (o: OffOutcome)
    ensures o == AllClear <==> active.vcc != node.vcc && active.vcc != node.gnd
    ensures o != AllClear ==> o == Conflicting
  {
    Decide(VccClass(active, node), VccAgainClass(active, node))
  }

  /** Against the intended classification: the two accept different requests
      exactly when the request is the active node itself (refused as written) or
      shares the active gnd but not the active vcc (accepted as written). */
  lemma AsWrittenDiffers(active: DiodeNode, node: DiodeNode)
    requires active.vcc != active.gnd && node.vcc != node.gnd
    ensures (ClassifyAsWritten(active, node) == AllClear) !=
            (Classify(active, node) in {AllClear, ExactMatch})
            <==>
            active == node ||
            (active.vcc != node.vcc && active.vcc != node.gnd &&
             (active.gnd == node.vcc || active.gnd == node.gnd))
  {
  }

  /** Two concrete requests against active node (2, 3): turning (2, 3) itself off
      is refused although it is an exact match, and turning (4, 3) off is accepted
      although it shares the active gnd. */
  lemma AsWrittenCounterexamples()
    ensures ClassifyAsWritten(DiodeNode(2, 3), DiodeNode(2, 3)) == Conflicting
    ensures Classify(DiodeNode(2, 3), DiodeNode(2, 3)) == ExactMatch
    ensures ClassifyAsWritten(DiodeNode(2, 3), DiodeNode(4, 3)) == AllClear
    ensures Classify(DiodeNode(2, 3), DiodeNode(4, 3)) == PartialMatch
  {
  }

  /** The constructor takes the pin count from `sizeof (pins) / sizeof (uint8_t)`
      on a pointer parameter, that is, the pointer width, and then floats
      `SinkAll(roles, pins[..pointerWidth])`.  With a two-byte pointer and five
      lines, start-up floats only the first two: line 4 keeps whatever role it had. */
  lemma InitMissesLines(roles: seq<PinRole>)
    requires |roles| == 256 && roles[4] == High
    ensures var pins: seq<uint8> := [2, 3, 4, 5, 6];
            4 in pins && SinkAll(roles, pins[..2])[4] == High
  {
    var pins: seq<uint8> := [2, 3, 4, 5, 6];
    assert pins[..2] == [2, 3];
  }

  /** After the gnd of the active node was floated by a turn-off that was
      accepted, turning the same node on again reuses both pins and drives
      neither, so it stays dark while recorded as active. */
  lemma ReactivationAfterGndFloated(active: DiodeNode, roles: seq<PinRole>)
    requires Within(|roles|, active) && active.vcc != active.gnd
    requires roles[active.gnd] == Float
    ensures StagedOn(StateActive, active, active, roles)[active.gnd] == Float
  {
    ReactivationStagesNothing(active, roles);
  }

  class MatrixCharlieplex {
    /** The array passed in and the pin count computed from it. */
    const pins: seq<uint8>
    const noOfPins: uint8
    /** `_maxNode` is a `uint8_t` here, so N(N-1) is kept modulo 256; it is never read. */
    const maxNode: uint8

    /** The role each Arduino pin number was last put in. */
    var roles: seq<PinRole>
    var activeNode: DiodeNode
    var state: uint8

    /** What holds throughout: one role per pin number, the counted lines exist,
        distinct lines, and the state flag agrees with the recorded node. */
    ghost predicate Valid()
      reads this
    {
      |roles| == 256 && noOfPins as int <= |pins| && Distinct(pins) &&
      (state == StateActive || state == StateInactive) &&
      (state == StateInactive ==> activeNode == NoNode) &&
      (state == StateActive ==> activeNode.vcc != activeNode.gnd)
    }

    /** The constructor: the pin count is `sizeof` of the pointer parameter, that is,
        the pointer width, whatever array is passed; then `_init(false)`. */
    constructor (pins: seq<uint8>, pointerWidth: uint8, roles: seq<PinRole>)
      requires |roles| == 256 && pointerWidth as int <= |pins| && Distinct(pins)
      ensures Valid() && this.pins == pins && noOfPins == pointerWidth
      ensures maxNode as int == AddressMap.NodeCount(pointerWidth as int) % 0x100
      ensures state == StateInactive && activeNode == NoNode
      ensures this.roles == SinkAll(roles, pins[..pointerWidth])
    {
      this.pins := pins;
      noOfPins := pointerWidth;
      maxNode := AddressMap.NodeCount(pointerWidth as int) % 0x100;
      this.roles := roles;
      activeNode := NoNode;
      new;
      Init(false);
    }

    /** `_init`: float each counted line in turn, then forget the active node.
        The flag is not read. */
    method Init(isReset: bool)
      requires |roles| == 256 && noOfPins as int <= |pins| && Distinct(pins)
      modifies this
      ensures Valid() && state == StateInactive && activeNode == NoNode
      ensures roles == SinkAll(old(roles), pins[..noOfPins])
    {
      ghost var roles0 := roles;
      for i := 0 to noOfPins
        invariant |roles| == 256
        invariant roles == SinkAll(roles0, pins[..i])
      {
        assert pins[..i + 1][..i] == pins[..i];
        var _ := SinkPin(pins[i]);
      }
      activeNode := NoNode;
      state := StateInactive;
    }

    /** `_upPin`: output, driven high. */
    method UpPin(pin: uint8) returns (ok: bool)
      requires |roles| == 256
      modifies this`roles
      ensures ok && roles == old(roles)[pin := High]
    {
      roles := roles[pin := High];
      ok := true;
    }

    /** `_downPin`: output, driven low. */
    method DownPin(pin: uint8) returns (ok: bool)
      requires |roles| == 256
      modifies this`roles
      ensures ok && roles == old(roles)[pin := Low]
    {
      roles := roles[pin := Low];
      ok := true;
    }

    /** `_sinkPin`: input with the pull-up off, so floating. */
    method SinkPin(pin: uint8) returns (ok: bool)
      requires |roles| == 256
      modifies this`roles
      ensures ok && roles == old(roles)[pin := Float]
    {
      roles := roles[pin := Float];
      ok := true;
    }

    /** `_setNode(pin, state)`: a nonzero state activates `pin` exactly as the
        batched variant stages it; zero deactivates it under the as-written
        classification, which only ever floats an unrelated pair. */
    method SetNode(pin: DiodeNode, level: uint8) returns (ok: bool)
      requires Valid() && pin.vcc != pin.gnd
      modifies this
      ensures Valid()
      ensures level != LevelLow ==>
                ok && state == StateActive && activeNode == pin &&
                roles == StagedOn(old(state), old(activeNode), pin, old(roles))
      ensures level == LevelLow ==>
                var o := ClassifyAsWritten(old(activeNode), pin);
                ok == (o == AllClear) &&
                state == old(state) && activeNode == old(activeNode) &&
                roles == (if o == AllClear then old(roles)[pin.vcc := Float][pin.gnd := Float]
                          else old(roles))
    {
      if level != LevelLow {
        ok := Activate(pin);
      } else {
        ok := Deactivate(pin);
      }
    }

    /** The activating half of `_setNode`. */
    method Activate(pin: DiodeNode) returns (ok: bool)
      requires Valid() && pin.vcc != pin.gnd
      modifies this
      ensures Valid() && ok && state == StateActive && activeNode == pin
      ensures roles == StagedOn(old(state), old(activeNode), pin, old(roles))
    {
      ghost var v0 := roles;
      var chkMatch: bv8 := 0;
      if activeNode.vcc == pin.vcc {
        chkMatch := chkMatch | 0x2;
      } else if activeNode.vcc == pin.gnd {
        var _ := DownPin(pin.gnd);
        chkMatch := chkMatch | 0x1;
      } else if state != StateInactive {
        var _ := SinkPin(activeNode.vcc);
      }
      ghost var v1 := StagedVcc(state, activeNode, pin, v0);
      assert roles == v1;
      if activeNode.gnd == pin.vcc {
        var _ := UpPin(pin.vcc);
        chkMatch := chkMatch | 0x2;
      } else if activeNode.gnd == pin.gnd {
        chkMatch := chkMatch | 0x1;
      } else if state != StateInactive {
        var _ := SinkPin(activeNode.gnd);
      }
      assert roles == StagedGnd(state, activeNode, pin, v1);
      assert (chkMatch & 0x2 == 0x2) == HighReused(activeNode, pin);
      assert (chkMatch & 0x1 == 0x1) == LowReused(activeNode, pin);
      if chkMatch & 0x2 != 0x2 {
        var _ := UpPin(pin.vcc);
      }
      if chkMatch & 0x1 != 0x1 {
        var _ := DownPin(pin.gnd);
      }
      activeNode := pin;
      state := StateActive;
      ok := true;
    }

    /** The deactivating half of `_setNode`, with its second block testing the
        active vcc a second time.  The exact-match branch cannot be reached. */
    method Deactivate(pin: DiodeNode) returns (ok: bool)
      requires Valid() && pin.vcc != pin.gnd
      modifies this
      ensures Valid()
      ensures var o := ClassifyAsWritten(old(activeNode), pin);
              ok == (o == AllClear) &&
              state == old(state) && activeNode == old(activeNode) &&
              roles == (if o == AllClear then old(roles)[pin.vcc := Float][pin.gnd := Float]
                        else old(roles))
    {
      var chkMatch: bv8 := 0;
      var chkConflict: bv8 := 0;
      var chkClear: bv8 := 0;
      if activeNode.vcc == pin.vcc {
        chkMatch := ShiftIn(chkMatch);
      } else if activeNode.vcc == pin.gnd {
        chkConflict := ShiftIn(chkConflict);
      } else {
        chkClear := ShiftIn(chkClear);
      }
      if activeNode.vcc == pin.vcc {
        chkConflict := ShiftIn(chkConflict);
      } else if activeNode.vcc == pin.gnd {
        chkMatch := ShiftIn(chkMatch);
      } else {
        chkClear := ShiftIn(chkClear);
      }
      if chkClear == 0x3 {
        var _ := SinkPin(pin.vcc);
        var _ := SinkPin(pin.gnd);
        ok := true;
      } else if chkConflict & 0x3 != 0 {
        ok := false;
      } else {
        assert false;
      }
    }

    /** `TurnOn(row, col)`. */
    method TurnOn(row: uint8, col: uint8) returns (ok: bool)
      requires Valid() && 1 <= row as int <= |pins| && 1 <= col as int < |pins|
      modifies this
      ensures Valid() && ok && state == StateActive
      ensures activeNode == GetNode(pins, row as nat, col as nat)
      ensures roles == StagedOn(old(state), old(activeNode), activeNode, old(roles))
      ensures (old(state) == StateInactive ||
               (old(roles)[old(activeNode).vcc] == High && old(roles)[old(activeNode).gnd] == Low)) ==>
              forall p :: 0 <= p < 256 ==>
                roles[p] == (if p == activeNode.vcc then High
                             else if p == activeNode.gnd then Low
                             else if old(state) != StateInactive &&
                                     (p == old(activeNode).vcc || p == old(activeNode).gnd) then Float
                             else old(roles)[p])
    {
      ghost var state0, active0, roles0 := state, activeNode, roles;
      var node := GetNode(pins, row as nat, col as nat);
      ok := SetNode(node, LevelHigh);
      if state0 == StateInactive || (roles0[active0.vcc] == High && roles0[active0.gnd] == Low) {
        StagedOnMeaning(state0, active0, node, roles0);
      }
    }

    /** `TurnOff(row, col)`: succeeds, floating both pins, exactly when the active
        vcc is neither of them; the recorded node and state never change. */
    method TurnOff(row: uint8, col: uint8) returns (ok: bool)
      requires Valid() && 1 <= row as int <= |pins| && 1 <= col as int < |pins|
      modifies this
      ensures Valid() && state == old(state) && activeNode == old(activeNode)
      ensures var node := GetNode(pins, row as nat, col as nat);
              ok == (activeNode.vcc != node.vcc && activeNode.vcc != node.gnd) &&
              roles == (if ok then old(roles)[node.vcc := Float][node.gnd := Float]
                        else old(roles))
    {
      var node := GetNode(pins, row as nat, col as nat);
      ok := SetNode(node, LevelLow);
    }

    /** `TurnOn(index)`, decoding the index by the computed pin count. */
    method TurnOnIndex(index: uint16) returns (ok: bool)
      requires Valid() && 2 <= noOfPins && 1 <= index as int <= AddressMap.NodeCount(noOfPins as int)
      modifies this
      ensures Valid() && ok && state == StateActive
      ensures activeNode == GetNodeIndex(pins, noOfPins as nat, index as nat)
      ensures roles == StagedOn(old(state), old(activeNode), activeNode, old(roles))
      ensures (old(state) == StateInactive ||
               (old(roles)[old(activeNode).vcc] == High && old(roles)[old(activeNode).gnd] == Low)) ==>
              forall p :: 0 <= p < 256 ==>
                roles[p] == (if p == activeNode.vcc then High
                             else if p == activeNode.gnd then Low
                             else if old(state) != StateInactive &&
                                     (p == old(activeNode).vcc || p == old(activeNode).gnd) then Float
                             else old(roles)[p])
    {
      var node := GetNodeIndex(pins, noOfPins as nat, index as nat);
      ghost var state0, active0, roles0 := state, activeNode, roles;
      assert Distinct(pins[..noOfPins]);
      ok := SetNode(node, LevelHigh);
      if state0 == StateInactive || (roles0[active0.vcc] == High && roles0[active0.gnd] == Low) {
        StagedOnMeaning(state0, active0, node, roles0);
      }
    }

    /** `TurnOff(index)`. */
    method TurnOffIndex(index: uint16) returns (ok: bool)
      requires Valid() && 2 <= noOfPins && 1 <= index as int <= AddressMap.NodeCount(noOfPins as int)
      modifies this
      ensures Valid() && state == old(state) && activeNode == old(activeNode)
      ensures var node := GetNodeIndex(pins, noOfPins as nat, index as nat);
              ok == (activeNode.vcc != node.vcc && activeNode.vcc != node.gnd) &&
              roles == (if ok then old(roles)[node.vcc := Float][node.gnd := Float]
                        else old(roles))
    {
      var node := GetNodeIndex(pins, noOfPins as nat, index as nat);
      assert Distinct(pins[..noOfPins]);
      ok := SetNode(node, LevelLow);
    }

    /** `Clear()`: true at once when inactive; when active it asks to turn the
        active node off, which the as-written classification refuses. */
    method Clear() returns (ok: bool)
      requires Valid()
      modifies this
      ensures Valid() && ok == (old(state) == StateInactive)
      ensures state == old(state) && activeNode == old(activeNode) && roles == old(roles)
    {
      if state == StateInactive {
        ok := true;
      } else {
        ok := SetNode(activeNode, LevelLow);
      }
    }

    /** `Reset()`: `_init(true)`, which floats the counted lines and forgets the
        active node; always true. */
    method Reset() returns (ok: bool)
      requires Valid()
      modifies this
      ensures Valid() && ok && state == StateInactive && activeNode == NoNode
      ensures roles == SinkAll(old(roles), pins[..noOfPins])
    {
      Init(true);
      ok := true;
    }
  }
}
