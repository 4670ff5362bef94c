/** The batched driver: pin roles are staged bit by bit in two-byte "Up" and "Dn"
    arrays and committed to the AVR direction and port registers in one step. */
module BatchedCharlieplex {
  import opened CharlieTypes
  import opened AddressMap
  import opened BitBatch
  import opened NodeLogic

  class MatrixCharlieplex {
    /** The configured lines, their count, and the polarity of the grid. */
    const pins: seq<uint8>
    const noOfPins: uint8
    const maxNode: uint16
    const commonType: uint8

    /** Staged bits to set (Up) and to keep (Dn) for DDR and PORT, and the keep-mask
        baseline saved at start-up. */
    const exeDdrUp: array<bv8>
    const exeDdrDn: array<bv8>
    const exePortUp: array<bv8>
    const exePortDn: array<bv8>
    const ioDdr: array<bv8>
    const ioPort: array<bv8>

    /** The hardware registers: direction and level of port D (pins 0-7) and
        port B (pins 8-15). */
    var DDRD: bv8
    var DDRB: bv8
    var PORTD: bv8
    var PORTB: bv8

    var activeNode: DiodeNode
    var state: uint8

    /** The fixed layout: six separate two-byte arrays, distinct pins below 16, and
        N(N-1) nodes. */
    ghost predicate Shape()
    {
      exeDdrUp.Length == 2 && exeDdrDn.Length == 2 && exePortUp.Length == 2 &&
      exePortDn.Length == 2 && ioDdr.Length == 2 && ioPort.Length == 2 &&
      exeDdrUp != exeDdrDn && exeDdrUp != exePortUp && exeDdrUp != exePortDn &&
      exeDdrUp != ioDdr && exeDdrUp != ioPort &&
      exeDdrDn != exePortUp && exeDdrDn != exePortDn && exeDdrDn != ioDdr && exeDdrDn != ioPort &&
      exePortUp != exePortDn && exePortUp != ioDdr && exePortUp != ioPort &&
      exePortDn != ioDdr && exePortDn != ioPort &&
      ioDdr != ioPort &&
      |pins| == noOfPins as int && PinsBelow16(pins) && Distinct(pins) &&
      maxNode as int == NodeCount(noOfPins as int)
    }

    /** The layout, with the baseline keep-masks as start-up saved them. */
    ghost predicate Config()
      reads ioDdr, ioPort
    {
      Shape() && ioDdr[..] == Baseline(pins) && ioPort[..] == Baseline(pins)
    }

    /** The roles staged in the Up arrays. */
    ghost function UpView(): (v: seq<PinRole>)
      reads exeDdrUp, exePortUp
      requires Shape()
      ensures |v| == 16
    {
      View(exeDdrUp[..], exePortUp[..])
    }

    ghost function Ddr(): seq<bv8>
      reads this
    {
      [DDRD, DDRB]
    }

    ghost function Port(): seq<bv8>
      reads this
    {
      [PORTD, PORTB]
    }

    /** The roles the registers put the sixteen pins in. */
    ghost function PinView(): (v: seq<PinRole>)
      reads this
      ensures |v| == 16
    {
      View(Ddr(), Port())
    }

    /** Diode d is lit by the registers. */
    ghost predicate Lit(d: DiodeNode)
      reads this
      requires Addressable(d)
    {
      Conducts(PinView(), d)
    }

    /** The driver's invariant: the Dn arrays hold the baseline, the state flag and
        the active node agree, the Up arrays stage exactly the active node, and the
        registers hold the last commit. */
    ghost predicate Valid()
      reads this, exeDdrUp, exeDdrDn, exePortUp, exePortDn, ioDdr, ioPort
    {
      Config() &&
      exeDdrDn[..] == ioDdr[..] && exePortDn[..] == ioPort[..] &&
      (state == StateActive || state == StateInactive) &&
      (state == StateInactive ==> activeNode == NoNode) &&
      (state == StateActive ==> IsNodeOf(pins, activeNode)) &&
      Addressable(activeNode) &&
      UpView() == ExpectedView(state, activeNode) &&
      Ddr() == CommitPair(Ddr(), exeDdrDn[..], exeDdrUp[..]) &&
      Port() == CommitPair(Port(), exePortDn[..], exePortUp[..])
    }

    /** Register bits of pins outside the matrix (below 14) are what they were in
        `ddr` and `port`. */
    ghost predicate Untouched(ddr: seq<bv8>, port: seq<bv8>)
      reads this
      requires |ddr| == 2 && |port| == 2
    {
      forall q :: 0 <= q < 14 && q !in pins ==>
        Bit(Ddr(), q) == Bit(ddr, q) && Bit(Port(), q) == Bit(port, q)
    }

    /** Under the invariant every configured pin shows the role the Up arrays stage. */
    lemma ConfiguredShown(p: nat)
      requires Valid() && p in pins
      ensures p < 16 && PinView()[p] == UpView()[p]
    {
      ConfiguredFollowsUp(pins, Ddr(), exeDdrUp[..], p);
      ConfiguredFollowsUp(pins, Port(), exePortUp[..], p);
    }

    /** Under the invariant exactly the active node is lit, and none while inactive. */
    lemma OnlyActiveLit()
      requires Valid()
      ensures forall d :: IsNodeOf(pins, d) ==>
                (Lit(d) <==> state == StateActive && d == activeNode)
    {
      forall d | IsNodeOf(pins, d)
        ensures Lit(d) <==> state == StateActive && d == activeNode
      {
        ConfiguredShown(d.vcc);
        ConfiguredShown(d.gnd);
        OnlyActiveConducts(state, activeNode, d);
      }
    }

    /** Under the invariant the registers put the active node's vcc high and its gnd
        low, and float every other configured pin (all of them while inactive). */
    lemma ConfiguredRoles()
      requires Valid()
      ensures forall i :: 0 <= i < |pins| ==>
                PinView()[pins[i]] ==
                  (if state == StateActive && pins[i] == activeNode.vcc then High
                   else if state == StateActive && pins[i] == activeNode.gnd then Low
                   else Float)
    {
      forall i | 0 <= i < |pins|
        ensures PinView()[pins[i]] ==
                  (if state == StateActive && pins[i] == activeNode.vcc then High
                   else if state == StateActive && pins[i] == activeNode.gnd then Low
                   else Float)
      {
        ConfiguredShown(pins[i]);
      }
    }

    /** The commit of an invariant-keeping state kept every unconfigured pin below 14. */
    lemma CommitKeepsOthers(ddr: seq<bv8>, port: seq<bv8>)
      requires Valid() && |ddr| == 2 && |port| == 2
      requires Ddr() == CommitPair(ddr, exeDdrDn[..], exeDdrUp[..])
      requires Port() == CommitPair(port, exePortDn[..], exePortUp[..])
      ensures Untouched(ddr, port)
    {
      forall q | 0 <= q < 14 && q !in pins
        ensures Bit(Ddr(), q) == Bit(ddr, q) && Bit(Port(), q) == Bit(port, q)
      {
        assert UpView()[q] == Float;
        OthersKept(pins, ddr, exeDdrUp[..], q);
        OthersKept(pins, port, exePortUp[..], q);
      }
    }

    constructor (pins: seq<uint8>, noOfPins: uint8, commonType: uint8,
                 ddrd: bv8, ddrb: bv8, portd: bv8, portb: bv8)
      requires |pins| == noOfPins as int && PinsBelow16(pins) && Distinct(pins)
      ensures Valid()
      ensures this.pins == pins && this.noOfPins == noOfPins && this.commonType == commonType
      ensures fresh(exeDdrUp) && fresh(exeDdrDn) && fresh(exePortUp) && fresh(exePortDn)
      ensures fresh(ioDdr) && fresh(ioPort)
      ensures state == StateInactive && activeNode == NoNode
      ensures forall i :: 0 <= i < |pins| ==> PinView()[pins[i]] == Float
      ensures Ddr() == CommitPair([ddrd, ddrb], Baseline(pins), [UpMask, UpMask])
      ensures Port() == CommitPair([portd, portb], Baseline(pins), [UpMask, UpMask])
    {
      this.pins := pins;
      this.commonType := commonType;
      this.noOfPins := noOfPins;
      MaxNodeFits(noOfPins);
      maxNode := noOfPins * (noOfPins - 1);
      activeNode := NoNode;
      exeDdrUp := new bv8[2];
      exeDdrDn := new bv8[2];
      exePortUp := new bv8[2];
      exePortDn := new bv8[2];
      ioDdr := new bv8[2];
      ioPort := new bv8[2];
      DDRD, DDRB, PORTD, PORTB := ddrd, ddrb, portd, portb;
      new;
      Init(true);
      ConfiguredRoles();
    }

    /** `_init`: forget the active node; on start-up also compute and save the
        baseline keep-masks by sinking every configured pin; then restore the batch. */
    method Init(isStart: bool)
      requires Shape() && (isStart || Config())
      modifies this, exeDdrUp, exeDdrDn, exePortUp, exePortDn, ioDdr, ioPort
      ensures Valid() && state == StateInactive && activeNode == NoNode
      ensures exeDdrUp[..] == [UpMask, UpMask] && exePortUp[..] == [UpMask, UpMask]
      ensures Ddr() == CommitPair(old(Ddr()), Baseline(pins), [UpMask, UpMask])
      ensures Port() == CommitPair(old(Port()), Baseline(pins), [UpMask, UpMask])
    {
      activeNode := NoNode;
      state := StateInactive;
      if isStart {
        StorePair(exeDdrDn, 0xFF, 0x3F);
        StorePair(exeDdrUp, UpMask, UpMask);
        StorePair(exePortDn, 0xFF, 0x3F);
        StorePair(exePortUp, UpMask, UpMask);
        SinkConfigured();
        StorePair(ioDdr, exeDdrDn[0], exeDdrDn[1]);
        StorePair(ioPort, exePortDn[0], exePortDn[1]);
      }
      ghost var ddr0, port0 := Ddr(), Port();
      var _ := ResetBatch();
      ResetIsValid(ddr0, port0);
    }

    /** The loop of `_init(true)`: sink each configured pin in turn, which clears its
        bits in the Dn arrays and leaves the emptied Up arrays empty. */
    method SinkConfigured()
      requires Shape()
      requires exeDdrDn[..] == InitialDn && exePortDn[..] == InitialDn
      requires exeDdrUp[..] == [UpMask, UpMask] && exePortUp[..] == [UpMask, UpMask]
      modifies exeDdrUp, exeDdrDn, exePortUp, exePortDn
      ensures exeDdrDn[..] == Baseline(pins) && exePortDn[..] == Baseline(pins)
      ensures exeDdrUp[..] == [UpMask, UpMask] && exePortUp[..] == [UpMask, UpMask]
    {
      for i := 0 to noOfPins
        modifies exeDdrUp, exeDdrDn, exePortUp, exePortDn
        invariant exeDdrDn[..] == ClearAll(InitialDn, pins[..i])
        invariant exePortDn[..] == ClearAll(InitialDn, pins[..i])
        invariant exeDdrUp[..] == [UpMask, UpMask] && exePortUp[..] == [UpMask, UpMask]
      {
        ghost var up := [UpMask, UpMask];
        assert !Bit(up, pins[i]);
        ClearBitNoop(up, pins[i]);
        assert pins[..i + 1][..i] == pins[..i];
        var _ := SinkPin(pins[i]);
      }
      assert pins[..noOfPins] == pins;
    }

    /** A freshly reset batch, committed, satisfies the invariant with no node active. */
    lemma ResetIsValid(ddr0: seq<bv8>, port0: seq<bv8>)
      requires Config() && |ddr0| == 2 && |port0| == 2
      requires state == StateInactive && activeNode == NoNode
      requires exeDdrDn[..] == ioDdr[..] && exePortDn[..] == ioPort[..]
      requires exeDdrUp[..] == [UpMask, UpMask] && exePortUp[..] == [UpMask, UpMask]
      requires Ddr() == CommitPair(ddr0, ioDdr[..], [UpMask, UpMask])
      requires Port() == CommitPair(port0, ioPort[..], [UpMask, UpMask])
      ensures Valid()
    {
      UpMaskFloats();
      CommitIdempotent(ddr0, exeDdrDn[..], exeDdrUp[..]);
      CommitIdempotent(port0, exePortDn[..], exePortUp[..]);
    }

    /** `_reset`: Dn back to the baseline, Up emptied, then committed. */
    method ResetBatch() returns (ok: bool)
      requires Config()
      modifies this`DDRD, this`DDRB, this`PORTD, this`PORTB
      modifies exeDdrUp, exeDdrDn, exePortUp, exePortDn
      ensures ok
      ensures exeDdrDn[..] == ioDdr[..] && exePortDn[..] == ioPort[..]
      ensures exeDdrUp[..] == [UpMask, UpMask] && exePortUp[..] == [UpMask, UpMask]
      ensures Ddr() == CommitPair(old(Ddr()), ioDdr[..], [UpMask, UpMask])
      ensures Port() == CommitPair(old(Port()), ioPort[..], [UpMask, UpMask])
    {
      StorePair(exeDdrDn, ioDdr[0], ioDdr[1]);
      StorePair(exeDdrUp, UpMask, UpMask);
      StorePair(exePortDn, ioPort[0], ioPort[1]);
      StorePair(exePortUp, UpMask, UpMask);
      ok := Execute();
    }

    /** `_execute`: each register becomes `reg & Dn | Up`. */
    method Execute() returns (ok: bool)
      requires Shape()
      modifies this`DDRD, this`DDRB, this`PORTD, this`PORTB
      ensures ok
      ensures Ddr() == CommitPair(old(Ddr()), exeDdrDn[..], exeDdrUp[..])
      ensures Port() == CommitPair(old(Port()), exePortDn[..], exePortUp[..])
    {
      DDRD := Commit(DDRD, exeDdrDn[0], exeDdrUp[0]);
      DDRB := Commit(DDRB, exeDdrDn[1], exeDdrUp[1]);
      PORTD := Commit(PORTD, exePortDn[0], exePortUp[0]);
      PORTB := Commit(PORTB, exePortDn[1], exePortUp[1]);
      ok := true;
    }

    /** Clearing a configured pin's bit leaves the baseline keep-masks as they are. */
    lemma BaselineFixed(p: uint8)
      requires Config() && p in pins
      ensures p < 16
      ensures ClearBit(ioDdr[..], p) == ioDdr[..] && ClearBit(ioPort[..], p) == ioPort[..]
    {
      BaselineBits(pins);
      ClearBitNoop(ioDdr[..], p);
      ClearBitNoop(ioPort[..], p);
    }

    /** `turnOn(row, col)`: light the node at a 1-based row and column.  Columns
        run from 1 to N-1; the source reads past the pin array for any other. */
    method TurnOn(row: uint8, col: uint8) returns (ok: bool)
      requires Valid() && 1 <= row as int <= noOfPins as int && 1 <= col as int < noOfPins as int
      modifies this, exeDdrUp, exeDdrDn, exePortUp, exePortDn
      ensures Valid() && ok
      ensures state == StateActive && activeNode == GetNode(pins, commonType, row as nat, col as nat)
      ensures forall d :: IsNodeOf(pins, d) ==> (Lit(d) <==> d == activeNode)
      ensures forall i :: 0 <= i < |pins| ==>
                PinView()[pins[i]] ==
                  (if pins[i] == activeNode.vcc then High
                   else if pins[i] == activeNode.gnd then Low else Float)
      ensures old(state) == StateActive && old(activeNode) == activeNode ==>
                Ddr() == old(Ddr()) && Port() == old(Port())
      ensures Untouched(old(Ddr()), old(Port()))
    {
      var node := GetNode(pins, commonType, row as nat, col as nat);
      ok := SetNode(node, LevelHigh);
      ConfiguredRoles();
    }

    /** `turnOff(row, col)`: switch the node at a row and column off, if it is
        safe; see SetNode for what the result and the new state are. */
    method TurnOff(row: uint8, col: uint8) returns (ok: bool)
      requires Valid() && 1 <= row as int <= noOfPins as int && 1 <= col as int < noOfPins as int
      modifies this, exeDdrUp, exeDdrDn, exePortUp, exePortDn
      ensures Valid()
      ensures forall d :: IsNodeOf(pins, d) ==> (Lit(d) <==> state == StateActive && d == activeNode)
      ensures Untouched(old(Ddr()), old(Port()))
      ensures var o := Classify(old(activeNode), GetNode(pins, commonType, row as nat, col as nat));
              ok == (o == AllClear || o == ExactMatch) &&
              (o == ExactMatch ==> state == StateInactive && activeNode == NoNode) &&
              (o != ExactMatch ==>
                 state == old(state) && activeNode == old(activeNode) &&
                 Ddr() == old(Ddr()) && Port() == old(Port()) &&
                 exeDdrUp[..] == old(exeDdrUp[..]) && exePortUp[..] == old(exePortUp[..]) &&
                 exeDdrDn[..] == old(exeDdrDn[..]) && exePortDn[..] == old(exePortDn[..]))
    {
      var node := GetNode(pins, commonType, row as nat, col as nat);
      ok := SetNode(node, LevelLow);
    }

    /** `turnOn(index)`: light the node at a 1-based linear index, which the
        source does not check against `_maxNode`. */
    method TurnOnIndex(index: uint16) returns (ok: bool)
      requires Valid() && 1 <= index as int <= maxNode as int
      modifies this, exeDdrUp, exeDdrDn, exePortUp, exePortDn
      ensures Valid() && ok
      ensures state == StateActive && 2 <= |pins| && index as int <= NodeCount(|pins|)
      ensures activeNode == GetNodeIndex(pins, commonType, index as nat)
      ensures forall d :: IsNodeOf(pins, d) ==> (Lit(d) <==> d == activeNode)
      ensures forall i :: 0 <= i < |pins| ==>
                PinView()[pins[i]] ==
                  (if pins[i] == activeNode.vcc then High
                   else if pins[i] == activeNode.gnd then Low else Float)
      ensures old(state) == StateActive && old(activeNode) == activeNode ==>
                Ddr() == old(Ddr()) && Port() == old(Port())
      ensures Untouched(old(Ddr()), old(Port()))
    {
      NodeCountAtLeastOne(noOfPins as int);
      var node := GetNodeIndex(pins, commonType, index as nat);
      ok := SetNode(node, LevelHigh);
      ConfiguredRoles();
    }

    /** `turnOff(index)`: switch the node at a linear index off, if it is safe. */
    method TurnOffIndex(index: uint16) returns (ok: bool)
      requires Valid() && 1 <= index as int <= maxNode as int
      modifies this, exeDdrUp, exeDdrDn, exePortUp, exePortDn
      ensures Valid() && 2 <= |pins| && index as int <= NodeCount(|pins|)
      ensures forall d :: IsNodeOf(pins, d) ==> (Lit(d) <==> state == StateActive && d == activeNode)
      ensures Untouched(old(Ddr()), old(Port()))
      ensures var o := Classify(old(activeNode), GetNodeIndex(pins, commonType, index as nat));
              ok == (o == AllClear || o == ExactMatch) &&
              (o == ExactMatch ==> state == StateInactive && activeNode == NoNode) &&
              (o != ExactMatch ==>
                 state == old(state) && activeNode == old(activeNode) &&
                 Ddr() == old(Ddr()) && Port() == old(Port()) &&
                 exeDdrUp[..] == old(exeDdrUp[..]) && exePortUp[..] == old(exePortUp[..]) &&
                 exeDdrDn[..] == old(exeDdrDn[..]) && exePortDn[..] == old(exePortDn[..]))
    {
      NodeCountAtLeastOne(noOfPins as int);
      var node := GetNodeIndex(pins, commonType, index as nat);
      ok := SetNode(node, LevelLow);
    }

    /** `clear()`: succeed at once when no node is active; otherwise deactivate the
        active node itself, which is always an exact match.  Either way nothing is
        lit afterwards. */
    method Clear() returns (ok: bool)
      requires Valid()
      modifies this, exeDdrUp, exeDdrDn, exePortUp, exePortDn
      ensures Valid() && ok
      ensures state == StateInactive && activeNode == NoNode
      ensures forall d :: IsNodeOf(pins, d) ==> !Lit(d)
      ensures forall i :: 0 <= i < |pins| ==> PinView()[pins[i]] == Float
      ensures Untouched(old(Ddr()), old(Port()))
      ensures old(state) == StateInactive ==> Ddr() == old(Ddr()) && Port() == old(Port())
    {
      if state == StateInactive {
        ok := true;
        OnlyActiveLit();
      } else {
        ClassifySelf(activeNode);
        ok := SetNode(activeNode, LevelLow);
      }
      ConfiguredRoles();
    }

    /** `reset()`: `_init(false)` — forget the active node and commit an empty
        batch against the saved baseline, so every configured pin floats. */
    method Reset() returns (ok: bool)
      requires Config()
      modifies this, exeDdrUp, exeDdrDn, exePortUp, exePortDn, ioDdr, ioPort
      ensures Valid() && ok
      ensures state == StateInactive && activeNode == NoNode
      ensures forall d :: IsNodeOf(pins, d) ==> !Lit(d)
      ensures forall i :: 0 <= i < |pins| ==> PinView()[pins[i]] == Float
      ensures ioDdr[..] == old(ioDdr[..]) && ioPort[..] == old(ioPort[..])
      ensures exeDdrUp[..] == [UpMask, UpMask] && exePortUp[..] == [UpMask, UpMask]
      ensures exeDdrDn[..] == ioDdr[..] && exePortDn[..] == ioPort[..]
      ensures Ddr() == CommitPair(old(Ddr()), Baseline(pins), [UpMask, UpMask])
      ensures Port() == CommitPair(old(Port()), Baseline(pins), [UpMask, UpMask])
    {
      Init(false);
      OnlyActiveLit();
      ConfiguredRoles();
      ok := true;
    }

    /** `_setNode(pin, state)`: a nonzero state activates `pin`, zero deactivates it. */
    method SetNode(pin: DiodeNode, level: uint8) returns (ok: bool)
      requires Valid() && IsNodeOf(pins, pin)
      modifies this, exeDdrUp, exeDdrDn, exePortUp, exePortDn
      ensures Valid()
      ensures Untouched(old(Ddr()), old(Port()))
      ensures forall d :: IsNodeOf(pins, d) ==> (Lit(d) <==> state == StateActive && d == activeNode)
      ensures level != LevelLow ==> ok && state == StateActive && activeNode == pin
      ensures level != LevelLow && old(state) == StateActive && old(activeNode) == pin ==>
                Ddr() == old(Ddr()) && Port() == old(Port())
      ensures level == LevelLow ==>
                var o := Classify(old(activeNode), pin);
                ok == (o == AllClear || o == ExactMatch) &&
                (o == ExactMatch ==> state == StateInactive && activeNode == NoNode) &&
                (o != ExactMatch ==>
                   state == old(state) && activeNode == old(activeNode) &&
                   Ddr() == old(Ddr()) && Port() == old(Port()) &&
                   exeDdrUp[..] == old(exeDdrUp[..]) && exePortUp[..] == old(exePortUp[..]) &&
                   exeDdrDn[..] == old(exeDdrDn[..]) && exePortDn[..] == old(exePortDn[..]))
    {
      if level != LevelLow {
        ok := Activate(pin);
      } else {
        ok := Deactivate(pin);
      }
      OnlyActiveLit();
    }

    /** The activating half of `_setNode`: stage the requested node, record it as
        the active node, and commit. */
    method Activate(pin: DiodeNode) returns (ok: bool)
      requires Valid() && IsNodeOf(pins, pin)
      modifies this, exeDdrUp, exeDdrDn, exePortUp, exePortDn
      ensures Valid()
      ensures Untouched(old(Ddr()), old(Port()))
      ensures ok && state == StateActive && activeNode == pin
      ensures old(state) == StateActive && old(activeNode) == pin ==>
                Ddr() == old(Ddr()) && Port() == old(Port())
    {
      ghost var ddr0, port0 := Ddr(), Port();
      ghost var du, pu := exeDdrUp[..], exePortUp[..];
      ghost var again := state == StateActive && activeNode == pin;
      ghost var staged := StagedOn(state, activeNode, pin, UpView());
      ActivationStagesNode(state, activeNode, pin);
      assert staged == ExpectedView(StateActive, pin);
      if again {
        ReactivationStagesNothing(pin, UpView());
      }
      StageOn(pin);
      assert UpView() == staged;
      if again {
        ViewInjective(exeDdrUp[..], exePortUp[..], du, pu);
      }
      activeNode := pin;
      state := StateActive;
      ok := Execute();
      CommitIsValid(ddr0, port0);
    }

    /** The staging steps of the activating half of `_setNode`: settle the active
        node's two pins, then drive the requested pins that were not reused. */
    method StageOn(pin: DiodeNode)
      requires Config() && IsNodeOf(pins, pin) && Addressable(activeNode)
      requires exeDdrDn[..] == ioDdr[..] && exePortDn[..] == ioPort[..]
      requires state != StateInactive ==> IsNodeOf(pins, activeNode)
      modifies exeDdrUp, exeDdrDn, exePortUp, exePortDn
      ensures exeDdrDn[..] == ioDdr[..] && exePortDn[..] == ioPort[..]
      ensures UpView() == StagedOn(state, activeNode, pin, old(UpView()))
    {
      var chkMatch := SettleVcc(pin);
      chkMatch := SettleGnd(pin, chkMatch);
      if chkMatch & 0x2 != 0x2 {
        var _ := UpPin(pin.vcc);
      }
      if chkMatch & 0x1 != 0x1 {
        BaselineFixed(pin.gnd);
        var _ := DownPin(pin.gnd);
      }
    }

    /** The first activation block: the active vcc is kept when it is the requested
        vcc (flag 0b10), lowered when it is the requested gnd (flag 0b01), and
        floated otherwise while a node is active. */
    method SettleVcc(pin: DiodeNode) returns (flags: bv8)
      requires Config() && IsNodeOf(pins, pin) && Addressable(activeNode)
      requires exeDdrDn[..] == ioDdr[..] && exePortDn[..] == ioPort[..]
      requires state != StateInactive ==> IsNodeOf(pins, activeNode)
      modifies exeDdrUp, exeDdrDn, exePortUp, exePortDn
      ensures exeDdrDn[..] == ioDdr[..] && exePortDn[..] == ioPort[..]
      ensures UpView() == StagedVcc(state, activeNode, pin, old(UpView()))
      ensures flags == if activeNode.vcc == pin.vcc then 0x2
                       else if activeNode.vcc == pin.gnd then 0x1 else 0x0
    {
      flags := 0;
      if activeNode.vcc == pin.vcc {
        flags := flags | 0x2;
      } else if activeNode.vcc == pin.gnd {
        BaselineFixed(pin.gnd);
        var _ := DownPin(pin.gnd);
        flags := flags | 0x1;
      } else if state != StateInactive {
        BaselineFixed(activeNode.vcc);
        var _ := SinkPin(activeNode.vcc);
      }
    }

    /** The second activation block: the active gnd is raised when it is the
        requested vcc (flag 0b10), kept when it is the requested gnd (flag 0b01),
        and floated otherwise while a node is active.  Afterwards the flag records
        exactly which requested pins were reused. */
    method SettleGnd(pin: DiodeNode, chkMatch: bv8) returns (flags: bv8)
      requires Config() && IsNodeOf(pins, pin) && Addressable(activeNode)
      requires exeDdrDn[..] == ioDdr[..] && exePortDn[..] == ioPort[..]
      requires state != StateInactive ==> IsNodeOf(pins, activeNode)
      requires chkMatch == if activeNode.vcc == pin.vcc then 0x2
                           else if activeNode.vcc == pin.gnd then 0x1 else 0x0
      modifies exeDdrUp, exeDdrDn, exePortUp, exePortDn
      ensures exeDdrDn[..] == ioDdr[..] && exePortDn[..] == ioPort[..]
      ensures UpView() == StagedGnd(state, activeNode, pin, old(UpView()))
      ensures (flags & 0x2 == 0x2) == HighReused(activeNode, pin)
      ensures (flags & 0x1 == 0x1) == LowReused(activeNode, pin)
    {
      flags := chkMatch;
      if activeNode.gnd == pin.vcc {
        var _ := UpPin(pin.vcc);
        flags := flags | 0x2;
      } else if activeNode.gnd == pin.gnd {
        flags := flags | 0x1;
      } else if state != StateInactive {
        BaselineFixed(activeNode.gnd);
        var _ := SinkPin(activeNode.gnd);
      }
    }

    /** Committing a batch that stages exactly the active node restores the invariant
        and keeps every unconfigured pin below 14. */
    lemma CommitIsValid(ddr0: seq<bv8>, port0: seq<bv8>)
      requires Config() && |ddr0| == 2 && |port0| == 2
      requires exeDdrDn[..] == ioDdr[..] && exePortDn[..] == ioPort[..]
      requires state == StateActive || state == StateInactive
      requires state == StateInactive ==> activeNode == NoNode
      requires state == StateActive ==> IsNodeOf(pins, activeNode)
      requires Addressable(activeNode) && UpView() == ExpectedView(state, activeNode)
      requires Ddr() == CommitPair(ddr0, exeDdrDn[..], exeDdrUp[..])
      requires Port() == CommitPair(port0, exePortDn[..], exePortUp[..])
      ensures Valid() && Untouched(ddr0, port0)
    {
      CommitIdempotent(ddr0, exeDdrDn[..], exeDdrUp[..]);
      CommitIdempotent(port0, exePortDn[..], exePortUp[..]);
      CommitKeepsOthers(ddr0, port0);
    }

    /** The deactivating half of `_setNode`: classify the request against the active
        node with the three flag bytes and act only on a harmless or an exact match. */
    method Deactivate(pin: DiodeNode) returns (ok: bool)
      requires Valid() && IsNodeOf(pins, pin)
      modifies this, exeDdrUp, exeDdrDn, exePortUp, exePortDn
      ensures Valid()
      ensures Untouched(old(Ddr()), old(Port()))
      ensures var o := Classify(old(activeNode), pin);
              ok == (o == AllClear || o == ExactMatch) &&
              (o == ExactMatch ==> state == StateInactive && activeNode == NoNode) &&
              (o != ExactMatch ==>
                 state == old(state) && activeNode == old(activeNode) &&
                 Ddr() == old(Ddr()) && Port() == old(Port()) &&
                 exeDdrUp[..] == old(exeDdrUp[..]) && exePortUp[..] == old(exePortUp[..]) &&
                 exeDdrDn[..] == old(exeDdrDn[..]) && exePortDn[..] == old(exePortDn[..]))
    {
      var chkMatch, chkConflict, chkClear := CompareOff(pin);
      if chkClear == 0x3 {
        ok := FloatUnrelated(pin);
      } else if chkConflict & 0x3 != 0 {
        ok := false;
      } else if chkMatch == 0x3 {
        ok := Release(pin);
      } else {
        ok := false;
      }
    }

    /** The harmless branch of the deactivating half of `_setNode`: the requested
        pins are not pins of the active node, so sinking them re-stages what is
        already staged and the commit changes no register. */
    method FloatUnrelated(pin: DiodeNode) returns (ok: bool)
      requires Valid() && IsNodeOf(pins, pin) && Classify(activeNode, pin) == AllClear
      modifies this`DDRD, this`DDRB, this`PORTD, this`PORTB
      modifies exeDdrUp, exeDdrDn, exePortUp, exePortDn
      ensures Valid() && ok
      ensures Ddr() == old(Ddr()) && Port() == old(Port())
      ensures exeDdrUp[..] == old(exeDdrUp[..]) && exePortUp[..] == old(exePortUp[..])
      ensures exeDdrDn[..] == old(exeDdrDn[..]) && exePortDn[..] == old(exePortDn[..])
    {
      ghost var du, pu := exeDdrUp[..], exePortUp[..];
      BaselineFixed(pin.vcc);
      BaselineFixed(pin.gnd);
      var _ := SinkPin(pin.vcc);
      var _ := SinkPin(pin.gnd);
      ViewInjective(exeDdrUp[..], exePortUp[..], du, pu);
      ok := Execute();
    }

    /** The exact-match branch of the deactivating half of `_setNode`: float both
        pins of the active node, forget it, and commit. */
    method Release(pin: DiodeNode) returns (ok: bool)
      requires Valid() && IsNodeOf(pins, pin) && activeNode == pin
      modifies this, exeDdrUp, exeDdrDn, exePortUp, exePortDn
      ensures Valid() && ok
      ensures Untouched(old(Ddr()), old(Port()))
      ensures state == StateInactive && activeNode == NoNode
    {
      ghost var ddr0, port0 := Ddr(), Port();
      BaselineFixed(pin.vcc);
      BaselineFixed(pin.gnd);
      var _ := SinkPin(pin.vcc);
      var _ := SinkPin(pin.gnd);
      assert UpView() == ExpectedView(StateInactive, NoNode);
      activeNode := NoNode;
      state := StateInactive;
      ok := Execute();
      CommitIsValid(ddr0, port0);
    }

    /** The two comparison blocks of the deactivating half of `_setNode`: each
        terminal of the active node shifts a 1 into the match, conflict or clear
        flag.  The tests made on the flags decide exactly as Classify does. */
    method CompareOff(pin: DiodeNode) returns (chkMatch: bv8, chkConflict: bv8, chkClear: bv8)
      requires pin.vcc != pin.gnd
      ensures var o := Classify(activeNode, pin);
              (chkClear == 0x3 <==> o == AllClear) &&
              (chkClear != 0x3 ==> (chkConflict & 0x3 != 0 <==> o == Conflicting)) &&
              (chkClear != 0x3 && chkConflict & 0x3 == 0 ==> (chkMatch == 0x3 <==> o == ExactMatch))
    {
      chkMatch, chkConflict, chkClear := 0, 0, 0;
      if activeNode.vcc == pin.vcc {
        chkMatch := ShiftIn(chkMatch);
      } else if activeNode.vcc == pin.gnd {
        chkConflict := ShiftIn(chkConflict);
      } else {
        chkClear := ShiftIn(chkClear);
      }
      if activeNode.gnd == pin.vcc {
        chkConflict := ShiftIn(chkConflict);
      } else if activeNode.gnd == pin.gnd {
        chkMatch := ShiftIn(chkMatch);
      } else {
        chkClear := ShiftIn(chkClear);
      }
    }

    /** `_upPin`: stage `pin` as output-high. */
    method UpPin(pin: uint8) returns (ok: bool)
      requires Shape() && pin < 16
      modifies exeDdrUp, exePortUp
      ensures ok
      ensures exeDdrUp[..] == SetBit(old(exeDdrUp[..]), pin)
      ensures exePortUp[..] == SetBit(old(exePortUp[..]), pin)
      ensures UpView() == old(UpView())[pin := High]
    {
      UpPinView(exeDdrUp[..], exePortUp[..], pin);
      var bm := GetBitMan(pin);
      assert bm == Locate(pin);
      BitSetIn(exeDdrUp, bm, pin);
      BitSetIn(exePortUp, bm, pin);
      ok := true;
    }

    /** `_downPin`: stage `pin` as output-low, and drop it from the PORT keep-mask. */
    method DownPin(pin: uint8) returns (ok: bool)
      requires Shape() && pin < 16
      modifies exeDdrUp, exePortUp, exePortDn
      ensures ok
      ensures exeDdrUp[..] == SetBit(old(exeDdrUp[..]), pin)
      ensures exePortUp[..] == ClearBit(old(exePortUp[..]), pin)
      ensures exePortDn[..] == ClearBit(old(exePortDn[..]), pin)
      ensures UpView() == old(UpView())[pin := Low]
    {
      DownPinView(exeDdrUp[..], exePortUp[..], pin);
      var bm := GetBitMan(pin);
      assert bm == Locate(pin);
      BitClearIn(exePortUp, bm, pin);
      BitSetIn(exeDdrUp, bm, pin);
      BitClearIn(exePortDn, bm, pin);
      ok := true;
    }

    /** `_sinkPin`: stage `pin` as a floating input, and drop it from both keep-masks. */
    method SinkPin(pin: uint8) returns (ok: bool)
      requires Shape() && pin < 16
      modifies exeDdrUp, exePortUp, exeDdrDn, exePortDn
      ensures ok
      ensures exeDdrUp[..] == ClearBit(old(exeDdrUp[..]), pin)
      ensures exePortUp[..] == ClearBit(old(exePortUp[..]), pin)
      ensures exeDdrDn[..] == ClearBit(old(exeDdrDn[..]), pin)
      ensures exePortDn[..] == ClearBit(old(exePortDn[..]), pin)
      ensures UpView() == old(UpView())[pin := Float]
    {
      SinkPinView(exeDdrUp[..], exePortUp[..], pin);
      var bm := GetBitMan(pin);
      assert bm == Locate(pin);
      BitClearIn(exeDdrUp, bm, pin);
      BitClearIn(exePortUp, bm, pin);
      BitClearIn(exeDdrDn, bm, pin);
      BitClearIn(exePortDn, bm, pin);
      ok := true;
    }
  }
}
