/** The decisions `_setNode` makes about a requested node relative to the active one,
    and the pin roles that "only the active node is lit" stands for. */
module NodeLogic {
  import opened CharlieTypes
  import opened BitBatch

  /** How one terminal of the active node relates to the requested node: it is the
      same pin in the same role, the same pin in the opposite role, or neither. */
  datatype PinClass = Match | Conflict | Clear

  /** The first deactivation block: the active vcc against the requested vcc, then
      against the requested gnd. */
  function VccClass(active: DiodeNode, node: DiodeNode): (c: PinClass)
    ensures c == Match <==> active.vcc == node.vcc
    ensures c == Conflict <==> active.vcc != node.vcc && active.vcc == node.gnd
  {
    if active.vcc == node.vcc then Match
    else if active.vcc == node.gnd then Conflict
    else Clear
  }

  /** The second deactivation block: the active gnd against the requested vcc (a
      reversed role), then against the requested gnd. */
  function GndClass(active: DiodeNode, node: DiodeNode): (c: PinClass)
    ensures c == Conflict <==> active.gnd == node.vcc
    ensures c == Match <==> active.gnd != node.vcc && active.gnd == node.gnd
  {
    if active.gnd == node.vcc then Conflict
    else if active.gnd == node.gnd then Match
    else Clear
  }

  /** `(flag << 1) | 1`: record one more terminal in a deactivation flag. */
  function ShiftIn(flag: bv8): (r: bv8)
    ensures flag == 0 ==> r == 1
    ensures flag == 1 ==> r == 3
  {
    (flag << 1) | 1
  }

  /** The four ways a deactivation request can end. */
  datatype OffOutcome = AllClear | Conflicting | ExactMatch | PartialMatch

  /** The order in which the flags are tested: all clear first, then any conflict,
      then a full match; anything else is a partial match. */
  function Decide(first: PinClass, second: PinClass): (o: OffOutcome)
    ensures o == AllClear <==> first == Clear && second == Clear
    ensures o == Conflicting <==> (first == Conflict || second == Conflict)
    ensures o == ExactMatch <==> first == Match && second == Match
  {
    if first == Clear && second == Clear then AllClear
    else if first == Conflict || second == Conflict then Conflicting
    else if first == Match && second == Match then ExactMatch
    else PartialMatch
  }

  /** The classification of a deactivation request.  For a node with two distinct
      pins: it is harmless exactly when it shares no pin with the active node,
      conflicts exactly when a pin is shared in the opposite role, matches exactly
      when it is the active node, and is a partial match exactly when one pin is
      shared in the same role and the other is not shared at all. */
  function Classify(active: DiodeNode, node: DiodeNode): (o: OffOutcome)
    ensures node.vcc != node.gnd ==>
              (o == AllClear <==>
                 active.vcc != node.vcc && active.vcc != node.gnd &&
                 active.gnd != node.vcc && active.gnd != node.gnd)
    ensures node.vcc != node.gnd ==>
              (o == Conflicting <==> (active.vcc == node.gnd || active.gnd == node.vcc))
    ensures node.vcc != node.gnd ==> (o == ExactMatch <==> active == node)
    ensures node.vcc != node.gnd ==>
              (o == PartialMatch <==>
                 ((active.vcc == node.vcc && active.gnd != node.vcc && active.gnd != node.gnd) ||
                  (active.gnd == node.gnd && active.vcc != node.vcc && active.vcc != node.gnd)))
  {
    Decide(VccClass(active, node), GndClass(active, node))
  }

  /** A deactivation request naming the active node itself is an exact match: what
      `clear()` relies on. */
  lemma ClassifySelf(active: DiodeNode)
    requires active.vcc != active.gnd
    ensures Classify(active, active) == ExactMatch
  {
  }

  /** While no node is active the recorded node is (0, 0), so a request that uses
      pin 0 looks related to it and is refused, while any other request is harmless. */
  lemma InactiveSentinel(node: DiodeNode)
    requires node.vcc != node.gnd
    ensures Classify(NoNode, node) == AllClear <==> node.vcc != 0 && node.gnd != 0
    ensures node.vcc == 0 || node.gnd == 0 ==>
              Classify(NoNode, node) in {Conflicting, PartialMatch}
  {
  }

  /** A node both of whose pins index a role sequence of length n. */
  predicate Within(n: nat, node: DiodeNode)
  {
    node.vcc < n && node.gnd < n
  }

  /** A node whose pins can be addressed in the two-byte batch arrays. */
  predicate Addressable(node: DiodeNode)
  {
    Within(16, node)
  }

  /** The roles the sixteen batch positions should encode: only the active node's
      vcc high and its gnd low, everything else floating; all floating when inactive. */
  function ExpectedView(state: uint8, active: DiodeNode): (v: seq<PinRole>)
    requires Addressable(active)
    ensures |v| == 16
    ensures forall p :: 0 <= p < 16 ==>
              v[p] == (if state != StateInactive && p == active.gnd then Low
                       else if state != StateInactive && p == active.vcc then High
                       else Float)
  {
    if state != StateInactive then AllFloat[active.vcc := High][active.gnd := Low]
    else AllFloat
  }

  /** Diode (vcc, gnd) conducts when its anode is driven high and its cathode low. */
  predicate Conducts(v: seq<PinRole>, d: DiodeNode)
    requires |v| == 16 && Addressable(d)
  {
    v[d.vcc] == High && v[d.gnd] == Low
  }

  /** The single-active-node property: in the expected roles a diode conducts exactly
      when the matrix is active and the diode is the active node. */
  lemma OnlyActiveConducts(state: uint8, active: DiodeNode, d: DiodeNode)
    requires Addressable(active) && Addressable(d)
    requires state != StateInactive ==> active.vcc != active.gnd
    ensures Conducts(ExpectedView(state, active), d) <==> state != StateInactive && d == active
  {
  }

  /** The activating half of `_setNode` sets bit 0b10 of its match flag when the
      requested vcc is already a pin of the active node (as vcc, or as gnd after it
      was raised) ... */
  predicate HighReused(active: DiodeNode, node: DiodeNode)
  {
    active.vcc == node.vcc || active.gnd == node.vcc
  }

  /** ... and bit 0b01 when the requested gnd is (as the active vcc lowered, or as
      the active gnd). */
  predicate LowReused(active: DiodeNode, node: DiodeNode)
  {
    (active.vcc != node.vcc && active.vcc == node.gnd) ||
    (active.gnd != node.vcc && active.gnd == node.gnd)
  }

  /** The first activation block settles the active vcc: kept when it is the
      requested vcc, lowered when it is the requested gnd, floated otherwise. */
  function StagedVcc(state: uint8, active: DiodeNode, node: DiodeNode, v: seq<PinRole>): (r: seq<PinRole>)
    requires Within(|v|, active) && Within(|v|, node)
    ensures |r| == |v|
  {
    if active.vcc == node.vcc then v
    else if active.vcc == node.gnd then v[node.gnd := Low]
    else if state != StateInactive then v[active.vcc := Float]
    else v
  }

  /** The second activation block settles the active gnd: raised when it is the
      requested vcc, kept when it is the requested gnd, floated otherwise. */
  function StagedGnd(state: uint8, active: DiodeNode, node: DiodeNode, v: seq<PinRole>): (r: seq<PinRole>)
    requires Within(|v|, active) && Within(|v|, node)
    ensures |r| == |v|
  {
    if active.gnd == node.vcc then v[node.vcc := High]
    else if active.gnd == node.gnd then v
    else if state != StateInactive then v[active.gnd := Float]
    else v
  }

  /** The roles the activating half of `_setNode` stages, starting from roles `v`:
      the two blocks, then the requested pins not reused are driven. */
  function StagedOn(state: uint8, active: DiodeNode, node: DiodeNode, v: seq<PinRole>): (r: seq<PinRole>)
    requires Within(|v|, active) && Within(|v|, node)
    ensures |r| == |v|
  {
    var v2 := StagedGnd(state, active, node, StagedVcc(state, active, node, v));
    var v3 := if HighReused(active, node) then v2 else v2[node.vcc := High];
    if LowReused(active, node) then v3 else v3[node.gnd := Low]
  }

  /** When the active node is driven (or, while inactive, the recorded node is a
      single pin), activation leaves the requested vcc high and gnd low, floats
      the pins of the previously active node that it does not reuse, and leaves
      every other pin alone. */
  lemma StagedOnMeaning(state: uint8, active: DiodeNode, node: DiodeNode, v: seq<PinRole>)
    requires Within(|v|, active) && Within(|v|, node) && node.vcc != node.gnd
    requires state == StateInactive ==> active.vcc == active.gnd
    requires state != StateInactive ==>
               active.vcc != active.gnd && v[active.vcc] == High && v[active.gnd] == Low
    ensures forall p :: 0 <= p < |v| ==>
              StagedOn(state, active, node, v)[p] ==
                (if p == node.vcc then High
                 else if p == node.gnd then Low
                 else if state != StateInactive && (p == active.vcc || p == active.gnd) then Float
                 else v[p])
  {
    var r := StagedOn(state, active, node, v);
    forall p | 0 <= p < |v|
      ensures r[p] == (if p == node.vcc then High
                       else if p == node.gnd then Low
                       else if state != StateInactive && (p == active.vcc || p == active.gnd) then Float
                       else v[p])
    {
    }
  }

  /** Activation moves the staged roles from "only the active node" to "only the
      requested node", whichever pins the two share and in whichever roles. */
  lemma ActivationStagesNode(state: uint8, active: DiodeNode, node: DiodeNode)
    requires Addressable(active) && Addressable(node) && node.vcc != node.gnd
    requires state == StateInactive ==> active == NoNode
    requires state != StateInactive ==> active.vcc != active.gnd
    ensures StagedOn(state, active, node, ExpectedView(state, active)) == ExpectedView(StateActive, node)
  {
    StagedOnMeaning(state, active, node, ExpectedView(state, active));
  }

  /** Re-activating the active node stages nothing new. */
  lemma ReactivationStagesNothing(active: DiodeNode, v: seq<PinRole>)
    requires Within(|v|, active) && active.vcc != active.gnd
    ensures StagedOn(StateActive, active, active, v) == v
  {
  }
}
