/** The two-byte batch arrays and the AVR register algebra behind them.  Pin p lives
    in bit p%8 of byte p/8; byte 0 pairs with DDRD/PORTD, byte 1 with DDRB/PORTB.
    A pin's role is read from its direction bit (DDR: 1 = output) and its level
    bit (PORT: output level, or pull-up when input). */
module BitBatch {
  import opened CharlieTypes

  /** `_getBitMan`: the bit and byte of a pin.  The byte number is stored in a
      `uint8_t`, so it wraps for pins of 2048 and above; callers pass `uint8_t` pins. */
  function GetBitMan(pin: uint16): (bm: BitMan)
    ensures bm.x < 8
    ensures pin < 0x800 ==> bm.y * 8 + bm.x == pin
    ensures pin < 0x800 ==> (bm.y < 2 <==> pin < 16)
  {
    BitMan(pin % 8, (pin / 8) % 0x100)
  }

  /** `1 << k` for a bit position k of a byte. */
  function Mask(k: nat): bv8
    requires k < 8
  {
    (1 as bv8) << k
  }

  /** The position of a pin below 16, written without division: what `_getBitMan`
      computes for such a pin. */
  function Locate(pin: nat): (bm: BitMan)
    requires pin < 16
    ensures bm == GetBitMan(pin)
  {
    if pin < 8 then BitMan(pin, 0) else BitMan(pin - 8, 1)
  }

  /** Bit `pin` of a two-byte array. */
  predicate Bit(b: seq<bv8>, pin: nat)
    requires |b| == 2 && pin < 16
  {
    b[Locate(pin).y] & Mask(Locate(pin).x) != 0
  }

  lemma MaskBits(v: bv8, k: nat, j: nat)
    requires k < 8 && j < 8
    ensures ((v | Mask(k)) & Mask(j) != 0) == (j == k || v & Mask(j) != 0)
    ensures ((v & !Mask(k)) & Mask(j) != 0) == (j != k && v & Mask(j) != 0)
  {
  }

  /** Arduino's `bitSet` on bit `pin` of a two-byte array. */
  function SetBit(b: seq<bv8>, pin: nat): (r: seq<bv8>)
    requires |b| == 2 && pin < 16
    ensures |r| == 2
  {
    b[Locate(pin).y := b[Locate(pin).y] | Mask(Locate(pin).x)]
  }

  /** Arduino's `bitClear` on bit `pin` of a two-byte array. */
  function ClearBit(b: seq<bv8>, pin: nat): (r: seq<bv8>)
    requires |b| == 2 && pin < 16
    ensures |r| == 2
  {
    b[Locate(pin).y := b[Locate(pin).y] & !Mask(Locate(pin).x)]
  }

  /** `bitSet` makes bit `pin` 1 and leaves every other bit as it was. */
  lemma SetBitMeaning(b: seq<bv8>, pin: nat)
    requires |b| == 2 && pin < 16
    ensures forall q :: 0 <= q < 16 ==> Bit(SetBit(b, pin), q) == (q == pin || Bit(b, q))
  {
    var bm := Locate(pin);
    forall q | 0 <= q < 16
      ensures Bit(SetBit(b, pin), q) == (q == pin || Bit(b, q))
    {
      var bq := Locate(q);
      if bq.y == bm.y {
        MaskBits(b[bq.y], bm.x, bq.x);
      }
    }
  }

  /** `bitClear` makes bit `pin` 0 and leaves every other bit as it was. */
  lemma ClearBitMeaning(b: seq<bv8>, pin: nat)
    requires |b| == 2 && pin < 16
    ensures forall q :: 0 <= q < 16 ==> Bit(ClearBit(b, pin), q) == (q != pin && Bit(b, q))
  {
    var bm := Locate(pin);
    forall q | 0 <= q < 16
      ensures Bit(ClearBit(b, pin), q) == (q != pin && Bit(b, q))
    {
      var bq := Locate(q);
      if bq.y == bm.y {
        MaskBits(b[bq.y], bm.x, bq.x);
      }
    }
  }

  lemma ByteExtensional(u: bv8, v: bv8)
    requires forall k :: 0 <= k < 8 ==> (u & Mask(k) != 0) == (v & Mask(k) != 0)
    ensures u == v
  {
    assert (u & Mask(0) != 0) == (v & Mask(0) != 0);
    assert (u & Mask(1) != 0) == (v & Mask(1) != 0);
    assert (u & Mask(2) != 0) == (v & Mask(2) != 0);
    assert (u & Mask(3) != 0) == (v & Mask(3) != 0);
    assert (u & Mask(4) != 0) == (v & Mask(4) != 0);
    assert (u & Mask(5) != 0) == (v & Mask(5) != 0);
    assert (u & Mask(6) != 0) == (v & Mask(6) != 0);
    assert (u & Mask(7) != 0) == (v & Mask(7) != 0);
  }

  /** A two-byte array is determined by its sixteen bits. */
  lemma BitsDetermine(a: seq<bv8>, b: seq<bv8>)
    requires |a| == 2 && |b| == 2
    requires forall q :: 0 <= q < 16 ==> Bit(a, q) == Bit(b, q)
    ensures a == b
  {
    forall y | 0 <= y < 2
      ensures a[y] == b[y]
    {
      forall k | 0 <= k < 8
        ensures (a[y] & Mask(k) != 0) == (b[y] & Mask(k) != 0)
      {
        assert Locate(y * 8 + k) == BitMan(k, y);
        assert Bit(a, y * 8 + k) == Bit(b, y * 8 + k);
      }
      ByteExtensional(a[y], b[y]);
    }
  }

  /** Clearing a bit that is already 0 changes nothing. */
  lemma ClearBitNoop(b: seq<bv8>, pin: nat)
    requires |b| == 2 && pin < 16 && !Bit(b, pin)
    ensures ClearBit(b, pin) == b
  {
    ClearBitMeaning(b, pin);
    BitsDetermine(ClearBit(b, pin), b);
  }

  /** The role of a pin from its DDR and PORT bits. */
  function RoleOf(ddr: bool, port: bool): PinRole
  {
    if ddr then (if port then High else Low) else (if port then PullUp else Float)
  }

  /** The roles of all sixteen pins that a pair of DDR and PORT byte arrays encode. */
  function View(ddr: seq<bv8>, port: seq<bv8>): (v: seq<PinRole>)
    requires |ddr| == 2 && |port| == 2
    ensures |v| == 16
  {
    seq(16, p requires 0 <= p < 16 => RoleOf(Bit(ddr, p), Bit(port, p)))
  }

  /** Every pin floating. */
  const AllFloat: seq<PinRole> :=
    [Float, Float, Float, Float, Float, Float, Float, Float,
     Float, Float, Float, Float, Float, Float, Float, Float]

  /** The roles determine the bits: different arrays never encode the same roles. */
  lemma ViewInjective(d1: seq<bv8>, p1: seq<bv8>, d2: seq<bv8>, p2: seq<bv8>)
    requires |d1| == 2 && |p1| == 2 && |d2| == 2 && |p2| == 2
    requires View(d1, p1) == View(d2, p2)
    ensures d1 == d2 && p1 == p2
  {
    forall q | 0 <= q < 16
      ensures Bit(d1, q) == Bit(d2, q) && Bit(p1, q) == Bit(p2, q)
    {
      assert View(d1, p1)[q] == View(d2, p2)[q];
    }
    BitsDetermine(d1, d2);
    BitsDetermine(p1, p2);
  }

  /** Up bytes at `UpMask` encode every pin floating. */
  lemma UpMaskFloats()
    ensures View([UpMask, UpMask], [UpMask, UpMask]) == AllFloat
  {
    forall q | 0 <= q < 16
      ensures View([UpMask, UpMask], [UpMask, UpMask])[q] == Float
    {
      assert !Bit([UpMask, UpMask], q);
    }
  }

  /** `_upPin` on the Up arrays: set the direction and the level bit, so that pin
      alone becomes output-high. */
  lemma UpPinView(ddrUp: seq<bv8>, portUp: seq<bv8>, pin: nat)
    requires |ddrUp| == 2 && |portUp| == 2 && pin < 16
    ensures View(SetBit(ddrUp, pin), SetBit(portUp, pin)) == View(ddrUp, portUp)[pin := High]
  {
    SetBitMeaning(ddrUp, pin);
    SetBitMeaning(portUp, pin);
    assert forall q :: 0 <= q < 16 ==>
      View(SetBit(ddrUp, pin), SetBit(portUp, pin))[q] == View(ddrUp, portUp)[pin := High][q];
  }

  /** `_downPin` on the Up arrays: set the direction bit, clear the level bit, so
      that pin alone becomes output-low. */
  lemma DownPinView(ddrUp: seq<bv8>, portUp: seq<bv8>, pin: nat)
    requires |ddrUp| == 2 && |portUp| == 2 && pin < 16
    ensures View(SetBit(ddrUp, pin), ClearBit(portUp, pin)) == View(ddrUp, portUp)[pin := Low]
  {
    SetBitMeaning(ddrUp, pin);
    ClearBitMeaning(portUp, pin);
    assert forall q :: 0 <= q < 16 ==>
      View(SetBit(ddrUp, pin), ClearBit(portUp, pin))[q] == View(ddrUp, portUp)[pin := Low][q];
  }

  /** `_sinkPin` on the Up arrays: clear both bits, so that pin alone floats. */
  lemma SinkPinView(ddrUp: seq<bv8>, portUp: seq<bv8>, pin: nat)
    requires |ddrUp| == 2 && |portUp| == 2 && pin < 16
    ensures View(ClearBit(ddrUp, pin), ClearBit(portUp, pin)) == View(ddrUp, portUp)[pin := Float]
  {
    ClearBitMeaning(ddrUp, pin);
    ClearBitMeaning(portUp, pin);
    assert forall q :: 0 <= q < 16 ==>
      View(ClearBit(ddrUp, pin), ClearBit(portUp, pin))[q] == View(ddrUp, portUp)[pin := Float][q];
  }

  /** `_execute` for one register: `reg & Dn | Up`. */
  function Commit(reg: bv8, dn: bv8, up: bv8): bv8
  {
    (reg & dn) | up
  }

  /** `_execute` for a register pair (DDRD/DDRB or PORTD/PORTB). */
  function CommitPair(reg: seq<bv8>, dn: seq<bv8>, up: seq<bv8>): (r: seq<bv8>)
    requires |reg| == 2 && |dn| == 2 && |up| == 2
    ensures |r| == 2
  {
    [Commit(reg[0], dn[0], up[0]), Commit(reg[1], dn[1], up[1])]
  }

  lemma CommitByteBit(reg: bv8, dn: bv8, up: bv8, k: nat)
    requires k < 8
    ensures (Commit(reg, dn, up) & Mask(k) != 0) ==
            (up & Mask(k) != 0 || (reg & Mask(k) != 0 && dn & Mask(k) != 0))
  {
  }

  /** After a commit a bit is 1 where Up is set, 0 where Up and Dn are both clear,
      and what it was otherwise. */
  lemma CommitPairMeaning(reg: seq<bv8>, dn: seq<bv8>, up: seq<bv8>)
    requires |reg| == 2 && |dn| == 2 && |up| == 2
    ensures forall p :: 0 <= p < 16 ==>
              Bit(CommitPair(reg, dn, up), p) == (Bit(up, p) || (Bit(reg, p) && Bit(dn, p)))
  {
    forall p | 0 <= p < 16
      ensures Bit(CommitPair(reg, dn, up), p) == (Bit(up, p) || (Bit(reg, p) && Bit(dn, p)))
    {
      var bm := Locate(p);
      CommitByteBit(reg[bm.y], dn[bm.y], up[bm.y], bm.x);
    }
  }

  /** Committing the same batch twice is the same as committing it once. */
  lemma CommitIdempotent(reg: seq<bv8>, dn: seq<bv8>, up: seq<bv8>)
    requires |reg| == 2 && |dn| == 2 && |up| == 2
    ensures CommitPair(CommitPair(reg, dn, up), dn, up) == CommitPair(reg, dn, up)
  {
    CommitPairMeaning(reg, dn, up);
    CommitPairMeaning(CommitPair(reg, dn, up), dn, up);
    BitsDetermine(CommitPair(CommitPair(reg, dn, up), dn, up), CommitPair(reg, dn, up));
  }

  /** The Dn bytes before `_init` clears the configured pins: all of byte 0 and the
      low six bits of byte 1. */
  const InitialDn: seq<bv8> := [0xFF, 0x3F]

  lemma InitialDnBits(q: nat)
    requires q < 16
    ensures Bit(InitialDn, q) == (q < 14)
  {
    var bm := Locate(q);
    if bm.y == 0 {
      assert InitialDn[0] & Mask(bm.x) != 0;
    } else {
      assert (InitialDn[1] & Mask(bm.x) != 0) == (bm.x < 6);
    }
  }

  predicate PinsBelow16(ps: seq<uint8>)
  {
    forall i :: 0 <= i < |ps| ==> ps[i] < 16
  }

  /** `_sinkPin` applied to each pin of `ps` in turn, on one Dn array. */
  function ClearAll(b: seq<bv8>, ps: seq<uint8>): (r: seq<bv8>)
    requires |b| == 2 && PinsBelow16(ps)
    ensures |r| == 2
    ensures forall q :: 0 <= q < 16 ==> Bit(r, q) == (Bit(b, q) && q !in ps)
    decreases |ps|
  {
    if ps == [] then b
    else
      var last := ps[|ps| - 1];
      var r := ClearBit(ClearAll(b, ps[..|ps| - 1]), last);
      ClearBitMeaning(ClearAll(b, ps[..|ps| - 1]), last);
      assert ps == ps[..|ps| - 1] + [last];
      r
  }

  /** `_ioDDR` / `_ioPORT` as saved by `_init(true)`. */
  function Baseline(pins: seq<uint8>): (r: seq<bv8>)
    requires PinsBelow16(pins)
    ensures |r| == 2
  {
    ClearAll(InitialDn, pins)
  }

  /** In the baseline exactly the configured pins' bits are 0, apart from pins 14
      and 15 (bits 6-7 of byte 1), which the initial mask already clears. */
  lemma BaselineBits(pins: seq<uint8>)
    requires PinsBelow16(pins)
    ensures forall q :: 0 <= q < 16 ==> Bit(Baseline(pins), q) == (q < 14 && q !in pins)
  {
    forall q | 0 <= q < 16
      ensures Bit(Baseline(pins), q) == (q < 14 && q !in pins)
    {
      InitialDnBits(q);
    }
  }

  /** Committed against the baseline, a configured pin's bit is exactly its Up bit. */
  lemma ConfiguredFollowsUp(pins: seq<uint8>, reg: seq<bv8>, up: seq<bv8>, q: nat)
    requires PinsBelow16(pins) && |reg| == 2 && |up| == 2 && q in pins
    ensures q < 16 && Bit(CommitPair(reg, Baseline(pins), up), q) == Bit(up, q)
  {
    CommitPairMeaning(reg, Baseline(pins), up);
    BaselineBits(pins);
  }

  /** Committed against the baseline, an unconfigured pin below 14 whose Up bit is
      clear keeps its register bit. */
  lemma OthersKept(pins: seq<uint8>, reg: seq<bv8>, up: seq<bv8>, q: nat)
    requires PinsBelow16(pins) && |reg| == 2 && |up| == 2
    requires q < 14 && q !in pins && !Bit(up, q)
    ensures Bit(CommitPair(reg, Baseline(pins), up), q) == Bit(reg, q)
  {
    CommitPairMeaning(reg, Baseline(pins), up);
    BaselineBits(pins);
  }

  /** `a[0] = lo; a[1] = hi;` on a batch array. */
  method StorePair(a: array<bv8>, lo: bv8, hi: bv8)
    requires a.Length == 2
    modifies a
    ensures a[..] == [lo, hi]
  {
    a[0] := lo;
    a[1] := hi;
  }

  /** Arduino's `bitSet(a[bm.y], bm.x)` on a batch array, where `bm` locates `pin`. */
  method BitSetIn(a: array<bv8>, bm: BitMan, ghost pin: nat)
    requires a.Length == 2 && pin < 16 && bm == Locate(pin)
    modifies a
    ensures a[..] == SetBit(old(a[..]), pin)
  {
    a[bm.y] := a[bm.y] | Mask(bm.x);
  }

  /** Arduino's `bitClear(a[bm.y], bm.x)` on a batch array, where `bm` locates `pin`. */
  method BitClearIn(a: array<bv8>, bm: BitMan, ghost pin: nat)
    requires a.Length == 2 && pin < 16 && bm == Locate(pin)
    modifies a
    ensures a[..] == ClearBit(old(a[..]), pin)
  {
    a[bm.y] := a[bm.y] & !Mask(bm.x);
  }
}
