/** The LM75 and LM75B temperature sensors. The temperature register is two
    bytes, most significant first, whose top bits hold a two's-complement
    count: 11 bits of eighths of a degree Celsius on the LM75B, 9 bits of
    halves on the LM75. */
module LM75 {
  import opened Bytes
  import opened Dongle

  /** The subtype `LM75B` reads eighths; every other subtype reads halves. */
  datatype Resolution = Eighths | Halves

  function ResolutionOf(subtype: string): Resolution
  {
    if subtype == "LM75B" then Eighths else Halves
  }

  /** How many distinct counts the resolution has (2^11 or 2^9). */
  function Span(res: Resolution): nat
  {
    if res == Eighths then 0x800 else 0x200
  }

  /** How far the count is shifted up inside the 16-bit register. */
  function Unit(res: Resolution): nat
  {
    if res == Eighths then 32 else 128
  }

  /** `msb << 8 | lsb`. */
  function Register(msb: byte, lsb: byte): nat
  {
    Or(msb * 256, lsb)
  }

  /** The count's bits, unsigned: the register shifted right by 5 or 7. */
  function Raw(msb: byte, lsb: byte, res: Resolution): nat
  {
    Register(msb, lsb) / Unit(res)
  }

  /** The sign step of `__calcTemperature`: subtract 2^11 (2^9) when bit 10
      (bit 8) is set. */
  function Signed(t: nat, res: Resolution): int
  {
    if res == Eighths then
      if And(t, 0x400) != 0 then t - 0x800 else t
    else
      if And(t, 0x100) != 0 then t - 0x200 else t
  }

  /** The temperature in eighths (LM75B) or halves (LM75) of a degree. */
  function Counts(msb: byte, lsb: byte, res: Resolution): int
  {
    Signed(Raw(msb, lsb, res), res)
  }

  /** The bytes of the register as the sensor would present a count, with
      the unused low bits clear: an independent encoder to check the
      decoder against. */
  function Encode(c: int, res: Resolution): (r: (byte, byte))
    requires -(Span(res) / 2) <= c < Span(res) / 2
    ensures r.0 * 256 + r.1 == (if c < 0 then c + Span(res) else c) * Unit(res)
  {
    var w := (if c < 0 then c + Span(res) else c) * Unit(res);
    (w / 256, w % 256)
  }

  /** `|` joins the two bytes without carries. */
  lemma RegisterIsBE16(msb: byte, lsb: byte)
    ensures Register(msb, lsb) == BE16(msb, lsb)
  {
    Pow2Values();
    AndShifted(msb, lsb, 8);
    OrDisjoint(msb * 256, lsb);
  }

  lemma RawBound(msb: byte, lsb: byte, res: Resolution)
    ensures Raw(msb, lsb, res) < Span(res)
  {
    RegisterIsBE16(msb, lsb);
  }

  /** The sign test picks out the top bit of the count. */
  lemma SignedTwos(t: nat, res: Resolution)
    requires t < Span(res)
    ensures Signed(t, res) == if t >= Span(res) / 2 then t - Span(res) else t
  {
    var k := if res == Eighths then 10 else 8;
    var half := Span(res) / 2;
    assert Pow2(k) == half by {
      Pow2Values();
      assert Pow2(9) == 0x200;
      assert Pow2(10) == 0x400;
    }
    AndBit(t, k);
    DivModUnique(t, half, if t >= half then 1 else 0, if t >= half then t - half else t);
  }

  /** The count is the two's-complement reading of the register's top bits:
      it lies in [-2^10, 2^10) for eighths and [-2^8, 2^8) for halves, and
      differs from the unsigned bits by a multiple of the span. */
  lemma CountsRange(msb: byte, lsb: byte, res: Resolution)
    ensures -(Span(res) / 2) <= Counts(msb, lsb, res) < Span(res) / 2
    ensures var t := Raw(msb, lsb, res);
      Counts(msb, lsb, res) == t || Counts(msb, lsb, res) == t - Span(res)
  {
    RawBound(msb, lsb, res);
    SignedTwos(Raw(msb, lsb, res), res);
  }

  /** Decoding an encoded count gives the count back. */
  lemma EncodeDecodes(c: int, res: Resolution)
    requires -(Span(res) / 2) <= c < Span(res) / 2
    ensures Counts(Encode(c, res).0, Encode(c, res).1, res) == c
  {
    var (msb, lsb) := Encode(c, res);
    var v := if c < 0 then c + Span(res) else c;
    RegisterIsBE16(msb, lsb);
    DivModUnique(msb * 256 + lsb, Unit(res), v, 0);
    SignedTwos(v, res);
  }

  /** Encoding a decoded count gives the register back, less the low bits
      the sensor does not use. */
  lemma DecodeEncodes(msb: byte, lsb: byte, res: Resolution)
    ensures var c := Counts(msb, lsb, res);
      -(Span(res) / 2) <= c < Span(res) / 2 && Encode(c, res) == (msb, lsb - lsb % Unit(res))
  {
    var c := Counts(msb, lsb, res);
    CountsRange(msb, lsb, res);
    var t := Raw(msb, lsb, res);
    RawBound(msb, lsb, res);
    assert (if c < 0 then c + Span(res) else c) == t;
    var low := lsb - lsb % Unit(res);
    RawTimesUnit(msb, lsb, res);
    DivModUnique(t * Unit(res), 256, msb, low);
  }

  /** The count's bits put back in place: the register without its unused
      low bits. */
  lemma RawTimesUnit(msb: byte, lsb: byte, res: Resolution)
    ensures Raw(msb, lsb, res) * Unit(res) == msb * 256 + (lsb - lsb % Unit(res))
  {
    RegisterIsBE16(msb, lsb);
    LowBitsCleared(msb, lsb, Unit(res));
  }

  lemma LowBitsCleared(msb: byte, lsb: byte, u: nat)
    requires u == 32 || u == 128
    ensures (BE16(msb, lsb) / u) * u == msb * 256 + (lsb - lsb % u)
  {
    var r := lsb % u;
    var q := msb * (256 / u) + lsb / u;
    assert msb * 256 == (msb * (256 / u)) * u;
    assert lsb == (lsb / u) * u + r;
    assert BE16(msb, lsb) == q * u + r;
    DivModUnique(BE16(msb, lsb), u, q, r);
  }

  /** The datasheet's table of 11-bit register values. */
  lemma EighthsTable(t: nat, c: int)
    requires (t, c) in {(0x3F8, 1016), (0x3F7, 1015), (0x3F1, 1009), (0x3E8, 1000),
                        (0x0C8, 200), (0x001, 1), (0x000, 0), (0x7FF, -1),
                        (0x738, -200), (0x649, -439), (0x648, -440)}
    ensures Signed(t, Eighths) == c
  {
    SignedTwos(t, Eighths);
  }

  /** The register bytes 1A 80 read 26.5 degrees on either subtype: 212
      eighths or 53 halves. */
  lemma Example1A80(msb: byte, lsb: byte)
    requires msb == 0x1A && lsb == 0x80
    ensures Counts(msb, lsb, Eighths) == 212
    ensures Counts(msb, lsb, Halves) == 53
  {
    RegisterIsBE16(msb, lsb);
    assert Raw(msb, lsb, Eighths) == 212;
    assert Raw(msb, lsb, Halves) == 53;
    SignedTwos(212, Eighths);
    SignedTwos(53, Halves);
  }

  /** The register bytes 1A A0 of the ELV log read 53 halves, 26.5 degrees,
      on a 9-bit LM75, and 213 eighths, 26.625 degrees, on an LM75B. */
  lemma Example1AA0(msb: byte, lsb: byte)
    requires msb == 0x1A && lsb == 0xA0
    ensures Counts(msb, lsb, Eighths) == 213
    ensures Counts(msb, lsb, Halves) == 53
  {
    RegisterIsBE16(msb, lsb);
    assert Raw(msb, lsb, Eighths) == 213;
    assert Raw(msb, lsb, Halves) == 53;
    SignedTwos(213, Eighths);
    SignedTwos(53, Halves);
  }

  /** The transaction behind every reading: write register 0, read 2 bytes. */
  function ReadTemperature(addr: Addr7, name: string): Transaction
  {
    Transaction(addr, [0x00], 2, 0, name)
  }

  /** An LM75 or LM75B on a bus. */
  class SensorLm75 {
    const bus: Bus
    const addr: Addr7
    const resolution: Resolution
    const name: string

    constructor (b: Bus, a: Addr7, subtype: string, n: string)
      ensures bus == b && addr == a && name == n
      ensures resolution == ResolutionOf(subtype)
    {
      bus := b;
      addr := a;
      resolution := ResolutionOf(subtype);
      name := n;
    }

    /** `LM75Init`: select the temperature register; the answer is dropped. */
    method Init()
      modifies bus
      ensures bus.issued == old(bus.issued) + [ReadTemperature(addr, name)]
      ensures bus.replies == Answer(old(bus.replies), 2).1
    {
      var _ := bus.Ask(ReadTemperature(addr, name));
    }

    /** `LM75getTemp`: one transaction, then the first two answer bytes as
        msb and lsb; a shorter answer raises. */
    method GetTemp() returns (r: Outcome<int>)
      modifies bus
      ensures bus.issued == old(bus.issued) + [ReadTemperature(addr, name)]
      ensures bus.replies == Answer(old(bus.replies), 2).1
      ensures var a := Answer(old(bus.replies), 2).0.value;
        (r.Done? <==> |a| >= 2) && (r.Done? ==> r.value == Counts(a[0], a[1], resolution))
    {
      var answ := bus.Ask(ReadTemperature(addr, name));
      var a := answ.value;
      if |a| < 2 {
        return Raised;
      }
      var msb, lsb := a[0], a[1];
      r := Done(Counts(msb, lsb, resolution));
    }
  }
}
