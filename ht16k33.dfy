/** The HT16K33 8x8 LED matrix driver. Display RAM address 2x holds column
    x; each bit of the byte written there is one LED of that column. Every
    transaction this driver runs writes bytes and reads one byte back. */
module HT16K33 {
  import opened Bytes
  import opened Dongle

  /** The row byte that lights row y: bit 7 for y = 0, bit y - 1 otherwise. */
  const ROW_BITS: seq<byte> := [0x80, 0x01, 0x02, 0x04, 0x08, 0x10, 0x20, 0x40]

  /** `HT16K33setPixel`'s row byte: `2**y >> 1`, 0x80 in place of 0, and
      every bit flipped with `^ 0xff` to switch the pixel off. */
  function PixelRow(y: int, on: bool): (b: byte)
    requires 0 <= y <= 7
  {
    Pow2Values();
    Pow2Monotone(y, 7);
    var iy := Pow2(y) / 2;
    var row := if iy == 0 then 0x80 else iy;
    XorOnes(row, 8);
    if on then row else Xor(row, 0xFF)
  }

  /** The row byte lights exactly the bit of the table, and the off byte is
      its complement. */
  lemma PixelRowTable(y: int)
    requires 0 <= y <= 7
    ensures PixelRow(y, true) == ROW_BITS[y]
    ensures PixelRow(y, false) == 0xFF - ROW_BITS[y]
  {
    Pow2Values();
    assert Pow2(1) == 2 && Pow2(2) == 4 && Pow2(3) == 8 && Pow2(4) == 16 && Pow2(5) == 32;
    assert ROW_BITS[y] < Pow2(8);
    XorOnes(ROW_BITS[y], 8);
  }

  /** Which row a row byte lights: 0 for bit 7, k + 1 for bit k. */
  function RowOf(b: nat): nat
  {
    if b == 0x80 then 0 else Log2(b) + 1
  }

  function Log2(b: nat): nat
  {
    if b <= 1 then 0 else 1 + Log2(b / 2)
  }

  /** The row byte names its row: reading the row back from the byte gives
      y, so different rows have different row bytes. */
  lemma PixelRowNamesRow(y: int)
    requires 0 <= y <= 7
    ensures RowOf(PixelRow(y, true)) == y
  {
    PixelRowTable(y);
    assert Log2(1) == 0;
    assert Log2(2) == 1 && Log2(4) == 2 && Log2(8) == 3;
    assert Log2(16) == 4 && Log2(32) == 5 && Log2(64) == 6;
  }

  /** The byte `HT16K33setCol` sends: 0x80 plus the low clamp(y, 0, 7) bits. */
  function Clamp(n: int, lo: int, hi: int): int
  {
    if n < lo then lo else if n > hi then hi else n
  }

  function ColBits(y: int): (b: byte)
  {
    Pow2Values();
    0x80 + Pow2(Clamp(y, 0, 7)) - 1
  }

  /** The column byte always has bit 7 set; below it, the bottom
      clamp(y, 0, 7) LEDs are lit and no other. */
  lemma ColBitsMeaning(y: int)
    ensures 0x80 <= ColBits(y) <= 0xFF && Bit7(ColBits(y))
    ensures ColBits(y) % 0x80 == Pow2(Clamp(y, 0, 7)) - 1
    ensures And(ColBits(y), 0x7F) == Pow2(Clamp(y, 0, 7)) - 1
  {
    var n := Clamp(y, 0, 7);
    Pow2Values();
    Pow2Monotone(n, 7);
    Bit7IsHighHalf(ColBits(y));
    DivModUnique(ColBits(y), 0x80, 1, Pow2(n) - 1);
    AndLowBits(ColBits(y), 7);
  }

  lemma {:induction false} Pow2Monotone(i: nat, j: nat)
    requires i <= j
    ensures Pow2(i) <= Pow2(j)
    decreases j
  {
    if i < j {
      Pow2Monotone(i, j - 1);
    }
  }

  /** A taller column lights at least as much; every y from 7 up gives the
      full column and every y from 0 down the empty one. */
  lemma ColBitsMonotone(y1: int, y2: int)
    requires y1 <= y2
    ensures ColBits(y1) <= ColBits(y2)
    ensures y1 >= 7 ==> ColBits(y1) == 0xFF
    ensures y2 <= 0 ==> ColBits(y2) == 0x80
  {
    Pow2Values();
    Pow2Monotone(Clamp(y1, 0, 7), Clamp(y2, 0, 7));
  }

  /** `HT16K33Init`'s commands: oscillator on, display on without blinking,
      ROW/INT pin as row driver, all sixteen RAM bytes to 0xFF, then the
      bottom pixel of every column. */
  function InitSequence(addr: Addr7, name: string): seq<Transaction>
  {
    [Cmd(addr, name, [0x21]), Cmd(addr, name, [0x81]), Cmd(addr, name, [0xA0])]
    + FillAll(addr, name, 16) + BottomRow(addr, name, 8)
  }

  /** `[i, 255]` for i below n. */
  function FillAll(addr: Addr7, name: string, n: nat): (r: seq<Transaction>)
    requires n <= 16
    ensures |r| == n
    ensures forall i :: 0 <= i < n ==> r[i] == Cmd(addr, name, [i, 0xFF])
  {
    if n == 0 then [] else FillAll(addr, name, n - 1) + [Cmd(addr, name, [n - 1, 0xFF])]
  }

  /** `HT16K33setPixel(i, 0)` for i below n. */
  function BottomRow(addr: Addr7, name: string, n: nat): (r: seq<Transaction>)
    requires n <= 8
    ensures |r| == n
  {
    if n == 0 then [] else BottomRow(addr, name, n - 1) + [Cmd(addr, name, [2 * (n - 1), PixelRow(0, true)])]
  }

  /** The bottom-row commands are the pixel writes of setPixel: column i
      at RAM address 2i, row byte 0x80. */
  lemma {:induction false} BottomRowPixels(addr: Addr7, name: string, n: nat)
    requires n <= 8
    ensures forall i :: 0 <= i < n ==> BottomRow(addr, name, n)[i] == Cmd(addr, name, [2 * i, 0x80])
  {
    PixelRowTable(0);
    if n > 0 {
      BottomRowPixels(addr, name, n - 1);
    }
  }

  /** The LED matrix on a bus. */
  class LedHt16k33 {
    const bus: Bus
    const addr: Addr7
    const name: string

    constructor (b: Bus, a: Addr7, n: string)
      ensures bus == b && addr == a && name == n
    {
      bus := b;
      addr := a;
      name := n;
    }

    /** One command, one byte read back and dropped. */
    method Send(data: seq<byte>)
      modifies bus
      ensures bus.issued == old(bus.issued) + [Cmd(addr, name, data)]
      ensures bus.replies == Answer(old(bus.replies), 1).1
    {
      var _ := bus.Ask(Cmd(addr, name, data));
    }

    /** `HT16K33setPixel`: nothing outside the 8x8 matrix, else the row
        byte written to column x's address. */
    method SetPixel(x: int, y: int, on: bool)
      modifies bus
      ensures !(0 <= x <= 7 && 0 <= y <= 7) ==> bus.issued == old(bus.issued) && bus.replies == old(bus.replies)
      ensures 0 <= x <= 7 && 0 <= y <= 7 ==>
        bus.issued == old(bus.issued) + [Cmd(addr, name, [2 * x, PixelRow(y, on)])] &&
        bus.replies == Answer(old(bus.replies), 1).1
    {
      if y < 0 || y > 7 || x < 0 || x > 7 {
        return;
      }
      Send([x * 2, PixelRow(y, on)]);
    }

    /** `HT16K33setCol`: column x lit from the bottom up to row clamp(y,
        0, 7), bit 7 always on. A column whose address 2x is not a byte
        cannot be sent and raises. */
    method SetCol(x: int, y: int) returns (r: Outcome<()>)
      modifies bus
      ensures r.Raised? <==> !(0 <= 2 * x < 256)
      ensures r.Raised? ==> bus.issued == old(bus.issued) && bus.replies == old(bus.replies)
      ensures r.Done? ==> bus.issued == old(bus.issued) + [Cmd(addr, name, [2 * x, ColBits(y)])]
      ensures r.Done? ==> bus.replies == Answer(old(bus.replies), 1).1
    {
      var ix := x * 2;
      var n := Clamp(y, 0, 7);
      var iy := 0x80;
      var i := 0;
      while i < n
        invariant 0 <= i <= n
        invariant iy == 0x80 + Pow2(i) - 1
      {
        iy := iy + Pow2(i);
        i := i + 1;
      }
      assert iy == ColBits(y);
      if !(0 <= ix < 256) {
        return Raised;
      }
      Send([ix, iy]);
      r := Done(());
    }

    /** `HT16K33Init`. */
    method Init()
      modifies bus
      ensures bus.issued == old(bus.issued) + InitSequence(addr, name)
      ensures bus.replies == Dropped(old(bus.replies), |InitSequence(addr, name)|)
    {
      ghost var q := bus.replies;
      ghost var before := bus.issued;
      Send([0x21]);
      Send([0x80 + 0x01 + 0x00]);
      Send([0xA0 + 0x00]);
      ghost var setup := [Cmd(addr, name, [0x21]), Cmd(addr, name, [0x81]), Cmd(addr, name, [0xA0])];
      assert bus.issued == before + setup;
      assert bus.replies == Dropped(q, 3);
      FillRam();
      DroppedAdd(q, 3, 16);
      LightBottomRow();
      DroppedAdd(q, 19, 8);
      assert bus.issued == before + setup + FillAll(addr, name, 16) + BottomRow(addr, name, 8);
    }

    /** `[i, 255]` for every RAM address i in 0..15. */
    method FillRam()
      modifies bus
      ensures bus.issued == old(bus.issued) + FillAll(addr, name, 16)
      ensures bus.replies == Dropped(old(bus.replies), 16)
    {
      var i := 0;
      while i < 16
        invariant 0 <= i <= 16
        invariant bus.issued == old(bus.issued) + FillAll(addr, name, i)
        invariant bus.replies == Dropped(old(bus.replies), i)
      {
        DroppedStep(old(bus.replies), i);
        Send([0x00 + i, 255]);
        i := i + 1;
      }
    }

    /** `setPixel(i, 0)` for every column i in 0..7. */
    method LightBottomRow()
      modifies bus
      ensures bus.issued == old(bus.issued) + BottomRow(addr, name, 8)
      ensures bus.replies == Dropped(old(bus.replies), 8)
    {
      var i := 0;
      while i < 8
        invariant 0 <= i <= 8
        invariant bus.issued == old(bus.issued) + BottomRow(addr, name, i)
        invariant bus.replies == Dropped(old(bus.replies), i)
      {
        DroppedStep(old(bus.replies), i);
        SetPixel(i, 0, true);
        i := i + 1;
      }
    }
  }

  /** The sequence is 27 commands: the three setup bytes, the sixteen RAM
      fills, then a setPixel write for the bottom LED of each column. */
  lemma InitSequenceShape(addr: Addr7, name: string)
    ensures var s := InitSequence(addr, name);
      |s| == 27 &&
      s[0].data == [0x21] && s[1].data == [0x81] && s[2].data == [0xA0] &&
      (forall i :: 0 <= i < 16 ==> s[3 + i] == Cmd(addr, name, [i, 0xFF])) &&
      (forall i :: 0 <= i < 8 ==> s[19 + i] == Cmd(addr, name, [2 * i, PixelRow(0, true)]))
  {
    BottomRowPixels(addr, name, 8);
    PixelRowTable(0);
  }
}
