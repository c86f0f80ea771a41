/** Byte-level helpers shared by the adapters and the sensor drivers:
    the byte type, the bitwise operators of Python on one byte, the
    two-digit upper-case hexadecimal rendering "{:02X}" and the ASCII
    whitespace and case rules that Python's bytes methods apply. */
module Bytes {

  type byte = x: int | 0 <= x < 256

  datatype Option<T> = None | Some(value: T)

  /** Sequence identities, stated once so that proofs about large sequences
      can use them without unfolding the sequences. */
  lemma AppendEmpty<T>(s: seq<T>)
    ensures s + [] == s && [] + s == s
  {
  }

  lemma Assoc<T>(a: seq<T>, b: seq<T>, c: seq<T>)
    ensures a + (b + c) == (a + b) + c
  {
  }

  /** `w` repeated `k` times; a one-element `w` gives k copies of its
      element. */
  function Repeat<T>(w: seq<T>, k: nat): (r: seq<T>)
    ensures |w| == 1 ==> |r| == k
    ensures |w| == 1 ==> forall i :: 0 <= i < k ==> r[i] == w[0]
  {
    if k == 0 then [] else Repeat(w, k - 1) + w
  }

  /** One more copy after a prefix. */
  lemma RepeatMore<T>(pre: seq<T>, w: seq<T>, k: nat)
    ensures (pre + Repeat(w, k)) + w == pre + Repeat(w, k + 1)
  {
  }

  lemma RepeatOnce<T>(w: seq<T>)
    ensures Repeat(w, 1) == w
  {
    assert Repeat(w, 1) == [] + w;
  }

  /** a copies then b copies are a + b copies. */
  lemma {:induction false} RepeatAdd<T>(w: seq<T>, a: nat, b: nat)
    ensures Repeat(w, a) + Repeat(w, b) == Repeat(w, a + b)
    decreases b
  {
    if b > 0 {
      RepeatAdd(w, a, b - 1);
      Assoc(Repeat(w, a), Repeat(w, b - 1), w);
    }
  }

  /** A run of zero bytes, used to pad reports. */
  function Zeros(n: nat): (z: seq<byte>)
    ensures |z| == n
    ensures forall i :: 0 <= i < n ==> z[i] == 0
  {
    seq(n, _ => 0)
  }

  /** 2 to the power k. */
  function Pow2(k: nat): (p: nat)
    ensures p >= 1
  {
    if k == 0 then 1 else 2 * Pow2(k - 1)
  }

  /** Python's `&`, `|` and `^` on non-negative integers, bit by bit from the
      least significant bit up. */
  function And(a: nat, b: nat): (r: nat)
    ensures r <= a && r <= b
    decreases a
  {
    if a == 0 || b == 0 then 0
    else 2 * And(a / 2, b / 2) + if a % 2 == 1 && b % 2 == 1 then 1 else 0
  }

  function Or(a: nat, b: nat): (r: nat)
    ensures r <= a + b
    decreases a + b
  {
    if a == 0 then b
    else if b == 0 then a
    else 2 * Or(a / 2, b / 2) + if a % 2 == 1 || b % 2 == 1 then 1 else 0
  }

  function Xor(a: nat, b: nat): (r: nat)
    ensures r <= a + b
    decreases a + b
  {
    if a == 0 then b
    else if b == 0 then a
    else 2 * Xor(a / 2, b / 2) + if a % 2 != b % 2 then 1 else 0
  }

  /** Combining two k-bit values with `|` or `^` gives a k-bit value. */
  lemma {:induction false} OrXorBound(a: nat, b: nat, k: nat)
    requires a < Pow2(k) && b < Pow2(k)
    ensures Or(a, b) < Pow2(k) && Xor(a, b) < Pow2(k)
    decreases k
  {
    if k > 0 && a > 0 && b > 0 {
      OrXorBound(a / 2, b / 2, k - 1);
    }
  }

  /** Masking with 1 keeps the lowest bit. */
  lemma AndOne(a: nat)
    ensures And(a, 1) == a % 2
  {
  }

  /** Masking with k one-bits keeps the value modulo 2^k. */
  lemma {:induction false} AndLowBits(a: nat, k: nat)
    ensures And(a, Pow2(k) - 1) == a % Pow2(k)
    decreases k
  {
    if k == 0 {
      DivModUnique(a, 1, a, 0);
    } else if a == 0 {
      DivModUnique(0, Pow2(k), 0, 0);
    } else {
      AndLowBits(a / 2, k - 1);
      AndLowBitsStep(a, k);
    }
  }

  lemma AndLowBitsStep(a: nat, k: nat)
    requires a > 0 && k > 0
    requires And(a / 2, Pow2(k - 1) - 1) == (a / 2) % Pow2(k - 1)
    ensures And(a, Pow2(k) - 1) == a % Pow2(k)
  {
    var h := Pow2(k - 1);
    var p := Pow2(k);
    AndLowStep(a, h, p);
    DivModHalf(a, h, p);
  }

  lemma AndLowStep(a: nat, h: nat, p: nat)
    requires a > 0 && h >= 1 && p == 2 * h
    ensures And(a, p - 1) == 2 * And(a / 2, h - 1) + a % 2
  {
    assert (p - 1) / 2 == h - 1 && (p - 1) % 2 == 1;
  }

  lemma DivModUnique(a: int, d: int, q: int, r: int)
    requires d > 0 && a == q * d + r && 0 <= r < d
    ensures a / d == q && a % d == r
  {
    var k := q - a / d;
    assert k * d == a % d - r;
    assert k >= 1 ==> k * d >= d by {
      assert k * d - d == (k - 1) * d;
    }
    assert k <= -1 ==> k * d <= -d by {
      assert k * d + d == (k + 1) * d;
    }
  }

  /** Dividing by p = 2h is halving, then dividing by h. */
  lemma DivModHalf(a: nat, h: nat, p: nat)
    requires h >= 1 && p == 2 * h
    ensures a / p == (a / 2) / h
    ensures a % p == 2 * ((a / 2) % h) + a % 2
  {
    var q := (a / 2) / h;
    var r := (a / 2) % h;
    assert a / 2 == q * h + r;
    assert a == q * p + (2 * r + a % 2);
    DivModUnique(a, p, q, 2 * r + a % 2);
  }

  /** Masking with the single bit 2^k tests bit k. */
  lemma {:induction false} AndBit(a: nat, k: nat)
    ensures And(a, Pow2(k)) == if (a / Pow2(k)) % 2 == 1 then Pow2(k) else 0
    decreases k
  {
    var p := Pow2(k);
    if k == 0 {
      assert p == 1;
      DivModUnique(a, 1, a, 0);
      if a > 0 {
        assert And(a, 1) == 2 * And(a / 2, 0) + (if a % 2 == 1 then 1 else 0);
      }
    } else if a == 0 {
      assert And(0, p) == 0;
      DivModUnique(0, p, 0, 0);
    } else {
      var h := Pow2(k - 1);
      assert p == 2 * h;
      assert p / 2 == h && p % 2 == 0;
      assert And(a, p) == 2 * And(a / 2, h);
      AndBit(a / 2, k - 1);
      DivModHalf(a, h, p);
    }
  }

  /** `|` of two values with no bit in common is their sum. */
  lemma {:induction false} OrDisjoint(a: nat, b: nat)
    requires And(a, b) == 0
    ensures Or(a, b) == a + b
    decreases a + b
  {
    if a > 0 && b > 0 {
      assert And(a / 2, b / 2) == 0;
      OrDisjoint(a / 2, b / 2);
    }
  }

  /** A value shifted left by k has no bit in common with a k-bit value. */
  lemma {:induction false} AndShifted(a: nat, b: nat, k: nat)
    requires b < Pow2(k)
    ensures And(a * Pow2(k), b) == 0
    decreases k
  {
    if k > 0 && a > 0 && b > 0 {
      var h := a * Pow2(k - 1);
      assert a * Pow2(k) == 2 * h;
      assert (a * Pow2(k)) / 2 == h && (a * Pow2(k)) % 2 == 0;
      AndShifted(a, b / 2, k - 1);
    }
  }

  lemma {:induction false} AndComm(a: nat, b: nat)
    ensures And(a, b) == And(b, a)
    decreases a
  {
    if a > 0 && b > 0 {
      AndComm(a / 2, b / 2);
    }
  }

  /** `x ^ x == 0`. */
  lemma {:induction false} XorSelf(a: nat)
    ensures Xor(a, a) == 0
    decreases a
  {
    if a > 0 {
      XorSelf(a / 2);
    }
  }

  /** The bit of weight p where a and b differ, or 0. */
  function XorBit(a: nat, b: nat, p: nat): nat
    requires p > 0
  {
    if (a / p) % 2 != (b / p) % 2 then p else 0
  }

  /** `^` of two bytes written out as its eight bits. */
  function XorBits8(a: nat, b: nat): nat
  {
    XorBit(a, b, 1) + XorBit(a, b, 2) + XorBit(a, b, 4) + XorBit(a, b, 8)
      + XorBit(a, b, 16) + XorBit(a, b, 32) + XorBit(a, b, 64) + XorBit(a, b, 128)
  }

  /** `^` takes the lowest bit, then works on the rest shifted down. */
  lemma XorStep(a: nat, b: nat)
    ensures Xor(a, b) == 2 * Xor(a / 2, b / 2) + XorBit(a, b, 1)
  {
  }

  lemma XorLow2(a: nat, b: nat)
    ensures Xor(a, b) == 4 * Xor(a / 4, b / 4) + XorBit(a, b, 1) + XorBit(a, b, 2)
  {
    XorStep(a, b);
    XorStep(a / 2, b / 2);
    assert a / 2 / 2 == a / 4 && b / 2 / 2 == b / 4;
  }

  lemma XorLow4(a: nat, b: nat)
    ensures Xor(a, b) == 16 * Xor(a / 16, b / 16)
      + XorBit(a, b, 1) + XorBit(a, b, 2) + XorBit(a, b, 4) + XorBit(a, b, 8)
  {
    XorLow2(a, b);
    XorLow2(a / 4, b / 4);
    assert a / 4 / 4 == a / 16 && b / 4 / 4 == b / 16;
    assert a / 4 / 2 == a / 8 && b / 4 / 2 == b / 8;
  }

  /** `^` of two bytes is the sum of the weights of the bits where they
      differ. */
  lemma XorByteBits(a: byte, b: byte)
    ensures Xor(a, b) == XorBits8(a, b)
  {
    XorLow4(a, b);
    XorHighNibble(a, b);
  }

  lemma XorHighNibble(a: byte, b: byte)
    ensures 16 * Xor(a / 16, b / 16)
      == XorBit(a, b, 16) + XorBit(a, b, 32) + XorBit(a, b, 64) + XorBit(a, b, 128)
  {
    var ah, bh := a / 16, b / 16;
    XorLow4(ah, bh);
    assert ah / 16 == 0 && bh / 16 == 0;
    assert 16 * XorBit(ah, bh, 1) == XorBit(a, b, 16);
    assert ah / 2 == a / 32 && bh / 2 == b / 32;
    assert ah / 4 == a / 64 && bh / 4 == b / 64;
    assert ah / 8 == a / 128 && bh / 8 == b / 128;
  }

  /** `^` with k one-bits flips every bit of a k-bit value. */
  lemma {:induction false} XorOnes(a: nat, k: nat)
    requires a < Pow2(k)
    ensures Xor(a, Pow2(k) - 1) == Pow2(k) - 1 - a
    decreases k
  {
    if k > 0 && a > 0 {
      assert (Pow2(k) - 1) / 2 == Pow2(k - 1) - 1;
      XorOnes(a / 2, k - 1);
    }
  }

  /** `(x << 1) & 0xff`: a left shift by one that drops the carried-out bit. */
  function Shl1(a: byte): (r: byte)
    ensures r == (2 * a) % 256
  {
    Pow2Values();
    AndLowBits(2 * a, 8);
    And(2 * a, 0xFF)
  }

  /** Bit 7, the "error" bit of the IO-Warrior status byte. */
  predicate Bit7(a: byte)
  {
    And(a, 0x80) != 0
  }

  lemma Pow2Values()
    ensures Pow2(6) == 0x40 && Pow2(7) == 0x80 && Pow2(8) == 0x100
  {
    assert Pow2(1) == 2;
    assert Pow2(2) == 4;
    assert Pow2(3) == 8;
    assert Pow2(4) == 16;
    assert Pow2(5) == 32;
  }

  lemma Bit7IsHighHalf(a: byte)
    ensures Bit7(a) <==> a >= 0x80
  {
    Pow2Values();
    AndBit(a, 7);
    DivModUnique(a, 0x80, if a >= 0x80 then 1 else 0, if a >= 0x80 then a - 0x80 else a);
  }

  /** A byte made of a 6-bit field `lo` and two flag bits `hi` (bit 6 is
      hi's low bit, bit 7 its high bit): masking reads each part back. */
  lemma ByteFields(x: nat, hi: nat, lo: nat)
    requires x == hi * 0x40 + lo && hi < 4 && lo < 0x40
    ensures And(x, 0x3F) == lo
    ensures And(x, 0x40) != 0 <==> hi % 2 == 1
    ensures And(x, 0x80) != 0 <==> hi >= 2
  {
    Pow2Values();
    DivModUnique(x, 0x40, hi, lo);
    AndLowBits(x, 6);
    AndBit(x, 6);
    DivModUnique(x, 0x80, hi / 2, (hi % 2) * 0x40 + lo);
    AndBit(x, 7);
  }

  /** One upper-case hexadecimal digit, as an ASCII code. */
  function HexDigit(v: int): (c: byte)
    requires 0 <= v < 16
  {
    if v < 10 then '0' as int + v else 'A' as int + v - 10
  }

  /** `"{:02X}".format(b)` for a byte. */
  function Hex2(b: byte): (h: seq<byte>)
    ensures |h| == 2
  {
    [HexDigit(b / 16), HexDigit(b % 16)]
  }

  /** Both characters are hexadecimal digits, and reading them back gives
      the byte. */
  lemma Hex2Decodes(b: byte)
    ensures var h := Hex2(b);
      IsHexDigit(h[0]) && IsHexDigit(h[1]) && 16 * DigitValue(h[0]) + DigitValue(h[1]) == b
  {
  }

  /** Every byte rendered as `"{:02X} "`, concatenated: the format the ELV
      dongle uses for replies and both serial adapters use for logging. */
  function HexGroups(bs: seq<byte>): (s: seq<byte>)
    ensures |s| == 3 * |bs|
  {
    if bs == [] then [] else Hex2(bs[0]) + [' ' as int] + HexGroups(bs[1..])
  }

  /** One more byte adds its group at the end. */
  lemma {:induction false} HexGroupsAppend(bs: seq<byte>, b: byte)
    ensures HexGroups(bs + [b]) == HexGroups(bs) + Hex2(b) + [' ' as int]
    decreases |bs|
  {
    if bs == [] {
      assert bs + [b] == [b];
      assert HexGroups([b]) == Hex2(b) + [' ' as int] + HexGroups([]);
    } else {
      assert (bs + [b])[1..] == bs[1..] + [b];
      HexGroupsAppend(bs[1..], b);
    }
  }

  lemma HexGroupsOne(b: byte)
    ensures HexGroups([b]) == Hex2(b) + [' ' as int]
  {
    assert [b][1..] == [];
  }

  /** The groups of the first `count` bytes, in order. */
  method HexPrefix(report: seq<byte>, count: nat) returns (head: seq<byte>)
    requires count <= |report|
    ensures head == HexGroups(report[..count])
  {
    head := [];
    var j := 0;
    while j < count
      invariant 0 <= j <= count
      invariant head == HexGroups(report[..j])
    {
      HexGroupsAppend(report[..j], report[j]);
      assert report[..j + 1] == report[..j] + [report[j]];
      head := head + Hex2(report[j]) + [0x20];
      j := j + 1;
    }
  }

  predicate IsHexDigit(c: byte)
  {
    ('0' as int <= c <= '9' as int) || ('A' as int <= c <= 'F' as int) || ('a' as int <= c <= 'f' as int)
  }

  function DigitValue(c: byte): (v: int)
    requires IsHexDigit(c)
    ensures 0 <= v < 16
  {
    if c <= '9' as int then c - '0' as int
    else if c <= 'F' as int then c - 'A' as int + 10
    else c - 'a' as int + 10
  }

  /** The digits after an optional `0x`/`0X` prefix, which may be followed by
      one underscore. */
  function HexBody(b: seq<byte>): (d: seq<byte>)
    ensures |d| <= |b|
  {
    if |b| >= 2 && b[0] == '0' as int && (b[1] == 'x' as int || b[1] == 'X' as int) then
      if |b| >= 3 && b[2] == '_' as int then b[3..] else b[2..]
    else b
  }

  predicate AllSpace(s: seq<byte>)
    decreases |s|
  {
    s == [] || (IsSpace(s[0]) && AllSpace(s[1..]))
  }

  /** The digits after the first, read into `acc`: each digit may be preceded
      by one underscore, and only whitespace may follow the last. */
  function DigitsFrom(r: seq<byte>, acc: nat): Option<nat>
    decreases |r|
  {
    if r == [] then Some(acc)
    else if IsHexDigit(r[0]) then DigitsFrom(r[1..], 16 * acc + DigitValue(r[0]))
    else if r[0] == '_' as int && |r| >= 2 && IsHexDigit(r[1]) then DigitsFrom(r[2..], 16 * acc + DigitValue(r[1]))
    else if AllSpace(r) then Some(acc)
    else None
  }

  /** The number after the sign: an optional base prefix, then at least one
      digit. */
  function Unsigned(s: seq<byte>): Option<nat>
  {
    var d := HexBody(s);
    if d != [] && IsHexDigit(d[0]) then DigitsFrom(d[1..], DigitValue(d[0])) else None
  }

  /** `int(s, 16)` on bytes, scanned the way CPython scans it: leading
      whitespace, an optional sign, an optional base prefix, hex digits with
      single underscores between them, trailing whitespace.  `None` where
      Python raises `ValueError`. */
  function HexInt(s: seq<byte>): Option<int>
    decreases |s|
  {
    if s != [] && IsSpace(s[0]) then HexInt(s[1..])
    else if s != [] && s[0] == '-' as int then
      var u := Unsigned(s[1..]);
      if u.None? then None else var n: int := u.value; Some(-n)
    else if s != [] && s[0] == '+' as int then
      var u := Unsigned(s[1..]);
      if u.None? then None else Some(u.value)
    else
      var u := Unsigned(s);
      if u.None? then None else Some(u.value)
  }

  /** Two hex digits, alone or followed by a space, read back as their
      value. */
  lemma HexIntPair(h: seq<byte>, g: seq<byte>)
    requires |h| == 2 && IsHexDigit(h[0]) && IsHexDigit(h[1])
    requires g == h || g == h + [0x20]
    ensures HexInt(g) == Some(16 * DigitValue(h[0]) + DigitValue(h[1]))
  {
    var v0 := DigitValue(h[0]);
    var v := 16 * v0 + DigitValue(h[1]);
    assert g[0] == h[0] && g[1] == h[1];
    assert HexBody(g) == g;
    assert g[1..][1..] == g[2..];
    assert AllSpace(g[2..]) by {
      if g != h {
        assert g[2..] == [0x20] && g[2..][1..] == [];
      }
    }
    assert DigitsFrom(g[2..], v) == Some(v);
    assert DigitsFrom(g[1..], v0) == DigitsFrom(g[2..], v);
    assert Unsigned(g) == Some(v);
  }

  /** A group `"XX "` written by `Hex2` reads back as its byte, with or
      without its trailing space. */
  lemma HexIntGroup(b: byte)
    ensures HexInt(Hex2(b) + [0x20]) == Some(b as int)
    ensures HexInt(Hex2(b)) == Some(b as int)
  {
    var h := Hex2(b);
    Hex2Decodes(b);
    var v := 16 * DigitValue(h[0]) + DigitValue(h[1]);
    assert v == b;
    HexIntPair(h, h + [0x20]);
    assert HexInt(h + [0x20]) == Some(v);
    HexIntPair(h, h);
  }

  /** The whitespace set of Python's bytes methods: space, \t, \n, \v, \f, \r. */
  predicate IsSpace(c: byte)
  {
    c == 32 || 9 <= c <= 13
  }

  function LStrip(s: seq<byte>): (r: seq<byte>)
    ensures |r| <= |s| && r == s[|s| - |r|..]
    ensures r == [] || !IsSpace(r[0])
  {
    if s != [] && IsSpace(s[0]) then LStrip(s[1..]) else s
  }

  /** `s.rstrip(chars)`: drop trailing bytes that belong to `chars`. */
  function RStripSet(s: seq<byte>, chars: set<byte>): (r: seq<byte>)
    ensures |r| <= |s| && r == s[..|r|]
    ensures r == [] || r[|r| - 1] !in chars
    ensures forall i :: |r| <= i < |s| ==> s[i] in chars
  {
    if s != [] && s[|s| - 1] in chars then RStripSet(s[..|s| - 1], chars) else s
  }

  function RStrip(s: seq<byte>): (r: seq<byte>)
    ensures |r| <= |s| && r == s[..|r|]
    ensures r == [] || !IsSpace(r[|r| - 1])
  {
    if s != [] && IsSpace(s[|s| - 1]) then RStrip(s[..|s| - 1]) else s
  }

  /** `s.strip()` on bytes. */
  function Strip(s: seq<byte>): seq<byte>
  {
    RStrip(LStrip(s))
  }

  predicate StartsWith(s: seq<byte>, prefix: seq<byte>)
  {
    |prefix| <= |s| && s[..|prefix|] == prefix
  }

  /** `s.upper()` on bytes: only the ASCII letters a..z change. */
  function Upper(s: seq<byte>): (r: seq<byte>)
    ensures |r| == |s|
    ensures forall i :: 0 <= i < |s| ==>
      r[i] == if 'a' as int <= s[i] <= 'z' as int then s[i] - 32 else s[i]
  {
    seq(|s|, i requires 0 <= i < |s| => if 'a' as int <= s[i] <= 'z' as int then s[i] - 32 else s[i])
  }

  /** `int.from_bytes([hi, lo], 'big')`. */
  function BE16(hi: byte, lo: byte): (v: int)
    ensures 0 <= v < 0x1_0000
  {
    hi * 256 + lo
  }

  /** `v.to_bytes(2, 'big')`. */
  function ToBE16(v: int): (r: seq<byte>)
    requires 0 <= v < 0x1_0000
    ensures |r| == 2 && BE16(r[0], r[1]) == v
  {
    [v / 256, v % 256]
  }
}
