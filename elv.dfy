/** The ELV USB-I2C adapter: a serial port that takes transactions as
    upper-case ASCII text ("S 90 00 P" writes 00 to address 48h, "S 91 02 P"
    asks it for two bytes) and answers reads with "XX " groups followed by
    CR LF. */
module ELV {
  import opened Bytes
  import opened Transport
  import opened Dongle

  /** "S " and " P": the start and stop conditions around a frame. */
  const FrameStart: seq<byte> := [0x53, 0x20]
  const FrameEnd: seq<byte> := [0x20, 0x50]

  /** `" {:02X}"` for every byte, concatenated: the data part of a write
      frame, one space before every byte. */
  function SpacedHex(data: seq<byte>): (s: seq<byte>)
    ensures |s| == 3 * |data|
  {
    if data == [] then [] else SpacedHex(data[..|data| - 1]) + [0x20] + Hex2(data[|data| - 1])
  }

  /** The write frame's data part is the reply format shifted by one space. */
  lemma {:induction false} SpacedHexGroups(data: seq<byte>)
    ensures SpacedHex(data) + [0x20] == [0x20] + HexGroups(data)
    decreases |data|
  {
    if data != [] {
      var init := data[..|data| - 1];
      var x := data[|data| - 1];
      assert data == init + [x];
      SpacedHexGroups(init);
      HexGroupsAppend(init, x);
      var a := SpacedHex(init);
      var g := HexGroups(init);
      calc {
        SpacedHex(data) + [0x20];
        (a + [0x20]) + (Hex2(x) + [0x20]);
        ([0x20] + g) + (Hex2(x) + [0x20]);
        [0x20] + (g + Hex2(x) + [0x20]);
        [0x20] + HexGroups(data);
      }
    }
  }

  /** No lower-case ASCII letter, so that `upper()` leaves the text alone. */
  predicate NoLower(s: seq<byte>)
  {
    forall i :: 0 <= i < |s| ==> !('a' as int <= s[i] <= 'z' as int)
  }

  lemma UpperKeeps(s: seq<byte>)
    requires NoLower(s)
    ensures Upper(s) == s
  {
  }

  lemma {:induction false} HexGroupsNoLower(bs: seq<byte>)
    ensures NoLower(HexGroups(bs))
    decreases |bs|
  {
    if bs != [] {
      HexGroupsNoLower(bs[1..]);
      var h := Hex2(bs[0]);
      assert NoLower(h + [' ' as int]);
      assert HexGroups(bs) == (h + [' ' as int]) + HexGroups(bs[1..]);
    }
  }

  /** `ELVwriteData`'s frame, "S AA DD ... P" upper-cased, AA being the
      write address byte. */
  function WriteFrame(addr: Addr7, data: seq<byte>): seq<byte>
  {
    Upper(FrameStart + Hex2(AddressByte(addr, false)) + SpacedHex(data) + FrameEnd)
  }

  /** `ELVinitializeRead`'s frame, "S AA NN P" upper-cased, AA being the read
      address byte and NN the byte count. */
  function ReadSetupFrame(addr: Addr7, rbytes: byte): seq<byte>
  {
    Upper(FrameStart + Hex2(AddressByte(addr, true)) + [0x20] + Hex2(rbytes) + FrameEnd)
  }

  lemma NoLowerAppend(a: seq<byte>, b: seq<byte>)
    requires NoLower(a) && NoLower(b)
    ensures NoLower(a + b)
  {
    forall i | 0 <= i < |a + b|
      ensures !('a' as int <= (a + b)[i] <= 'z' as int)
    {
      if i >= |a| {
        assert (a + b)[i] == b[i - |a|];
      }
    }
  }

  /** A frame is "S ", the reply-format groups of the bytes it carries, and
      "P". */
  lemma FrameText(bytes: seq<byte>)
    requires |bytes| >= 1
    ensures FrameStart + Hex2(bytes[0]) + SpacedHex(bytes[1..]) + FrameEnd
      == FrameStart + HexGroups(bytes) + [0x50]
  {
    var h := Hex2(bytes[0]);
    var d := SpacedHex(bytes[1..]);
    var r := HexGroups(bytes[1..]);
    SpacedHexGroups(bytes[1..]);
    assert HexGroups(bytes) == h + [0x20] + r;
    Shifted(h, d, 0x20, r);
    Spliced(FrameStart, h, d, 0x20, 0x50, HexGroups(bytes));
  }

  /** Adding a separator after `d` is adding it before `r`, behind any head. */
  lemma Shifted<T>(h: seq<T>, d: seq<T>, x: T, r: seq<T>)
    requires d + [x] == [x] + r
    ensures h + d + [x] == h + [x] + r
  {
    Assoc(h, d, [x]);
    Assoc(h, [x], r);
  }

  /** Replacing the middle of a frame by what it equals. */
  lemma Spliced<T>(s: seq<T>, h: seq<T>, d: seq<T>, x: T, y: T, g: seq<T>)
    requires h + d + [x] == g
    ensures s + h + d + [x, y] == s + g + [y]
  {
    assert [x, y] == [x] + [y];
    Assoc(s + h, d, [x] + [y]);
    Assoc(d, [x], [y]);
    Assoc(s, h, d + [x]);
    Assoc(h, d, [x]);
    Assoc(s, g, [y]);
    Assoc(s + h + d, [x], [y]);
  }

  /** Frames hold no lower-case letter, so `upper()` does not change them. */
  lemma FrameUpper(bytes: seq<byte>)
    ensures var f := FrameStart + HexGroups(bytes) + [0x50];
      Upper(f) == f
  {
    HexGroupsNoLower(bytes);
    NoLowerAppend(FrameStart, HexGroups(bytes));
    NoLowerAppend(FrameStart + HexGroups(bytes), [0x50]);
    UpperKeeps(FrameStart + HexGroups(bytes) + [0x50]);
  }

  /** The write frame is 6 + 3n characters long and carries, in the reply
      format, the write address byte followed by the data; the read-setup
      frame carries the read address byte and the count. */
  lemma FramesCarry(addr: Addr7, data: seq<byte>, rbytes: byte)
    ensures WriteFrame(addr, data) == FrameStart + HexGroups([AddressByte(addr, false)] + data) + [0x50]
    ensures |WriteFrame(addr, data)| == 6 + 3 * |data|
    ensures ReadSetupFrame(addr, rbytes) == FrameStart + HexGroups([AddressByte(addr, true), rbytes]) + [0x50]
  {
    WriteFrameText(addr, data);
    ReadSetupFrameText(addr, rbytes);
  }

  lemma WriteFrameText(addr: Addr7, data: seq<byte>)
    ensures WriteFrame(addr, data) == FrameStart + HexGroups([AddressByte(addr, false)] + data) + [0x50]
  {
    var w := [AddressByte(addr, false)] + data;
    assert w[0] == AddressByte(addr, false) && w[1..] == data;
    FrameText(w);
    FrameUpper(w);
  }

  lemma ReadSetupFrameText(addr: Addr7, rbytes: byte)
    ensures ReadSetupFrame(addr, rbytes) == FrameStart + HexGroups([AddressByte(addr, true), rbytes]) + [0x50]
  {
    var r := [AddressByte(addr, true), rbytes];
    assert r[1..] == [rbytes];
    assert SpacedHex([rbytes]) == [0x20] + Hex2(rbytes) by {
      assert [rbytes][..0] == [];
    }
    FrameText(r);
    FrameUpper(r);
    assert FrameStart + Hex2(r[0]) + SpacedHex(r[1..]) + FrameEnd
      == FrameStart + Hex2(AddressByte(addr, true)) + [0x20] + Hex2(rbytes) + FrameEnd;
  }

  /** The frames of the LM75 reading at address 48h: "S 90 00 P" and
      "S 91 02 P". */
  lemma Lm75Frames()
    ensures WriteFrame(0x48, [0x00]) == [0x53, 0x20, 0x39, 0x30, 0x20, 0x30, 0x30, 0x20, 0x50]
    ensures ReadSetupFrame(0x48, 2) == [0x53, 0x20, 0x39, 0x31, 0x20, 0x30, 0x32, 0x20, 0x50]
  {
    FramesCarry(0x48, [0x00], 2);
    assert [0x90, 0x00][1..] == [0x00] && [0x00][1..] == [];
    assert [0x91, 0x02][1..] == [0x02] && [0x02][1..] == [];
  }

  /** What `xs` followed by the outcome `r` of the rest is. */
  function Then(xs: seq<int>, r: Option<seq<int>>): Option<seq<int>>
  {
    if r.None? then None else Some(xs + r.value)
  }

  /** One `int(group, 16)` per 3-byte group from offset 0, the last group
      possibly shorter; `None` at the first group `int` refuses. */
  function Groups(rec: seq<byte>): (r: Option<seq<int>>)
    ensures r.Some? ==> |r.value| == (|rec| + 2) / 3
    decreases |rec|
  {
    if rec == [] then Some([])
    else
      var n := if |rec| < 3 then |rec| else 3;
      var v := HexInt(rec[..n]);
      if v.None? then None else Then([v.value], Groups(rec[n..]))
  }

  /** `__getListfromRec`: a record shorter than 3 bytes gives no values,
      otherwise its groups are parsed. */
  function ListFromRec(rec: seq<byte>): Option<seq<int>>
  {
    if |rec| < 3 then Some([]) else Groups(rec)
  }

  /** The parse loop of `__getListfromRec`. */
  method GetListFromRec(rec: seq<byte>) returns (rlist: Option<seq<int>>)
    ensures rlist == ListFromRec(rec)
  {
    if |rec| < 3 {
      return Some([]);
    }
    var acc: seq<int> := [];
    var i := 0;
    assert rec[0..] == rec;
    ghost var all := Groups(rec);
    assert all.Some? ==> [] + all.value == all.value;
    while i < |rec|
      invariant 0 <= i <= |rec|
      invariant Groups(rec) == Then(acc, Groups(rec[i..]))
      decreases |rec| - i
    {
      var j := if i + 3 <= |rec| then i + 3 else |rec|;
      var more := rec[i..];
      assert more[..j - i] == rec[i..j] && more[j - i..] == rec[j..];
      var v := HexInt(rec[i..j]);
      if v.None? {
        return None;
      }
      ghost var rest := Groups(rec[j..]);
      if rest.Some? {
        Assoc(acc, [v.value], rest.value);
      }
      acc := acc + [v.value];
      i := j;
    }
    assert rec[i..] == [];
    AppendEmpty(acc);
    return Some(acc);
  }

  /** The reply format read back: parsing the "XX " groups of any bytes
      gives those bytes. */
  lemma {:induction false} GroupsRoundTrip(bs: seq<byte>)
    ensures Groups(HexGroups(bs)) == Some(bs)
    decreases |bs|
  {
    if bs != [] {
      var rec := HexGroups(bs);
      var g := Hex2(bs[0]) + [0x20];
      HexGroupsFirst(bs);
      HexIntGroup(bs[0]);
      GroupsFirst(rec, g, bs[0]);
      GroupsRoundTrip(bs[1..]);
      ConsRest(bs);
    }
  }

  lemma HexGroupsFirst(bs: seq<byte>)
    requires bs != []
    ensures var rec := HexGroups(bs);
      |rec| >= 3 && rec[..3] == Hex2(bs[0]) + [0x20] && rec[3..] == HexGroups(bs[1..])
  {
    var g := Hex2(bs[0]) + [' ' as int];
    assert HexGroups(bs) == g + HexGroups(bs[1..]);
  }

  /** A record that starts with a full group `g` worth `v`. */
  lemma GroupsFirst(rec: seq<byte>, g: seq<byte>, v: int)
    requires |rec| >= 3 && rec[..3] == g && HexInt(g) == Some(v)
    ensures Groups(rec) == Then([v], Groups(rec[3..]))
  {
  }

  lemma ConsRest(bs: seq<byte>)
    requires bs != []
    ensures Then([bs[0]], Some(bs[1..])) == Some(bs)
  {
    assert [bs[0]] + bs[1..] == bs;
  }

  lemma ListFromRecRoundTrip(bs: seq<byte>)
    ensures ListFromRec(HexGroups(bs)) == Some(bs)
  {
    GroupsRoundTrip(bs);
  }

  /** A record whose last group has lost its space: the final short group
      parses too. */
  lemma {:induction false} GroupsRoundTripTrimmed(bs: seq<byte>)
    requires bs != []
    ensures Groups(HexGroups(bs)[..3 * |bs| - 1]) == Some(bs)
    decreases |bs|
  {
    var rec := HexGroups(bs)[..3 * |bs| - 1];
    HexGroupsFirst(bs);
    HexIntGroup(bs[0]);
    if |bs| == 1 {
      assert rec == Hex2(bs[0]);
      GroupsLast(rec, bs[0]);
      assert bs == [bs[0]];
    } else {
      var g := Hex2(bs[0]) + [0x20];
      assert rec[..3] == g;
      assert rec[3..] == HexGroups(bs[1..])[..3 * |bs[1..]| - 1];
      GroupsFirst(rec, g, bs[0]);
      GroupsRoundTripTrimmed(bs[1..]);
      ConsRest(bs);
    }
  }

  /** A record that is one short group worth `v`. */
  lemma GroupsLast(rec: seq<byte>, v: int)
    requires 0 < |rec| < 3 && HexInt(rec) == Some(v)
    ensures Groups(rec) == Some([v])
  {
    assert rec[..|rec|] == rec;
    assert rec[|rec|..] == [];
    assert Groups([]) == Some([]);
    assert [v] + [] == [v];
  }

  /** The record of the comment on `__getListfromRec`, BE 6E 9A 69 32 00:
      190, 110, 154, 105, 50, 0. */
  lemma ListFromRecExample()
    ensures ListFromRec(EXAMPLE_REC) == Some([190, 110, 154, 105, 50, 0])
  {
    var bs: seq<byte> := [190, 110, 154, 105, 50, 0];
    GroupsRoundTripTrimmed(bs);
    ExampleGroups();
  }

  /** "BE 6E 9A 69 32 00" in ASCII. */
  const EXAMPLE_REC: seq<byte> := [0x42, 0x45, 0x20, 0x36, 0x45, 0x20, 0x39, 0x41, 0x20, 0x36, 0x39, 0x20, 0x33, 0x32, 0x20, 0x30, 0x30]

  lemma ExampleGroups()
    ensures HexGroups([190, 110, 154, 105, 50, 0])[..17] == EXAMPLE_REC
  {
    ExampleTail5();
    GroupsStep(190, [110, 154, 105, 50, 0], [0x42, 0x45, 0x20, 0x36, 0x45, 0x20, 0x39, 0x41, 0x20, 0x36, 0x39, 0x20, 0x33, 0x32, 0x20, 0x30, 0x30, 0x20]);
  }

  lemma ExampleTail5()
    ensures HexGroups([110, 154, 105, 50, 0]) == [0x36, 0x45, 0x20, 0x39, 0x41, 0x20, 0x36, 0x39, 0x20, 0x33, 0x32, 0x20, 0x30, 0x30, 0x20]
  {
    ExampleTail4();
    GroupsStep(110, [154, 105, 50, 0], [0x36, 0x45, 0x20, 0x39, 0x41, 0x20, 0x36, 0x39, 0x20, 0x33, 0x32, 0x20, 0x30, 0x30, 0x20]);
  }

  lemma ExampleTail4()
    ensures HexGroups([154, 105, 50, 0]) == [0x39, 0x41, 0x20, 0x36, 0x39, 0x20, 0x33, 0x32, 0x20, 0x30, 0x30, 0x20]
  {
    ExampleTail2();
    GroupsStep(105, [50, 0], [0x36, 0x39, 0x20, 0x33, 0x32, 0x20, 0x30, 0x30, 0x20]);
    GroupsStep(154, [105, 50, 0], [0x39, 0x41, 0x20, 0x36, 0x39, 0x20, 0x33, 0x32, 0x20, 0x30, 0x30, 0x20]);
  }

  lemma ExampleTail2()
    ensures HexGroups([50, 0]) == [0x33, 0x32, 0x20, 0x30, 0x30, 0x20]
  {
    GroupsStep(0, [], [0x30, 0x30, 0x20]);
    GroupsStep(50, [0], [0x33, 0x32, 0x20, 0x30, 0x30, 0x20]);
  }

  lemma GroupsStep(b: byte, rest: seq<byte>, text: seq<byte>)
    requires |text| == 3 + 3 * |rest| && text[..3] == Hex2(b) + [0x20]
    requires HexGroups(rest) == text[3..]
    ensures HexGroups([b] + rest) == text
  {
    assert ([b] + rest)[1..] == rest;
    assert text == text[..3] + text[3..];
  }

  /** CR and LF, the line end `ELVreadData` strips. */
  const CRLF: set<byte> := {13, 10}

  /** "Solve " and "Err: ", the starts of the adapter's error texts. */
  const SOLVE: seq<byte> := [0x53, 0x6F, 0x6C, 0x76, 0x65, 0x20]
  const ERR: seq<byte> := [0x45, 0x72, 0x72, 0x3A, 0x20]

  /** The error-text test of `ELVreadData`, as written: `not A or not B`. */
  predicate NotAnErrorText(rec: seq<byte>)
  {
    !StartsWith(Strip(rec), SOLVE) || !StartsWith(Strip(rec), ERR)
  }

  /** What `ELVreadData` returns: the parsed values, the raw text when the
      error-text test fails, or a group that `int` refuses (the source raises
      `ValueError`). */
  datatype Reply = Values(values: seq<int>) | ErrorText(text: seq<byte>) | BadGroup

  function Decoded(rec: seq<byte>): Reply
  {
    if NotAnErrorText(rec) then
      var l := ListFromRec(rec);
      if l.Some? then Values(l.value) else BadGroup
    else ErrorText(rec)
  }

  /** The test can never fail, since no text starts with both "Solve " and
      "Err: ": an error text from the adapter is parsed as data too. */
  lemma ErrorTextNeverReturned(rec: seq<byte>)
    ensures NotAnErrorText(rec)
    ensures !Decoded(rec).ErrorText?
    ensures Decoded(rec) == if ListFromRec(rec).Some? then Values(ListFromRec(rec).value) else BadGroup
  {
    var t := Strip(rec);
    if StartsWith(t, SOLVE) {
      assert t[0] == SOLVE[0] != ERR[0];
    }
  }

  /** The decoding half of `ELVreadData`. */
  method DecodeReply(rec: seq<byte>) returns (answ: Reply)
    ensures answ == Decoded(rec)
  {
    if NotAnErrorText(rec) {
      var rlist := GetListFromRec(rec);
      answ := if rlist.Some? then Values(rlist.value) else BadGroup;
    } else {
      answ := ErrorText(rec);
    }
  }

  /** The read step: `3 * length + 2` characters, the drain, CR/LF cut off,
      then decoding; also the input left unread. */
  function ReadReply(q: seq<Input>, length: nat): (Reply, seq<Input>)
  {
    var d := Drained(q, 3 * length + 2);
    (Decoded(RStripSet(d.0, CRLF)), d.1)
  }

  lemma {:induction false} HexGroupsLast(bs: seq<byte>)
    requires bs != []
    ensures var g := HexGroups(bs); g[|g| - 1] == 0x20
  {
    var init := bs[..|bs| - 1];
    assert bs == init + [bs[|bs| - 1]];
    HexGroupsAppend(init, bs[|bs| - 1]);
  }

  lemma StripLineEnd(s: seq<byte>)
    requires s == [] || s[|s| - 1] == 0x20
    ensures RStripSet(s + [13, 10], CRLF) == s
  {
    var t := s + [13, 10];
    assert t[..|t| - 1] == s + [13];
    assert (s + [13])[..|s|] == s;
  }

  /** A reply that has fully arrived as the groups of `bs` and CR LF is read
      back as `bs`, and nothing is left unread. */
  lemma ReadReplyDecodes(bs: seq<byte>, length: nat)
    ensures ReadReply(Arrived(HexGroups(bs) + [13, 10]), length) == (Values(bs), [])
  {
    var text := HexGroups(bs) + [13, 10];
    var q := Arrived(text);
    DrainedReadsEverything(q, 3 * length + 2);
    FlatArrived(text);
    if bs != [] {
      HexGroupsLast(bs);
    }
    StripLineEnd(HexGroups(bs));
    ListFromRecRoundTrip(bs);
    ErrorTextNeverReturned(HexGroups(bs));
  }

  /** The LM75 reply as the ELV log in sensors/LM75.py:22 shows it, "1A A0 "
      CR LF, is 26, 160. (The comment on that line says 1A 80, the value the
      IOW and ISS logs show; see `Lm75Reply`.) */
  lemma Lm75LoggedReply()
    ensures ReadReply(Arrived([0x31, 0x41, 0x20, 0x41, 0x30, 0x20, 0x0D, 0x0A]), 2) == (Values([26, 160]), [])
  { ReadReplyDecodes([0x1A, 0xA0], 2); Lm75LoggedText(); }
  lemma Lm75LoggedText()
    ensures HexGroups([0x1A, 0xA0]) + [13, 10] == [0x31, 0x41, 0x20, 0x41, 0x30, 0x20, 0x0D, 0x0A]
  { GroupsStep(0xA0, [], [0x41, 0x30, 0x20]); GroupsStep(0x1A, [0xA0], [0x31, 0x41, 0x20, 0x41, 0x30, 0x20]); }

  /** The LM75 answer "1A 80 " CR LF is 26, 128. */
  lemma Lm75Reply()
    ensures ReadReply(Arrived([0x31, 0x41, 0x20, 0x38, 0x30, 0x20, 0x0D, 0x0A]), 2) == (Values([26, 128]), [])
  {
    ReadReplyDecodes([0x1A, 0x80], 2);
    Lm75ReplyText();
  }

  lemma Lm75ReplyText()
    ensures HexGroups([0x1A, 0x80]) + [13, 10] == [0x31, 0x41, 0x20, 0x38, 0x30, 0x20, 0x0D, 0x0A]
  {
    GroupsStep(0x80, [], [0x38, 0x30, 0x20]);
    GroupsStep(0x1A, [0x80], [0x31, 0x41, 0x20, 0x38, 0x30, 0x20]);
  }

  /** The frames one `askDongle` writes: the write frame, then, when bytes
      are to be read, the read-setup frame. */
  function AskFrames(addr: Addr7, data: seq<byte>, rbytes: byte): seq<seq<byte>>
  {
    [WriteFrame(addr, data)] + if rbytes > 0 then [ReadSetupFrame(addr, rbytes)] else []
  }

  /** The write frame always goes out first and carries the data; a second
      frame, asking for `rbytes` bytes at the read address, follows exactly
      when bytes are to be read. */
  lemma AskFramesShape(addr: Addr7, data: seq<byte>, rbytes: byte)
    ensures var fs := AskFrames(addr, data, rbytes);
      (|fs| == 2 <==> rbytes > 0) && (|fs| == 1 <==> rbytes == 0)
      && ListFromRec(fs[0][2..|fs[0]| - 1]) == Some([AddressByte(addr, false)] + data)
      && (rbytes > 0 ==> ListFromRec(fs[1][2..|fs[1]| - 1]) == Some([AddressByte(addr, true), rbytes]))
  {
    var fs := AskFrames(addr, data, rbytes);
    FramesCarry(addr, data, rbytes);
    var w := HexGroups([AddressByte(addr, false)] + data);
    assert fs[0][2..|fs[0]| - 1] == w;
    ListFromRecRoundTrip([AddressByte(addr, false)] + data);
    if rbytes > 0 {
      var r := HexGroups([AddressByte(addr, true), rbytes]);
      assert fs[1][2..|fs[1]| - 1] == r;
      ListFromRecRoundTrip([AddressByte(addr, true), rbytes]);
    }
  }

  /** "<y30?": stop the macro, switch off ACK/NACK replies, ask for the
      banner. */
  const INIT_COMMAND: seq<byte> := [0x3C, 0x79, 0x33, 0x30, 0x3F]
  /** "ELV", how the banner starts. */
  const BANNER: seq<byte> := [0x45, 0x4C, 0x56]

  lemma InitCommandUpper()
    ensures Upper(INIT_COMMAND) == [0x3C, 0x59, 0x33, 0x30, 0x3F]
  {
  }

  /** An ELV adapter on an open serial port. */
  class ElvDongle {
    const port: SerialPort
    var initialized: bool

    /** Opens the adapter: sends "<y30?" upper-cased and reads up to 140
        characters of banner; the adapter counts as present only when the
        stripped banner starts with "ELV" (otherwise the source exits). */
    constructor (p: SerialPort)
      modifies p
      ensures port == p
      ensures p.written == old(p.written) + [Upper(INIT_COMMAND)]
      ensures p.incoming == Drained(old(p.incoming), 140).1
      ensures initialized <==> StartsWith(Strip(Strip(Drained(old(p.incoming), 140).0)), BANNER)
    {
      port := p;
      new;
      WriteAdmin(INIT_COMMAND);
      var rec := ReadAdmin(140);
      initialized := StartsWith(Strip(rec), BANNER);
    }

    /** `ELVwriteAdmin`: the command, upper-cased. */
    method WriteAdmin(command: seq<byte>)
      modifies port
      ensures port.written == old(port.written) + [Upper(command)]
      ensures port.incoming == old(port.incoming)
    {
      port.Write(Upper(command));
    }

    /** `ELVreadAdmin`: a read with the drain step, whitespace stripped. */
    method ReadAdmin(length: nat) returns (rec: seq<byte>)
      modifies port
      ensures rec == Strip(Drained(old(port.incoming), length).0)
      ensures port.incoming == Drained(old(port.incoming), length).1
      ensures port.written == old(port.written)
    {
      rec := ReadAndDrain(port, length);
      rec := Strip(rec);
    }

    /** `ELVwriteData`. */
    method WriteData(addr: Addr7, data: seq<byte>)
      modifies port
      ensures port.written == old(port.written) + [WriteFrame(addr, data)]
      ensures port.incoming == old(port.incoming)
    {
      var wA := Hex2(AddressByte(addr, false));
      var wdata: seq<byte> := [];
      var i := 0;
      while i < |data|
        invariant 0 <= i <= |data|
        invariant wdata == SpacedHex(data[..i])
      {
        assert data[..i + 1][..i] == data[..i];
        wdata := wdata + [0x20] + Hex2(data[i]);
        i := i + 1;
      }
      assert data[..i] == data;
      port.Write(Upper(FrameStart + wA + wdata + FrameEnd));
    }

    /** `ELVinitializeRead`. */
    method InitializeRead(addr: Addr7, rbytes: byte)
      modifies port
      ensures port.written == old(port.written) + [ReadSetupFrame(addr, rbytes)]
      ensures port.incoming == old(port.incoming)
    {
      var rA := Hex2(AddressByte(addr, true));
      var rb := Hex2(rbytes);
      port.Write(Upper(FrameStart + rA + [0x20] + rb + FrameEnd));
    }

    /** `ELVreadData`. */
    method ReadData(length: nat) returns (answ: Reply)
      modifies port
      ensures (answ, port.incoming) == ReadReply(old(port.incoming), length)
      ensures port.written == old(port.written)
    {
      ghost var d := Drained(port.incoming, 3 * length + 2);
      var rec := ReadAndDrain(port, 3 * length + 2);
      assert rec == d.0 && port.incoming == d.1;
      rec := RStripSet(rec, CRLF);
      answ := DecodeReply(rec);
    }

    /** `askDongle`: the write frame; then, when bytes are to be read, the
        read-setup frame and the read. */
    method AskDongle(addr: Addr7, data: seq<byte>, rbytes: byte, waitMs: nat, name: seq<byte>)
      returns (answ: Option<Reply>)
      modifies port
      ensures port.written == old(port.written) + AskFrames(addr, data, rbytes)
      ensures rbytes == 0 ==> answ == None && port.incoming == old(port.incoming)
      ensures rbytes > 0 ==> answ == Some(ReadReply(old(port.incoming), rbytes).0)
      ensures rbytes > 0 ==> port.incoming == ReadReply(old(port.incoming), rbytes).1
    {
      WriteData(addr, data);
      if rbytes > 0 {
        InitializeRead(addr, rbytes);
        var r := ReadData(rbytes);
        answ := Some(r);
      } else {
        answ := None;
        AppendEmpty(old(port.written) + [WriteFrame(addr, data)]);
      }
    }
  }
}
