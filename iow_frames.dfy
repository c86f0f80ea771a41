/** The IO-Warrior report layouts: the I2C mode report, the write report
    (kind 2) with its flags byte, the read-setup report (kind 3), and the way
    one write is split over several reports. */
module IowFrames {
  import opened Bytes
  import opened Transport
  import opened Dongle

  const PID_IOW40: int := 0x1500
  const PID_IOW24: int := 0x1501
  const PID_IOW24_SENSIRION: int := 0x158A
  const PID_IOW28: int := 0x1504
  const PID_IOW56: int := 0x1503

  const PIPE_SPECIAL_MODE: nat := 1
  const PIPE_I2C_MODE: nat := 2

  /** The pipe the adapter talks I2C on: only the IO-Warrior 28 has a
      dedicated I2C pipe. */
  function PipeFor(pid: int): (pipe: nat)
    ensures pipe == PIPE_I2C_MODE <==> pid == PID_IOW28
    ensures pipe == PIPE_SPECIAL_MODE <==> pid != PID_IOW28
  {
    if pid == PID_IOW28 then PIPE_I2C_MODE else PIPE_SPECIAL_MODE
  }

  /** The special-mode report size: 64 bytes on the IO-Warrior 28 and 56,
      8 bytes on every other model. */
  function ReportSizeFor(pid: int): (size: nat)
    ensures size == 64 <==> pid == PID_IOW28 || pid == PID_IOW56
    ensures size == 8 <==> pid != PID_IOW28 && pid != PID_IOW56
  {
    if pid == PID_IOW28 || pid == PID_IOW56 then 64 else 8
  }

  predicate ValidSize(rs: nat)
  {
    rs == 8 || rs == 64
  }

  /** The report that switches the adapter to I2C mode: report id 1, enable
      flag 1, the option byte (bit 7 disables the pull-ups, bit 6 selects the
      Sensibus protocol) and a timeout byte of 0. */
  function ModeReport(rs: nat, disablePullups: bool, sensibus: bool): (r: seq<byte>)
    requires ValidSize(rs)
    ensures |r| == rs && r[0] == 1 && r[1] == 1 && r[3] == 0
    ensures Bit7(r[2]) <==> disablePullups
    ensures And(r[2], 0x40) != 0 <==> sensibus
    ensures And(r[2], 0x3F) == 0
    ensures forall i :: 4 <= i < rs ==> r[i] == 0
  {
    ModeByteFields(disablePullups, sensibus);
    [1, 1, ModeByte(disablePullups, sensibus), 0] + Zeros(rs - 4)
  }

  /** Byte 2 of the mode report: 0x80 to disable the pull-ups, 0x40 for the
      Sensibus protocol. */
  function ModeByte(disablePullups: bool, sensibus: bool): (b2: nat)
    ensures b2 <= 0xC0
  {
    0x80 * (if disablePullups then 1 else 0) + 0x40 * (if sensibus then 1 else 0)
  }

  lemma ModeByteFields(disablePullups: bool, sensibus: bool)
    ensures var b2 := ModeByte(disablePullups, sensibus);
      b2 < 256 && (And(b2, 0x80) != 0 <==> disablePullups) && (And(b2, 0x40) != 0 <==> sensibus) && And(b2, 0x3F) == 0
  {
    var hi := (if disablePullups then 2 else 0) + (if sensibus then 1 else 0);
    ByteFields(ModeByte(disablePullups, sensibus), hi, 0);
  }

  /** The flags byte of a write report: the payload length in bits 5..0,
      "generate start" in bit 7 and "generate stop" in bit 6.  The three
      fields can be read back independently. */
  function Flags(len: nat, start: bool, stop: bool): (f: byte)
    requires len < 0x40
    ensures And(f, 0x3F) == len
    ensures Bit7(f) <==> start
    ensures And(f, 0x40) != 0 <==> stop
  {
    FlagsFields(len, start, stop);
    Or(Or(len, if start then 0x80 else 0), if stop then 0x40 else 0)
  }

  /** The flag byte is the length plus 0x80 for start plus 0x40 for stop, so
      its three fields do not overlap. */
  lemma FlagsFields(len: nat, start: bool, stop: bool)
    requires len < 0x40
    ensures var f := Or(Or(len, if start then 0x80 else 0), if stop then 0x40 else 0);
      f < 256 && And(f, 0x3F) == len && (And(f, 0x80) != 0 <==> start) && (And(f, 0x40) != 0 <==> stop)
  {
    var s := if start then 0x80 else 0;
    var t := if stop then 0x40 else 0;
    var hi := (if start then 2 else 0) + (if stop then 1 else 0);
    assert hi % 2 == 1 <==> stop;
    assert hi >= 2 <==> start;
    FlagsSum(len, start, stop);
    ByteFields(hi * 0x40 + len, hi, len);
  }

  /** The three parts of the flag byte have no bit in common, so or-ing them
      adds them up. */
  lemma FlagsSum(len: nat, start: bool, stop: bool)
    requires len < 0x40
    ensures Or(Or(len, if start then 0x80 else 0), if stop then 0x40 else 0)
      == len + (if start then 0x80 else 0) + (if stop then 0x40 else 0)
  {
    var s := if start then 0x80 else 0;
    var t := if stop then 0x40 else 0;
    if start {
      ByteFields(len, 0, len);
      OrDisjoint(len, 0x80);
    }
    assert Or(len, s) == len + s;
    if stop {
      ByteFields(len + s, if start then 2 else 0, len);
      OrDisjoint(len + s, 0x40);
    }
  }

  /** A kind-2 report as written: id, flags, the payload, zero padding up to
      the report size. */
  function DataReport(rs: nat, payload: seq<byte>, start: bool, stop: bool): (r: seq<byte>)
    requires ValidSize(rs) && |payload| <= rs - 2
    ensures |r| == rs && r[0] == 2
    ensures r[2..2 + |payload|] == payload
    ensures forall i :: 2 + |payload| <= i < rs ==> r[i] == 0
  {
    [2, Flags(|payload|, start, stop)] + payload + Zeros(rs - 2 - |payload|)
  }

  /** What the adapter reads out of a kind-2 report: the payload (as many
      bytes as the length field says) and the start and stop requests. */
  function DecodeDataReport(r: seq<byte>): (res: Option<(seq<byte>, bool, bool)>)
    ensures res.Some? ==> |r| >= 2 && r[0] == 2
  {
    if |r| < 2 || r[0] != 2 || |r| < 2 + And(r[1], 0x3F) then None
    else Some((r[2..2 + And(r[1], 0x3F)], Bit7(r[1]), And(r[1], 0x40) != 0))
  }

  /** Every write report is read back as exactly the payload and the flags it
      was built from. */
  lemma DataReportRoundTrip(rs: nat, payload: seq<byte>, start: bool, stop: bool)
    requires ValidSize(rs) && |payload| <= rs - 2
    ensures DecodeDataReport(DataReport(rs, payload, start, stop)) == Some((payload, start, stop))
  {
    var r := DataReport(rs, payload, start, stop);
    assert r[1] == Flags(|payload|, start, stop);
  }

  /** The address byte of a read request; address 0 (Sensirion protocol)
      sends none and leaves the whole byte to the command. */
  function ReadAddressByte(addr: Addr7): (b: byte)
    ensures addr == 0 ==> b == 0
    ensures addr != 0 ==> b == AddressByte(addr, true)
  {
    if addr != 0 then AddressByte(addr, true) else 0
  }

  /** A kind-3 report: id 3, the number of bytes to read, the read address
      byte combined with a command byte, zero padding. */
  function ReadSetupReport(rs: nat, addr: Addr7, command: byte, count: byte): (r: seq<byte>)
    requires ValidSize(rs)
    ensures |r| == rs && r[0] == 3 && r[1] == count
    ensures forall i :: 3 <= i < rs ==> r[i] == 0
  {
    OrXorBound(ReadAddressByte(addr), command, 8);
    [3, count, Or(ReadAddressByte(addr), command)] + Zeros(rs - 3)
  }

  /** Without a command the third byte is the read address byte itself; at
      address 0 it is the command itself. */
  lemma ReadSetupAddressing(rs: nat, addr: Addr7, command: byte, count: byte)
    requires ValidSize(rs)
    ensures command == 0 ==> ReadSetupReport(rs, addr, command, count)[2] == ReadAddressByte(addr)
    ensures addr == 0 ==> ReadSetupReport(rs, addr, command, count)[2] == command
    ensures addr != 0 && command == 0 ==>
      ReadSetupReport(rs, addr, command, count)[2] == 2 * addr + 1
  {
  }

  /** The LM75 read request at address 0x48 for two bytes on an 8-byte
      adapter: 03 02 91 and zeros. */
  lemma ReadSetupExample()
    ensures ReadSetupReport(8, 0x48, 0, 2) == [3, 2, 0x91, 0, 0, 0, 0, 0]
  {
    ReadSetupAddressing(8, 0x48, 0, 2);
  }

  /** The bytes a write puts on the bus: the write address byte, unless the
      address is 0, followed by the data. */
  function Prefixed(addr: Addr7, wdata: seq<byte>): (s: seq<byte>)
    ensures addr != 0 ==> s == [2 * addr] + wdata
    ensures addr == 0 ==> s == wdata
  {
    if addr != 0 then [AddressByte(addr, false)] + wdata else wdata
  }

  /** One report's worth of a write: its payload and its start/stop requests. */
  datatype Chunk = Chunk(payload: seq<byte>, start: bool, stop: bool)

  /** How a write is cut into reports: the first report takes up to
      reportSize-3 data bytes (one byte is kept for the address); later ones
      take reportSize-2 bytes each while more than that remains; the last one
      takes the rest and carries the requested stop. */
  function WritePlan(rs: nat, addr: Addr7, wdata: seq<byte>, stop: bool): seq<Chunk>
    requires ValidSize(rs)
  {
    if |wdata| <= rs - 3 then [Chunk(Prefixed(addr, wdata), true, stop)]
    else [Chunk(Prefixed(addr, wdata[..rs - 3]), true, false)] + Tail(rs - 2, wdata[rs - 3..], stop)
  }

  function Tail(c: nat, rest: seq<byte>, stop: bool): seq<Chunk>
    requires c > 0
    decreases |rest|
  {
    if |rest| > c then [Chunk(rest[..c], false, false)] + Tail(c, rest[c..], stop)
    else [Chunk(rest, false, stop)]
  }

  /** The payloads of a list of chunks, concatenated. */
  function Payloads(cs: seq<Chunk>): seq<byte>
  {
    if cs == [] then [] else cs[0].payload + Payloads(cs[1..])
  }

  lemma {:induction false} PayloadsAppend(a: seq<Chunk>, b: seq<Chunk>)
    ensures Payloads(a + b) == Payloads(a) + Payloads(b)
    decreases |a|
  {
    if a == [] {
      assert a + b == b;
    } else {
      assert (a + b)[0] == a[0];
      assert (a + b)[1..] == a[1..] + b;
      PayloadsAppend(a[1..], b);
      assert Payloads(a + b) == a[0].payload + (Payloads(a[1..]) + Payloads(b));
    }
  }

  /** The chunks after the first carry exactly the rest of the data. */
  lemma {:induction false} TailPayloads(c: nat, rest: seq<byte>, stop: bool)
    requires c > 0
    ensures Payloads(Tail(c, rest, stop)) == rest
    decreases |rest|
  {
    var t := Tail(c, rest, stop);
    if |rest| > c {
      TailPayloads(c, rest[c..], stop);
      assert t[1..] == Tail(c, rest[c..], stop);
      assert Payloads(t) == rest[..c] + rest[c..];
      assert rest[..c] + rest[c..] == rest;
    } else {
      assert t[1..] == [];
      assert Payloads(t) == rest + [];
    }
  }

  /** The chunks after the first: none requests a start, all but the last
      are exactly `c` bytes and request no stop, the last is at most `c`
      bytes, non-empty when there was data left, and carries the stop. */
  lemma {:induction false} TailShape(c: nat, rest: seq<byte>, stop: bool)
    requires c > 0
    ensures var t := Tail(c, rest, stop);
      |t| >= 1
      && (forall i :: 0 <= i < |t| ==> !t[i].start && |t[i].payload| <= c)
      && (forall i :: 0 <= i < |t| - 1 ==> |t[i].payload| == c && !t[i].stop)
      && t[|t| - 1].stop == stop
      && (|rest| > 0 ==> |t[|t| - 1].payload| > 0)
    decreases |rest|
  {
    if |rest| > c {
      TailShape(c, rest[c..], stop);
      var t := Tail(c, rest, stop);
      var more := Tail(c, rest[c..], stop);
      assert t == [Chunk(rest[..c], false, false)] + more;
      assert forall i :: 1 <= i < |t| ==> t[i] == more[i - 1];
    }
  }

  /** The split a write gets: the reports together carry the address byte
      and all the data, every report passes the size check, only the first
      requests a start, only the last may request the stop, which is the one
      asked for; a single report is used exactly when the data fit in
      reportSize-3 bytes, and otherwise the middle reports are full and the
      last is non-empty. */
  lemma WritePlanShape(rs: nat, addr: Addr7, wdata: seq<byte>, stop: bool)
    requires ValidSize(rs)
    ensures var p := WritePlan(rs, addr, wdata, stop);
      |p| >= 1 && Payloads(p) == Prefixed(addr, wdata)
      && (|p| == 1 <==> |wdata| <= rs - 3)
      && (forall i :: 0 <= i < |p| ==> |p[i].payload| <= rs - 2)
      && (forall i :: 0 <= i < |p| ==> (p[i].start <==> i == 0))
      && (forall i :: 0 <= i < |p| - 1 ==> !p[i].stop)
      && p[|p| - 1].stop == stop
      && (forall i :: 0 < i < |p| - 1 ==> |p[i].payload| == rs - 2)
      && (|p| > 1 ==> |p[|p| - 1].payload| > 0)
  {
    var p := WritePlan(rs, addr, wdata, stop);
    if |wdata| <= rs - 3 {
      assert Payloads(p) == Prefixed(addr, wdata) + Payloads([]);
      assert Prefixed(addr, wdata) + [] == Prefixed(addr, wdata);
    } else {
      var first := Chunk(Prefixed(addr, wdata[..rs - 3]), true, false);
      var t := Tail(rs - 2, wdata[rs - 3..], stop);
      TailShape(rs - 2, wdata[rs - 3..], stop);
      assert p == [first] + t;
      WritePlanPayloads(rs, addr, wdata, stop);
      assert forall i :: 0 < i < |p| ==> p[i] == t[i - 1];
    }
  }

  lemma WritePlanPayloads(rs: nat, addr: Addr7, wdata: seq<byte>, stop: bool)
    requires ValidSize(rs) && |wdata| > rs - 3
    ensures Payloads(WritePlan(rs, addr, wdata, stop)) == Prefixed(addr, wdata)
  {
    var pre := wdata[..rs - 3];
    var post := wdata[rs - 3..];
    var first := Chunk(Prefixed(addr, pre), true, false);
    var t := Tail(rs - 2, post, stop);
    assert WritePlan(rs, addr, wdata, stop) == [first] + t;
    TailPayloads(rs - 2, post, stop);
    PayloadsAppend([first], t);
    assert [first][1..] == [];
    AppendEmpty(first.payload);
    assert Payloads([first]) == first.payload;
    assert pre + post == wdata;
    if addr != 0 {
      Assoc([AddressByte(addr, false)], pre, post);
    }
  }

  /** A write of exactly reportSize-3 bytes fits one report; one byte more
      needs two. */
  lemma WritePlanBoundary(rs: nat, addr: Addr7, wdata: seq<byte>, stop: bool)
    requires ValidSize(rs)
    ensures |wdata| == rs - 3 ==> |WritePlan(rs, addr, wdata, stop)| == 1
    ensures |wdata| == rs - 2 ==> |WritePlan(rs, addr, wdata, stop)| == 2
  {
    if |wdata| == rs - 2 {
      assert |wdata[rs - 3..]| == 1;
    }
  }

  /** `w` is the plan `p` laid out as write reports on `pipe`, chunk by
      chunk and in order; every chunk passes the size check. */
  predicate Realises(w: seq<HidWrite>, pipe: nat, rs: nat, p: seq<Chunk>)
    requires ValidSize(rs)
    decreases |p|
  {
    if p == [] then w == []
    else
      |w| == |p| && |p[0].payload| <= rs - 2
      && w[0] == HidWrite(pipe, DataReport(rs, p[0].payload, p[0].start, p[0].stop))
      && Realises(w[1..], pipe, rs, p[1..])
  }

  /** A realised plan is a list of full-size kind-2 reports on the pipe. */
  lemma {:induction false} RealisedReports(w: seq<HidWrite>, pipe: nat, rs: nat, p: seq<Chunk>)
    requires ValidSize(rs) && Realises(w, pipe, rs, p)
    ensures |w| == |p|
    ensures forall i :: 0 <= i < |w| ==> w[i].pipe == pipe && |w[i].report| == rs && w[i].report[0] == 2
    decreases |p|
  {
    if p != [] {
      RealisedReports(w[1..], pipe, rs, p[1..]);
      assert forall i :: 1 <= i < |w| ==> w[i] == w[1..][i - 1];
    }
  }

  /** The reports after the first one of a long write. */
  function TailReports(pipe: nat, rs: nat, rest: seq<byte>, stop: bool): seq<HidWrite>
    requires ValidSize(rs)
    decreases |rest|
  {
    if |rest| > rs - 2 then
      [HidWrite(pipe, DataReport(rs, rest[..rs - 2], false, false))] + TailReports(pipe, rs, rest[rs - 2..], stop)
    else [HidWrite(pipe, DataReport(rs, rest, false, stop))]
  }

  /** The reports one call of the write routine sends. */
  function WriteReports(pipe: nat, rs: nat, addr: Addr7, wdata: seq<byte>, stop: bool): seq<HidWrite>
    requires ValidSize(rs)
  {
    if |wdata| <= rs - 3 then
      [HidWrite(pipe, DataReport(rs, Prefixed(addr, wdata), true, stop))]
    else
      [HidWrite(pipe, DataReport(rs, Prefixed(addr, wdata[..rs - 3]), true, false))]
      + TailReports(pipe, rs, wdata[rs - 3..], stop)
  }

  lemma {:induction false} TailReportsFollowPlan(pipe: nat, rs: nat, rest: seq<byte>, stop: bool)
    requires ValidSize(rs)
    ensures Realises(TailReports(pipe, rs, rest, stop), pipe, rs, Tail(rs - 2, rest, stop))
    decreases |rest|
  {
    var t := Tail(rs - 2, rest, stop);
    var w := TailReports(pipe, rs, rest, stop);
    if |rest| > rs - 2 {
      TailReportsFollowPlan(pipe, rs, rest[rs - 2..], stop);
      assert t[1..] == Tail(rs - 2, rest[rs - 2..], stop);
      assert w[1..] == TailReports(pipe, rs, rest[rs - 2..], stop);
    } else {
      assert t[1..] == [] && w[1..] == [];
    }
  }

  /** The reports sent are the plan's chunks, each laid out as a write
      report, in order; so every one of them is a full-size kind-2 report on
      the adapter's pipe. */
  lemma WriteReportsFollowPlan(pipe: nat, rs: nat, addr: Addr7, wdata: seq<byte>, stop: bool)
    requires ValidSize(rs)
    ensures Realises(WriteReports(pipe, rs, addr, wdata, stop), pipe, rs, WritePlan(rs, addr, wdata, stop))
    ensures var w := WriteReports(pipe, rs, addr, wdata, stop);
      |w| >= 1 && forall i :: 0 <= i < |w| ==> w[i].pipe == pipe && |w[i].report| == rs && w[i].report[0] == 2
  {
    var p := WritePlan(rs, addr, wdata, stop);
    var w := WriteReports(pipe, rs, addr, wdata, stop);
    if |wdata| > rs - 3 {
      TailReportsFollowPlan(pipe, rs, wdata[rs - 3..], stop);
      assert p[1..] == Tail(rs - 2, wdata[rs - 3..], stop);
      assert w[1..] == TailReports(pipe, rs, wdata[rs - 3..], stop);
    } else {
      assert p[1..] == [] && w[1..] == [];
    }
    RealisedReports(w, pipe, rs, p);
  }

  /** The LM75 pointer write at address 0x48 with the stop held back for the
      read that follows: 02 82 90 00 and zeros. The transmit log in
      sensors/LM75.py:25 shows 02 C2 90 00, with the stop bit set; the code
      as written clears the stop whenever a read follows (IOW.py:261), and
      this frame is what that code sends. */
  lemma WriteReportsExample()
    ensures WriteReports(1, 8, 0x48, [0], false) == [HidWrite(1, [2, 0x82, 0x90, 0, 0, 0, 0, 0])]
  {
    assert Prefixed(0x48, [0]) == [0x90] + [0] == [0x90, 0];
    assert WritePlan(8, 0x48, [0], false) == [Chunk([0x90, 0], true, false)];
    assert Flags(2, true, false) == 0x82;
    assert Zeros(4) == [0, 0, 0, 0];
    assert DataReport(8, [0x90, 0], true, false) == [2, 0x82, 0x90, 0, 0, 0, 0, 0];
  }

  /** `__getDeviceName__`. */
  function DeviceName(pid: int): (name: string)
    ensures |name| > 10 && name[..10] == "IO-Warrior"
  {
    "IO-Warrior" + (
      if pid == PID_IOW24 then "24"
      else if pid == PID_IOW24_SENSIRION then "24-Sensirion"
      else if pid == PID_IOW28 then "28"
      else if pid == PID_IOW40 then "40"
      else if pid == PID_IOW56 then "56"
      else " (unknown)")
  }

  predicate KnownProduct(pid: int)
  {
    pid in {PID_IOW24, PID_IOW24_SENSIRION, PID_IOW28, PID_IOW40, PID_IOW56}
  }

  /** Distinct known products get distinct names, and no known product is
      reported as unknown. */
  lemma DeviceNamesDistinct(p: int, q: int)
    requires KnownProduct(p)
    ensures KnownProduct(q) && p != q ==> DeviceName(p) != DeviceName(q)
    ensures DeviceName(p) != DeviceName(0)
  {
    if KnownProduct(q) && p != q {
      var a := DeviceName(p);
      var b := DeviceName(q);
      if |a| == |b| {
        assert a[10] != b[10] || a[11] != b[11];
      }
    }
  }
}
