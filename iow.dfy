/** The IO-Warrior adapter: one I2C transaction becomes write reports that
    are re-sent until the adapter acknowledges them, then a read-setup report
    and as many data reports as the requested byte count needs. */
module IOW {
  import opened Bytes
  import opened Transport
  import opened Dongle
  import opened IowFrames

  /** Report classes the adapter sends back. */
  predicate CleanAck(rep: seq<byte>)
    requires |rep| >= 2
  {
    rep[0] == 2 && !Bit7(rep[1])
  }

  predicate ErrorAck(rep: seq<byte>)
    requires |rep| >= 2
  {
    rep[0] == 2 && Bit7(rep[1])
  }

  /** A kind-3 report without the error bit: one that carries read data. */
  predicate DataArrived(rep: seq<byte>)
    requires |rep| >= 2
  {
    rep[0] == 3 && !Bit7(rep[1])
  }

  /** How the acknowledgement polling of one transaction ended, and how many
      reports it read: a clean acknowledgement, giving up on the error bit,
      or a device that has nothing more to send (the polling would then go on
      for ever). */
  datatype AckRun = Acked(polls: nat) | GaveUp(polls: nat) | AckStalled(polls: nat)

  function Later(run: AckRun): (r: AckRun)
    ensures r.polls == run.polls + 1
  {
    match run
    case Acked(n) => Acked(n + 1)
    case GaveUp(n) => GaveUp(n + 1)
    case AckStalled(n) => AckStalled(n + 1)
  }

  /** How many times the loop sends the write: once before every poll, and
      once more when it then finds nothing to read. */
  function Sends(run: AckRun): (n: nat)
    ensures n >= run.polls
  {
    if run.AckStalled? then run.polls + 1 else run.polls
  }

  /** The write-and-acknowledge loop, from retry counter `loop` on: every
      poll follows a fresh write of the whole message; an error-bit
      acknowledgement counts a retry, and with the counter at 3 the loop gives
      up; any report that is not an acknowledgement is ignored. */
  function AckLoop(script: seq<seq<byte>>, rs: nat, loop: nat): (run: AckRun)
    requires ValidSize(rs)
    ensures run.polls <= |script|
    ensures run.AckStalled? <==> run.polls == |script| && !run.Acked? && !run.GaveUp?
    decreases |script|
  {
    if script == [] then AckStalled(0)
    else
      var rep := Fit(script[0], rs);
      if rep[0] == 2 then
        if Bit7(rep[1]) then
          if loop >= 3 then GaveUp(1) else Later(AckLoop(script[1..], rs, loop + 1))
        else Acked(1)
      else Later(AckLoop(script[1..], rs, loop))
  }

  /** The number of error-bit acknowledgements in a run of reports. */
  function ErrorAcks(s: seq<seq<byte>>, rs: nat): (n: nat)
    requires ValidSize(rs)
    ensures n <= |s|
  {
    if s == [] then 0
    else (if ErrorAck(Fit(s[0], rs)) then 1 else 0) + ErrorAcks(s[1..], rs)
  }

  /** The loop reads no clean acknowledgement before the last report it
      reads. */
  lemma {:induction false} AckLoopNoEarlyClean(script: seq<seq<byte>>, rs: nat, loop: nat)
    requires ValidSize(rs)
    ensures forall i :: 0 <= i < AckLoop(script, rs, loop).polls - 1 ==> !CleanAck(Fit(script[i], rs))
    decreases |script|
  {
    if script != [] {
      var rep := Fit(script[0], rs);
      if !(rep[0] == 2 && (!Bit7(rep[1]) || loop >= 3)) {
        var next := if rep[0] == 2 then loop + 1 else loop;
        AckLoopNoEarlyClean(script[1..], rs, next);
        assert forall i :: 1 <= i < |script| ==> script[i] == script[1..][i - 1];
      }
    }
  }

  /** The loop stops on a clean acknowledgement, or on an error-bit
      acknowledgement when it gives up. */
  lemma {:induction false} AckLoopLast(script: seq<seq<byte>>, rs: nat, loop: nat)
    requires ValidSize(rs)
    ensures var run := AckLoop(script, rs, loop);
      (run.Acked? ==> run.polls >= 1 && CleanAck(Fit(script[run.polls - 1], rs)))
      && (run.GaveUp? ==> run.polls >= 1 && ErrorAck(Fit(script[run.polls - 1], rs)))
    decreases |script|
  {
    if script != [] {
      var rep := Fit(script[0], rs);
      if !(rep[0] == 2 && (!Bit7(rep[1]) || loop >= 3)) {
        var next := if rep[0] == 2 then loop + 1 else loop;
        AckLoopLast(script[1..], rs, next);
        var more := AckLoop(script[1..], rs, next);
        if more.polls >= 1 {
          assert script[more.polls] == script[1..][more.polls - 1];
        }
      }
    }
  }

  /** It gives up exactly on the (4-loop)-th error-bit acknowledgement
      (reports of other kinds do not count): the write is re-sent at most
      three times because of the error bit. */
  lemma {:induction false} AckLoopErrors(script: seq<seq<byte>>, rs: nat, loop: nat)
    requires ValidSize(rs) && loop <= 3
    ensures var run := AckLoop(script, rs, loop);
      var n := ErrorAcks(script[..run.polls], rs);
      (run.GaveUp? ==> n == 4 - loop) && (!run.GaveUp? ==> n < 4 - loop)
    decreases |script|
  {
    var run := AckLoop(script, rs, loop);
    if script == [] {
      assert script[..run.polls] == [];
    } else {
      var rep := Fit(script[0], rs);
      var seen := script[..run.polls];
      assert seen[0] == script[0];
      if rep[0] == 2 && (!Bit7(rep[1]) || loop >= 3) {
        assert seen[1..] == [];
      } else {
        var next := if rep[0] == 2 then loop + 1 else loop;
        AckLoopErrors(script[1..], rs, next);
        var more := AckLoop(script[1..], rs, next);
        assert seen[1..] == script[1..][..more.polls];
      }
    }
  }

  /** The read phase's report-by-report collection: reports of kind 3
      without the error bit add their bytes 2.. and count reportSize-2
      towards `need`; all others are skipped. */
  datatype ReadRun = ReadRun(polls: nat, bytes: seq<byte>, stalled: bool)

  function Collect(script: seq<seq<byte>>, rs: nat, need: int): (run: ReadRun)
    requires ValidSize(rs)
    ensures run.polls <= |script|
    ensures !run.stalled ==> |run.bytes| >= need
    decreases |script|
  {
    if need <= 0 then ReadRun(0, [], false)
    else if script == [] then ReadRun(0, [], true)
    else
      var rep := Fit(script[0], rs);
      if DataArrived(rep) then
        var more := Collect(script[1..], rs, need - (rs - 2));
        ReadRun(more.polls + 1, rep[2..] + more.bytes, more.stalled)
      else
        var more := Collect(script[1..], rs, need);
        ReadRun(more.polls + 1, more.bytes, more.stalled)
  }

  /** Bytes 2.. of every data-carrying report, in arrival order. */
  function Accepted(s: seq<seq<byte>>, rs: nat): seq<byte>
    requires ValidSize(rs)
  {
    if s == [] then []
    else (if DataArrived(Fit(s[0], rs)) then Fit(s[0], rs)[2..] else []) + Accepted(s[1..], rs)
  }

  /** The collected bytes are exactly bytes 2.. of the accepted reports among
      those read, in order. */
  lemma {:induction false} CollectGathers(script: seq<seq<byte>>, rs: nat, need: int)
    requires ValidSize(rs)
    ensures var run := Collect(script, rs, need);
      run.bytes == Accepted(script[..run.polls], rs)
    decreases |script|
  {
    var run := Collect(script, rs, need);
    if need <= 0 || script == [] {
      assert script[..run.polls] == [];
    } else {
      var rep := Fit(script[0], rs);
      var need' := if DataArrived(rep) then need - (rs - 2) else need;
      CollectGathers(script[1..], rs, need');
      var more := Collect(script[1..], rs, need');
      var seen := script[..run.polls];
      assert seen[0] == script[0];
      assert seen[1..] == script[1..][..more.polls];
    }
  }

  /** A collection that completes stops at a data-carrying report, before it
      has gathered a whole report more than needed. */
  lemma {:induction false} CollectStops(script: seq<seq<byte>>, rs: nat, need: int)
    requires ValidSize(rs)
    ensures var run := Collect(script, rs, need);
      !run.stalled && need > 0 ==>
        run.polls >= 1 && DataArrived(Fit(script[run.polls - 1], rs)) && |run.bytes| < need + (rs - 2)
    decreases |script|
  {
    if need > 0 && script != [] {
      var rep := Fit(script[0], rs);
      var need' := if DataArrived(rep) then need - (rs - 2) else need;
      CollectStops(script[1..], rs, need');
      var run := Collect(script, rs, need);
      var more := Collect(script[1..], rs, need');
      if !run.stalled && more.polls >= 1 {
        assert script[run.polls - 1] == script[1..][more.polls - 1];
      }
    }
  }

  /** The transaction's answer: nothing to read, the bytes read, a device
      that stopped answering (the loops would wait for ever), or a Sensirion
      read with no command byte to send (the source fails indexing `data`). */
  datatype Reply = NoData | Data(bytes: seq<byte>) | Stalled | MissingCommand

  /** Everything a transaction does: the reports written, the answer, and the
      reports left unread. */
  datatype Exchange = Exchange(written: seq<HidWrite>, answer: Reply, rest: seq<seq<byte>>)

  /** "SHT7" in ASCII. */
  const SHT7: seq<byte> := [0x53, 0x48, 0x54, 0x37]

  /** The Sensirion protocol is used for address 0 and for sensors whose
      name, stripped and upper-cased, starts with "SHT7". */
  predicate IsSensirion(addr: Addr7, name: seq<byte>)
  {
    addr == 0 || StartsWith(Upper(Strip(name)), SHT7)
  }

  /** The read phase: nothing when no byte is to be read; otherwise one
      read-setup report (carrying the command byte on the Sensirion path)
      followed by the collection. */
  function ReadPhase(pipe: nat, rs: nat, addr: Addr7, data: seq<byte>, rbytes: byte, sensirion: bool,
                     script: seq<seq<byte>>): Exchange
    requires ValidSize(rs)
  {
    if rbytes == 0 then Exchange([], NoData, script)
    else if sensirion && data == [] then Exchange([], MissingCommand, script)
    else
      var setup := HidWrite(pipe, ReadSetupReport(rs, addr, if sensirion then data[0] else 0, rbytes));
      var run := Collect(script, rs, rbytes);
      Exchange([setup], if run.stalled then Stalled else Data(run.bytes[..rbytes]), script[run.polls..])
  }

  /** One `askDongle` call on an adapter with the given pipe and report size,
      against the reports the device will send. */
  function Ask(pipe: nat, rs: nat, addr: Addr7, data: seq<byte>, rbytes: byte, name: seq<byte>,
               script: seq<seq<byte>>): Exchange
    requires ValidSize(rs)
  {
    if IsSensirion(addr, name) then ReadPhase(pipe, rs, addr, data, rbytes, true, script)
    else
      var w := WriteReports(pipe, rs, addr, data, rbytes == 0);
      var ack := AckLoop(script, rs, 0);
      if ack.AckStalled? then Exchange(Repeat(w, Sends(ack)), Stalled, script[ack.polls..])
      else
        var r := ReadPhase(pipe, rs, addr, data, rbytes, false, script[ack.polls..]);
        Exchange(Repeat(w, ack.polls) + r.written, r.answer, r.rest)
  }

  /** On the Sensirion path nothing is written before the read: no write
      report and no acknowledgement poll; the command byte travels in the
      read-setup report, and with nothing to read no report is sent at all. */
  lemma SensirionPath(pipe: nat, rs: nat, addr: Addr7, data: seq<byte>, rbytes: byte, name: seq<byte>,
                      script: seq<seq<byte>>)
    requires ValidSize(rs) && IsSensirion(addr, name)
    ensures var e := Ask(pipe, rs, addr, data, rbytes, name, script);
      (rbytes == 0 ==> e == Exchange([], NoData, script))
      && (rbytes > 0 && data == [] ==> e == Exchange([], MissingCommand, script))
      && (rbytes > 0 && data != [] ==>
            e.written == [HidWrite(pipe, ReadSetupReport(rs, addr, data[0], rbytes))]
            && (e.answer.Data? || e.answer.Stalled?))
  {
  }

  /** A write-only transaction on the addressed path sends the write once
      per acknowledgement poll (once more if the device goes silent), every
      copy ending with the stop request, sends nothing else, and answers
      nothing. */
  lemma WriteOnly(pipe: nat, rs: nat, addr: Addr7, data: seq<byte>, name: seq<byte>, script: seq<seq<byte>>)
    requires ValidSize(rs) && !IsSensirion(addr, name)
    ensures var e := Ask(pipe, rs, addr, data, 0, name, script);
      var ack := AckLoop(script, rs, 0);
      (e.answer == NoData || e.answer == Stalled)
      && e.written == Repeat(WriteReports(pipe, rs, addr, data, true), Sends(ack))
      && e.rest == script[ack.polls..]
  {
    var ack := AckLoop(script, rs, 0);
    if !ack.AckStalled? {
      AppendEmpty(Repeat(WriteReports(pipe, rs, addr, data, true), ack.polls));
    }
  }


  /** Every report of a write-only transaction is a write report. */
  lemma WriteOnlyKinds(pipe: nat, rs: nat, addr: Addr7, data: seq<byte>, name: seq<byte>, script: seq<seq<byte>>)
    requires ValidSize(rs) && !IsSensirion(addr, name)
    ensures var e := Ask(pipe, rs, addr, data, 0, name, script);
      forall i :: 0 <= i < |e.written| ==> |e.written[i].report| >= 1 && e.written[i].report[0] == 2
  {
    WriteOnly(pipe, rs, addr, data, name, script);
    WriteReportsFollowPlan(pipe, rs, addr, data, true);
    RepeatKinds(WriteReports(pipe, rs, addr, data, true), Sends(AckLoop(script, rs, 0)));
  }

  lemma {:induction false} RepeatKinds(w: seq<HidWrite>, k: nat)
    requires forall i :: 0 <= i < |w| ==> |w[i].report| >= 1 && w[i].report[0] == 2
    ensures forall i :: 0 <= i < |Repeat(w, k)| ==> |Repeat(w, k)[i].report| >= 1 && Repeat(w, k)[i].report[0] == 2
  {
    if k > 0 {
      RepeatKinds(w, k - 1);
      var r := Repeat(w, k - 1);
      assert forall i :: |r| <= i < |r| + |w| ==> (r + w)[i] == w[i - |r|];
    }
  }

  /** An answer with data has exactly the requested length, and the report
      written last is the read request for that many bytes. */
  lemma AnswerLength(pipe: nat, rs: nat, addr: Addr7, data: seq<byte>, rbytes: byte, name: seq<byte>,
                     script: seq<seq<byte>>)
    requires ValidSize(rs)
    ensures var e := Ask(pipe, rs, addr, data, rbytes, name, script);
      e.answer.Data? ==>
        rbytes > 0 && |e.answer.bytes| == rbytes && |e.written| >= 1
        && e.written[|e.written| - 1].report[0] == 3 && e.written[|e.written| - 1].report[1] == rbytes
  {
    var e := Ask(pipe, rs, addr, data, rbytes, name, script);
    var sensirion := IsSensirion(addr, name);
    var ack := AckLoop(script, rs, 0);
    var after := if sensirion then script else script[ack.polls..];
    var r := ReadPhase(pipe, rs, addr, data, rbytes, sensirion, after);
    ReadPhaseData(pipe, rs, addr, data, rbytes, sensirion, after);
    if !sensirion && !ack.AckStalled? {
      var pre := Repeat(WriteReports(pipe, rs, addr, data, rbytes == 0), ack.polls);
      assert e == Exchange(pre + r.written, r.answer, r.rest);
      if r.answer.Data? {
        LastOf(pre, r.written[0]);
      }
    }
  }

  /** The read phase answers data only after one read request, and the data
      has the requested length. */
  lemma ReadPhaseData(pipe: nat, rs: nat, addr: Addr7, data: seq<byte>, rbytes: byte, sensirion: bool,
                      script: seq<seq<byte>>)
    requires ValidSize(rs)
    ensures var r := ReadPhase(pipe, rs, addr, data, rbytes, sensirion, script);
      r.answer.Data? ==>
        rbytes > 0 && |r.answer.bytes| == rbytes && |r.written| == 1
        && r.written[0].report[0] == 3 && r.written[0].report[1] == rbytes
  {
  }

  lemma LastOf<T>(pre: seq<T>, x: T)
    ensures |pre + [x]| >= 1 && (pre + [x])[|pre + [x]| - 1] == x
  {
  }

  /** The LM75 temperature read on an 8-byte adapter: the pointer write
      (02 82 90, as `WriteReportsExample` shows; the log in sensors/LM75.py:25
      shows 02 C2 90, with the stop bit the code holds back), a clean acknowledgement,
      the read request (03 02 91, as `ReadSetupExample` shows), and the data
      report that carries 1A 80. */
  lemma Lm75Example(name: seq<byte>)
    requires !StartsWith(Upper(Strip(name)), SHT7)
    ensures Ask(1, 8, 0x48, [0], 2, name, [[2, 0], [3, 2, 0x1A, 0x80]])
      == Exchange(WriteReports(1, 8, 0x48, [0], false) + [HidWrite(1, ReadSetupReport(8, 0x48, 0, 2))],
                  Data([0x1A, 0x80]), [])
  {
    var script: seq<seq<byte>> := [[2, 0], [3, 2, 0x1A, 0x80]];
    Lm75Replies();
    Lm75ReadPhase();
    assert script[1..] == [[3, 2, 0x1A, 0x80]];
    RepeatOnce(WriteReports(1, 8, 0x48, [0], false));
  }

  lemma Lm75ReadPhase()
    ensures ReadPhase(1, 8, 0x48, [0], 2, false, [[3, 2, 0x1A, 0x80]])
      == Exchange([HidWrite(1, ReadSetupReport(8, 0x48, 0, 2))], Data([0x1A, 0x80]), [])
  {
    var t: seq<seq<byte>> := [[3, 2, 0x1A, 0x80]];
    Lm75Replies();
    assert t[1..] == [];
    assert [0x1A, 0x80, 0, 0, 0, 0][..2] == [0x1A, 0x80];
  }

  lemma Lm75Replies()
    ensures AckLoop([[2, 0], [3, 2, 0x1A, 0x80]], 8, 0) == Acked(1)
    ensures Collect([[3, 2, 0x1A, 0x80]], 8, 2) == ReadRun(1, [0x1A, 0x80, 0, 0, 0, 0], false)
  {
    var s: seq<seq<byte>> := [[2, 0], [3, 2, 0x1A, 0x80]];
    assert Fit(s[0], 8) == [2, 0, 0, 0, 0, 0, 0, 0];
    var t: seq<seq<byte>> := [[3, 2, 0x1A, 0x80]];
    assert t[1..] == [];
    var rep := Fit(t[0], 8);
    assert rep == [3, 2, 0x1A, 0x80, 0, 0, 0, 0];
    assert !Bit7(2) by {
      Bit7IsHighHalf(2);
    }
  }

  /** Two error-bit acknowledgements and then a clean one: the write is sent
      three times, every copy ending with the stop request. */
  lemma RetryExample(name: seq<byte>, tail: seq<seq<byte>>)
    requires !StartsWith(Upper(Strip(name)), SHT7)
    ensures var e := Ask(1, 8, 0x48, [0], 0, name, [[2, 0x80], [2, 0x80], [2, 0]] + tail);
      e.written == Repeat(WriteReports(1, 8, 0x48, [0], true), 3) && e.answer == NoData && e.rest == tail
  {
    var script := [[2, 0x80], [2, 0x80], [2, 0]] + tail;
    RetryReplies(tail);
    assert script[3..] == tail;
    WriteOnly(1, 8, 0x48, [0], name, script);
  }

  lemma RetryReplies(tail: seq<seq<byte>>)
    ensures AckLoop([[2, 0x80], [2, 0x80], [2, 0]] + tail, 8, 0) == Acked(3)
  {
    var script := [[2, 0x80], [2, 0x80], [2, 0]] + tail;
    assert Bit7(0x80) by {
      Bit7IsHighHalf(0x80);
    }
    assert script[1..] == [[2, 0x80], [2, 0]] + tail;
    assert script[1..][1..] == [[2, 0]] + tail;
    assert Fit([2, 0x80], 8) == [2, 0x80, 0, 0, 0, 0, 0, 0];
    assert Fit([2, 0], 8) == [2, 0, 0, 0, 0, 0, 0, 0];
    assert AckLoop(script[1..][1..], 8, 2) == Acked(1);
    assert AckLoop(script[1..], 8, 1) == Acked(2);
  }

  /** `__getstrArray__`'s cut-off point: from the last byte down, skip zero
      bytes, never past the first. */
  function LastShown(r: seq<byte>, i: nat): (k: nat)
    requires i < |r|
    ensures k <= i
    ensures k == 0 || r[k] != 0
    ensures forall j :: k < j <= i ==> r[j] == 0
    decreases i
  {
    if r[i] == 0 && i > 0 then LastShown(r, i - 1) else i
  }

  /** The log rendering of a report: every byte as "XX ", except that a run
      of trailing zero bytes is shortened to "..." followed by the last
      byte, when it leaves out at least one byte. */
  function StrArray(r: seq<byte>): seq<byte>
    requires |r| >= 1
  {
    var k := LastShown(r, |r| - 1);
    if k < |r| - 2 then HexGroups(r[..k + 1]) + [0x2E, 0x2E, 0x2E] + HexGroups(r[|r| - 1..])
    else HexGroups(r)
  }

  /** The first loop of `__getstrArray__`: from the last byte down, skip
      zero bytes, never past the first. */
  method SkipTrailingZeros(report: seq<byte>) returns (i: int)
    requires |report| >= 1
    ensures i == LastShown(report, |report| - 1)
  {
    i := |report| - 1;
    while report[i] == 0 && i > 0
      invariant 0 <= i < |report|
      invariant LastShown(report, |report| - 1) == LastShown(report, i)
      decreases i
    {
      i := i - 1;
    }
  }

  /** The shortened rendering leaves out only zero bytes and always shows
      the first and the last byte. */
  lemma StrArrayElidesZeros(r: seq<byte>)
    requires |r| >= 1
    ensures StrArray(r) == HexGroups(r)
      || exists k :: 1 <= k < |r| - 1 && (forall j :: k <= j < |r| ==> r[j] == 0)
           && StrArray(r) == HexGroups(r[..k]) + [0x2E, 0x2E, 0x2E] + HexGroups(r[|r| - 1..])
  {
    var k := LastShown(r, |r| - 1);
    if k < |r| - 2 {
      assert 1 <= k + 1 < |r| - 1 && forall j :: k + 1 <= j < |r| ==> r[j] == 0;
    }
  }

  /** An IO-Warrior opened for I2C: the device handle, the pipe and report
      size chosen from its product id, and the all-zero template report. */
  class IowDongle {
    const dev: HidDevice
    const numPipe: nat
    const reportSize: nat
    const emptyReport: seq<byte>

    predicate Valid()
    {
      ValidSize(reportSize) && emptyReport == Zeros(reportSize)
    }

    /** Chooses pipe and report size from the product id, then switches the
        adapter to I2C mode. */
    constructor (device: HidDevice, disablePullups: bool, sensibus: bool)
      modifies device
      ensures dev == device && Valid()
      ensures numPipe == PipeFor(device.productId) && reportSize == ReportSizeFor(device.productId)
      ensures device.written == old(device.written) + [HidWrite(numPipe, ModeReport(reportSize, disablePullups, sensibus))]
      ensures device.incoming == old(device.incoming)
    {
      dev := device;
      var pid := device.productId;
      var pipe: nat := if pid == PID_IOW28 then PIPE_I2C_MODE else PIPE_SPECIAL_MODE;
      var size: nat := if pid == PID_IOW28 || pid == PID_IOW56 then 64 else 8;
      numPipe := pipe;
      reportSize := size;
      emptyReport := Zeros(size);
      new;
      SetI2CMode(disablePullups, sensibus);
    }

    /** A fresh copy of the all-zero template report. */
    method NewReport() returns (report: array<byte>)
      requires Valid()
      ensures fresh(report) && report.Length == reportSize
      ensures forall i :: 0 <= i < reportSize ==> report[i] == 0
    {
      report := new byte[reportSize](i => 0);
    }

    method SetI2CMode(disablePullups: bool, sensibus: bool)
      requires Valid()
      modifies dev
      ensures dev.written == old(dev.written) + [HidWrite(numPipe, ModeReport(reportSize, disablePullups, sensibus))]
      ensures dev.incoming == old(dev.incoming)
    {
      var b2 := 0x80 * (if disablePullups then 1 else 0) + 0x40 * (if sensibus then 1 else 0);
      var report := NewReport();
      report[0] := 1;
      report[1] := 1;
      report[2] := b2;
      report[3] := 0;
      assert report[..4] == [1, 1, b2, 0];
      assert report[4..] == Zeros(reportSize - 4);
      assert report[..] == report[..4] + report[4..];
      dev.Write(numPipe, report[..]);
    }

    /** One kind-2 report; a payload that does not fit is refused (the source
        exits the program) and nothing is written. */
    method WriteReport(wdata: seq<byte>, start: bool, stop: bool) returns (ok: bool)
      requires Valid()
      modifies dev
      ensures ok <==> |wdata| <= reportSize - 2
      ensures ok ==> dev.written == old(dev.written) + [HidWrite(numPipe, DataReport(reportSize, wdata, start, stop))]
      ensures !ok ==> dev.written == old(dev.written)
      ensures dev.incoming == old(dev.incoming)
    {
      if |wdata| > reportSize - 2 {
        return false;
      }
      var flags := Flags(|wdata|, start, stop);
      var data := wdata + Zeros(reportSize - 2);
      var report := NewReport();
      report[0] := 2;
      report[1] := flags;
      for i := 0 to reportSize - 2
        modifies report
        invariant report[0] == 2 && report[1] == flags
        invariant forall j :: 0 <= j < i ==> report[j + 2] == data[j]
        invariant forall j :: i + 2 <= j < reportSize ==> report[j] == 0
      {
        report[i + 2] := data[i];
      }
      ghost var r := DataReport(reportSize, wdata, start, stop);
      forall j | 2 <= j < reportSize
        ensures report[j] == r[j]
      {
        if j < 2 + |wdata| {
          assert r[j] == r[2..2 + |wdata|][j - 2] == data[j - 2];
        } else {
          assert data[j - 2] == Zeros(reportSize - 2)[j - 2 - |wdata|];
        }
      }
      assert report[..] == r;
      dev.Write(numPipe, report[..]);
      ok := true;
    }

    /** Sends the address byte (unless the address is 0) and the data,
        split over as many reports as needed. */
    method WriteData(addr: Addr7, wdata: seq<byte>, suspendStop: bool)
      requires Valid()
      modifies dev
      ensures dev.written == old(dev.written) + WriteReports(numPipe, reportSize, addr, wdata, !suspendStop)
      ensures dev.incoming == old(dev.incoming)
    {
      var addr8 := 2 * addr;
      var wdlen := |wdata|;
      var stopFlag := !suspendStop;
      var ok;
      if wdlen <= reportSize - 3 {
        var data := wdata;
        if addr8 != 0 {
          data := [addr8] + data;
        }
        assert data == Prefixed(addr, wdata);
        ok := WriteReport(data, true, stopFlag);
      } else {
        var pointer := reportSize - 3;
        var data := wdata[..pointer];
        if addr8 != 0 {
          data := [addr8] + data;
        }
        assert data == Prefixed(addr, wdata[..pointer]);
        ok := WriteReport(data, true, false);
        WriteTail(wdata[pointer..], stopFlag);
      }
    }

    /** The reports after the first of a long write: full reports without
        start or stop while more than one report's worth remains, then the
        last batch with the stop request. */
    method WriteTail(rest: seq<byte>, stopFlag: bool)
      requires Valid()
      modifies dev
      ensures dev.written == old(dev.written) + TailReports(numPipe, reportSize, rest, stopFlag)
      ensures dev.incoming == old(dev.incoming)
    {
      var c := reportSize - 2;
      var pointer := 0;
      var ok;
      while pointer + c < |rest|
        invariant 0 <= pointer <= |rest|
        invariant old(dev.written) + TailReports(numPipe, reportSize, rest, stopFlag)
          == dev.written + TailReports(numPipe, reportSize, rest[pointer..], stopFlag)
        invariant dev.incoming == old(dev.incoming)
        decreases |rest| - pointer
      {
        var data := rest[pointer..pointer + c];
        ghost var more := rest[pointer..];
        ghost var one := HidWrite(numPipe, DataReport(reportSize, data, false, false));
        ghost var tl := TailReports(numPipe, reportSize, rest[pointer + c..], stopFlag);
        ghost var w0 := dev.written;
        assert more[..c] == data && more[c..] == rest[pointer + c..];
        assert TailReports(numPipe, reportSize, more, stopFlag) == [one] + tl;
        ok := WriteReport(data, false, false);
        Assoc(w0, [one], tl);
        pointer := pointer + c;
      }
      var data := rest[pointer..];
      assert TailReports(numPipe, reportSize, data, stopFlag)
        == [HidWrite(numPipe, DataReport(reportSize, data, false, stopFlag))];
      ok := WriteReport(data, false, stopFlag);
    }

    /** One report read into a copy of the template. */
    method ReadData() returns (rep: seq<byte>)
      requires Valid()
      modifies dev
      ensures old(dev.incoming) == [] ==> rep == Zeros(reportSize) && dev.incoming == []
      ensures old(dev.incoming) != [] ==>
        rep == Fit(old(dev.incoming)[0], reportSize) && dev.incoming == old(dev.incoming)[1..]
      ensures dev.written == old(dev.written)
    {
      rep := dev.Read(reportSize);
    }

    /** Reading an acknowledgement is reading a report. */
    method ReadAck() returns (rep: seq<byte>)
      requires Valid()
      modifies dev
      ensures old(dev.incoming) == [] ==> rep == Zeros(reportSize) && dev.incoming == []
      ensures old(dev.incoming) != [] ==>
        rep == Fit(old(dev.incoming)[0], reportSize) && dev.incoming == old(dev.incoming)[1..]
      ensures dev.written == old(dev.written)
    {
      rep := ReadData();
    }

    /** A kind-3 report asking for `count` bytes from `addr`, with a command
        byte or'ed into the address byte. */
    method ReadCommand(addr: Addr7, command: byte, count: byte)
      requires Valid()
      modifies dev
      ensures dev.written == old(dev.written) + [HidWrite(numPipe, ReadSetupReport(reportSize, addr, command, count))]
      ensures dev.incoming == old(dev.incoming)
    {
      var addr8 := if addr != 0 then 2 * addr + 1 else 0;
      var report := NewReport();
      report[0] := 3;
      report[1] := count;
      OrXorBound(addr8, command, 8);
      report[2] := Or(addr8, command);
      assert addr8 == ReadAddressByte(addr);
      assert report[..3] == [3, count, Or(addr8, command)];
      assert report[3..] == Zeros(reportSize - 3);
      assert report[..] == report[..3] + report[3..];
      dev.Write(numPipe, report[..]);
    }

    /** A read request without a command byte. */
    method InitializeRead(addr: Addr7, count: byte)
      requires Valid()
      modifies dev
      ensures dev.written == old(dev.written) + [HidWrite(numPipe, ReadSetupReport(reportSize, addr, 0, count))]
      ensures dev.incoming == old(dev.incoming)
    {
      ReadCommand(addr, 0, count);
    }

    /** The write-and-acknowledge loop of `askDongle`.  The model stops when
        the device has nothing left to send; the source would keep writing
        and reading empty reports. */
    method WriteUntilAcked(addr: Addr7, data: seq<byte>, suspendStop: bool) returns (stalled: bool)
      requires Valid()
      modifies dev
      ensures stalled == AckLoop(old(dev.incoming), reportSize, 0).AckStalled?
      ensures dev.incoming == old(dev.incoming)[AckLoop(old(dev.incoming), reportSize, 0).polls..]
      ensures dev.written == old(dev.written)
        + Repeat(WriteReports(numPipe, reportSize, addr, data, !suspendStop), Sends(AckLoop(old(dev.incoming), reportSize, 0)))
    {
      ghost var script := dev.incoming;
      ghost var run := AckLoop(script, reportSize, 0);
      ghost var w := WriteReports(numPipe, reportSize, addr, data, !suspendStop);
      ghost var k := 0;
      var loop := 0;
      while true
        invariant 0 <= k <= |script| && dev.incoming == script[k..]
        invariant loop <= 3
        invariant dev.written == old(dev.written) + Repeat(w, k)
        invariant run.polls == k + AckLoop(script[k..], reportSize, loop).polls
        invariant run.AckStalled? == AckLoop(script[k..], reportSize, loop).AckStalled?
        decreases |dev.incoming|
      {
        WriteData(addr, data, suspendStop);
        RepeatMore(old(dev.written), w, k);
        if dev.incoming == [] {
          assert AckLoop(script[k..], reportSize, loop) == AckStalled(0);
          assert run.AckStalled? && Sends(run) == k + 1;
          return true;
        }
        ghost var before := dev.incoming;
        ghost var cur := AckLoop(before, reportSize, loop);
        var next := PollAck(loop);
        k := k + 1;
        assert dev.incoming == script[k..];
        if next.None? {
          return false;
        }
        loop := next.value;
      }
    }

    /** One poll of the acknowledgement loop: read a report and decide.  `None`
        means the loop ends here (a clean acknowledgement, or the fourth error
        acknowledgement); otherwise the loop goes on with the returned retry
        counter. */
    method PollAck(loop: nat) returns (next: Option<nat>)
      requires Valid() && loop <= 3 && dev.incoming != []
      modifies dev
      ensures dev.incoming == old(dev.incoming)[1..]
      ensures dev.written == old(dev.written)
      ensures next.None? ==> var run := AckLoop(old(dev.incoming), reportSize, loop);
        !run.AckStalled? && run.polls == 1
      ensures next.Some? ==> next.value <= 3
      ensures next.Some? ==>
        AckLoop(old(dev.incoming), reportSize, loop) == Later(AckLoop(old(dev.incoming)[1..], reportSize, next.value))
    {
      var rep := ReadAck();
      if rep[0] == 2 {
        if Bit7(rep[1]) {
          if loop >= 3 {
            return None;
          }
          return Some(loop + 1);
        }
        return None;
      }
      return Some(loop);
    }

    /** The data-report collection of `askDongle`'s read phase.  The model
        stops when the device has nothing left to send; the source would keep
        reading empty reports. */
    method CollectReply(rbytes: byte) returns (stalled: bool, sumrep: seq<byte>)
      requires Valid()
      modifies dev
      ensures stalled == Collect(old(dev.incoming), reportSize, rbytes).stalled
      ensures !stalled ==> sumrep == Collect(old(dev.incoming), reportSize, rbytes).bytes
      ensures dev.incoming == old(dev.incoming)[Collect(old(dev.incoming), reportSize, rbytes).polls..]
      ensures dev.written == old(dev.written)
    {
      ghost var script := dev.incoming;
      ghost var run := Collect(script, reportSize, rbytes);
      ghost var k := 0;
      sumrep := [];
      var received := 0;
      while rbytes > received
        invariant 0 <= k <= |script| && dev.incoming == script[k..]
        invariant dev.written == old(dev.written)
        invariant run.polls == k + Collect(script[k..], reportSize, rbytes - received).polls
        invariant run.stalled == Collect(script[k..], reportSize, rbytes - received).stalled
        invariant run.bytes == sumrep + Collect(script[k..], reportSize, rbytes - received).bytes
        decreases |dev.incoming|
      {
        ghost var before := dev.incoming;
        ghost var cur := Collect(before, reportSize, rbytes - received);
        if dev.incoming == [] {
          assert cur.stalled;
          return true, sumrep;
        }
        var rep := ReadData();
        assert rep == Fit(before[0], reportSize);
        k := k + 1;
        assert dev.incoming == script[k..] == before[1..];
        if rep[0] == 3 && !Bit7(rep[1]) {
          ghost var more := Collect(before[1..], reportSize, rbytes - received - (reportSize - 2));
          assert cur == ReadRun(more.polls + 1, rep[2..] + more.bytes, more.stalled);
          Assoc(sumrep, rep[2..], more.bytes);
          sumrep := sumrep + rep[2..];
          received := received + (reportSize - 2);
        } else {
          assert cur.bytes == Collect(before[1..], reportSize, rbytes - received).bytes;
        }
      }
      AppendEmpty(sumrep);
      stalled := false;
    }

    /** `askDongle`: the write-and-acknowledge loop unless the Sensirion
        protocol is in use, then, when bytes are to be read, the read request
        and the collection of the answer, cut to `rbytes` bytes. */
    method AskDongle(addr: Addr7, data: seq<byte>, rbytes: byte, waitMs: nat, name: seq<byte>) returns (answ: Reply)
      requires Valid()
      modifies dev
      ensures dev.written == old(dev.written) + Ask(numPipe, reportSize, addr, data, rbytes, name, old(dev.incoming)).written
      ensures answ == Ask(numPipe, reportSize, addr, data, rbytes, name, old(dev.incoming)).answer
      ensures dev.incoming == Ask(numPipe, reportSize, addr, data, rbytes, name, old(dev.incoming)).rest
    {
      var sensirion := addr == 0 || StartsWith(Upper(Strip(name)), SHT7);
      var suspendStop := rbytes > 0;
      ghost var script := dev.incoming;
      ghost var e := Ask(numPipe, reportSize, addr, data, rbytes, name, script);
      ghost var pre: seq<HidWrite> := [];
      if !sensirion {
        var stalled := WriteUntilAcked(addr, data, suspendStop);
        if stalled {
          return Stalled;
        }
        pre := Repeat(WriteReports(numPipe, reportSize, addr, data, !suspendStop), AckLoop(script, reportSize, 0).polls);
      }
      ghost var r := ReadPhase(numPipe, reportSize, addr, data, rbytes, sensirion, dev.incoming);
      assert e == Exchange(pre + r.written, r.answer, r.rest);
      assert dev.written == old(dev.written) + pre;
      if rbytes > 0 {
        if sensirion {
          if data == [] {
            AppendEmpty(dev.written);
            return MissingCommand;
          }
          ReadCommand(addr, data[0], rbytes);
        } else {
          InitializeRead(addr, rbytes);
        }
        Assoc(old(dev.written), pre, r.written);
        var stalled, sumrep := CollectReply(rbytes);
        if stalled {
          return Stalled;
        }
        answ := Data(sumrep[..rbytes]);
      } else {
        AppendEmpty(dev.written);
        answ := NoData;
      }
    }

    /** `__getstrArray__`: the log rendering of a report. */
    method GetStrArray(report: seq<byte>) returns (s: seq<byte>)
      requires |report| >= 1
      ensures s == StrArray(report)
    {
      var n := |report|;
      var last := Hex2(report[n - 1]) + [0x20];
      var i := SkipTrailingZeros(report);
      var dots: seq<byte> := [];
      if i < n - 2 {
        dots := [0x2E, 0x2E, 0x2E];
      } else {
        i := n - 2;
      }
      var head := HexPrefix(report, i + 1);
      HexGroupsOne(report[n - 1]);
      assert report[n - 1..] == [report[n - 1]];
      if dots == [] {
        HexGroupsAppend(report[..n - 1], report[n - 1]);
        assert report[..n - 1] + [report[n - 1]] == report;
        AppendEmpty(head);
      }
      s := head + dots + last;
    }
  }
}
