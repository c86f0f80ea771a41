/** The TSL2591 light sensor: command bytes, the gain and integration-time
    tables, the control byte, the two 16-bit channel counts, the status
    poll and the automatic gain search. */
module TSL2591 {
  import opened Bytes
  import opened Dongle

  /** The command register's fixed part: command bit and "normal
      operation" transaction type. */
  const CMD: nat := 0xA0

  /** The command byte that addresses register `register`. */
  function Command(register: nat): (c: byte)
    requires register < 0x20
  {
    CMD + register
  }

  /** The command byte is `CMD | register`: its top three bits are 101 and
      its low five bits name the register. */
  lemma CommandFields(register: nat)
    requires register < 0x20
    ensures Command(register) == Or(CMD, register)
    ensures Command(register) / 0x20 == 5 && Command(register) % 0x20 == register
  {
    assert Pow2(5) == 0x20 by {
      Pow2Values();
    }
    AndShifted(5, register, 5);
    OrDisjoint(CMD, register);
    DivModUnique(Command(register), 0x20, 5, register);
  }

  /** The registers this driver uses, as their command bytes. */
  lemma CommandBytes()
    ensures Command(0x00) == 0xA0 && Command(0x01) == 0xA1
    ensures Command(0x11) == 0xB1 && Command(0x12) == 0xB2
    ensures Command(0x13) == 0xB3 && Command(0x14) == 0xB4
  {
  }

  /** The analog gains, in the order of the automatic search. */
  datatype Gain = Low | Med | High | Max

  const SELECTOR: seq<Gain> := [Low, Med, High, Max]

  function GainField(g: Gain): nat
  {
    match g
    case Low => 0
    case Med => 1
    case High => 2
    case Max => 3
  }

  function GainFactor(g: Gain): nat
  {
    match g
    case Low => 1
    case Med => 25
    case High => 428
    case Max => 9876
  }

  /** The integration times. */
  datatype IntTime = T100 | T200 | T300 | T400 | T500 | T600

  function IntField(t: IntTime): nat
  {
    match t
    case T100 => 0
    case T200 => 1
    case T300 => 2
    case T400 => 3
    case T500 => 4
    case T600 => 5
  }

  function IntMs(t: IntTime): nat
  {
    match t
    case T100 => 100
    case T200 => 200
    case T300 => 300
    case T400 => 400
    case T500 => 500
    case T600 => 600
  }

  /** The selector lists the gains by field value, and each step up the
      selector is a larger gain factor. */
  lemma SelectorOrder(i: nat, j: nat)
    requires i < j < 4
    ensures GainField(SELECTOR[i]) == i && GainField(SELECTOR[j]) == j
    ensures GainFactor(SELECTOR[i]) < GainFactor(SELECTOR[j])
  {
  }

  /** Every integration time is its field value plus one, in units of
      100 ms. */
  lemma IntTable(t: IntTime)
    ensures IntMs(t) == 100 * (IntField(t) + 1)
  {
  }

  /** `gainFV << 4 | intFV`. */
  function ControlByte(g: Gain, t: IntTime): nat
  {
    Or(GainField(g) * 16, IntField(t))
  }

  /** The control byte fits one byte (at most 0x35), and its high and low
      nibbles give the gain and the integration time back. */
  lemma ControlFields(g: Gain, t: IntTime)
    ensures ControlByte(g, t) == GainField(g) * 16 + IntField(t) <= 0x35
    ensures ControlByte(g, t) / 16 == GainField(g) && ControlByte(g, t) % 16 == IntField(t)
  {
    assert Pow2(4) == 16;
    AndShifted(GainField(g), IntField(t), 4);
    OrDisjoint(GainField(g) * 16, IntField(t));
    DivModUnique(ControlByte(g, t), 16, GainField(g), IntField(t));
  }

  /** `lo | hi << 8`: a channel count, least significant byte first. */
  function Channel(lo: byte, hi: byte): nat
  {
    Or(lo, hi * 256)
  }

  /** A channel is the little-endian 16-bit value of its bytes, and every
      16-bit count is the channel of its two bytes. */
  lemma ChannelIsLE16(lo: byte, hi: byte)
    ensures Channel(lo, hi) == BE16(hi, lo) < 0x10000
  {
    Pow2Values();
    AndShifted(hi, lo, 8);
    AndComm(hi * 256, lo);
    OrDisjoint(lo, hi * 256);
  }

  lemma ChannelRoundTrip(v: nat)
    requires v < 0x10000
    ensures Channel(v % 256, v / 256) == v
  {
    ChannelIsLE16(v % 256, v / 256);
  }

  /** `answ[0] & 0b00110000`: the package id. */
  function PackageId(b: byte): nat
  {
    And(b, 0x30)
  }

  /** The package id is bits 5:4 of the register, left in place. */
  lemma PackageIdBits(b: byte)
    ensures PackageId(b) == ((b / 16) % 4) * 16
  {
    var x1 := b / 2;
    var x2 := x1 / 2;
    var x3 := x2 / 2;
    var x4 := x3 / 2;
    assert x4 == b / 16;
    HalveMask(b, 0x30);
    HalveMask(x1, 0x18);
    HalveMask(x2, 0x0C);
    HalveMask(x3, 0x06);
    assert Pow2(2) == 4;
    AndLowBits(x4, 2);
  }

  /** Masking with an even mask: the low bit drops out. */
  lemma HalveMask(x: nat, m: nat)
    requires m % 2 == 0
    ensures And(x, m) == 2 * And(x / 2, m / 2)
  {
  }

  /** The automatic gain rule on the visible count: one step down above
      65000, two steps up below 152, one step up below 2500, otherwise stay;
      `None` when the search stops, either because the count is in range or
      because the step would leave the selector. */
  function Step(index: int, visraw: nat): Option<int>
  {
    if visraw > 65000 then
      if index - 1 < 0 then None else Some(index - 1)
    else if visraw < 152 then
      if index + 2 > 3 then None else Some(index + 2)
    else if visraw < 2500 then
      if index + 1 > 3 then None else Some(index + 1)
    else
      None
  }

  /** A step stays on the selector and moves toward a count in range: down
      when saturated, up when dark. */
  lemma StepMoves(index: int, visraw: nat)
    requires 0 <= index <= 3 && Step(index, visraw).Some?
    ensures 0 <= Step(index, visraw).value <= 3
    ensures visraw > 65000 ==> Step(index, visraw).value == index - 1
    ensures visraw < 152 ==> Step(index, visraw).value == index + 2
    ensures 152 <= visraw < 2500 ==> Step(index, visraw).value == index + 1
    ensures 2500 <= visraw <= 65000 ==> false
  {
  }

  /** The search stops exactly when the count is in 2500..65000 or when
      the gain it asks for does not exist. */
  lemma StepStops(index: int, visraw: nat)
    requires 0 <= index <= 3
    ensures Step(index, visraw).None? <==>
      (2500 <= visraw <= 65000) ||
      (visraw > 65000 && index == 0) ||
      (visraw < 152 && index >= 2) ||
      (152 <= visraw < 2500 && index == 3)
  {
  }

  /** One measurement: raw counts with the gain factor and integration
      time used; an answer too short to index; or a poll or search that ran
      out of fuel. */
  datatype Measure = Lum(visraw: nat, irraw: nat, gainFactor: nat, intMs: nat) | ShortReply | Stalled

  /** What the status poll ends in. */
  datatype Status = Ready | NotReady | ShortStatus

  function StatusTx(addr: Addr7, name: string): Transaction
  {
    Cmd(addr, name, [Command(0x13)])
  }

  function DataTx(addr: Addr7, name: string): Transaction
  {
    Transaction(addr, [Command(0x14)], 4, 0, name)
  }

  /** The status poll from an answer `a` already read: ready when bit 0 is
      set, an exception when the answer is empty, otherwise one more read,
      at most `fuel` more. The count is the number of further reads. */
  function PollAfter(a: seq<byte>, q: seq<seq<byte>>, fuel: nat): (r: (Status, nat))
    ensures r.1 <= fuel
    decreases fuel
  {
    if |a| == 0 then (ShortStatus, 0)
    else if a[0] % 2 == 1 then (Ready, 0)
    else if fuel == 0 then (NotReady, 0)
    else
      var r := PollAfter(Answer(q, 1).0.value, Answer(q, 1).1, fuel - 1);
      (r.0, r.1 + 1)
  }

  /** A poll that reads a clear bit 0 with fuel left reads once more. */
  lemma PollAfterStep(a: seq<byte>, q: seq<seq<byte>>, fuel: nat)
    requires |a| > 0 && a[0] % 2 == 0 && fuel > 0
    ensures var p := PollAfter(Answer(q, 1).0.value, Answer(q, 1).1, fuel - 1);
      PollAfter(a, q, fuel) == (p.0, p.1 + 1)
  {
  }

  /** The whole poll: the first status read, then `PollAfter`. */
  function Poll(q: seq<seq<byte>>, fuel: nat): (r: (Status, nat))
    ensures 1 <= r.1 <= fuel + 1
  {
    var p := PollAfter(Answer(q, 1).0.value, Answer(q, 1).1, fuel);
    (p.0, p.1 + 1)
  }

  /** A poll that ends ready read, as its last answer, one with bit 0 set,
      and before it only answers with bit 0 clear. */
  lemma {:induction false} PollReadsUntilReady(q: seq<seq<byte>>, fuel: nat)
    requires Poll(q, fuel).0 == Ready
    requires Poll(q, fuel).1 <= |q|
    ensures var n := Poll(q, fuel).1;
      |q[n - 1]| > 0 && q[n - 1][0] % 2 == 1 &&
      forall i :: 0 <= i < n - 1 ==> |q[i]| > 0 && q[i][0] % 2 == 0
    decreases fuel
  {
    var a := Answer(q, 1).0.value;
    assert a == q[0];
    if |a| > 0 && a[0] % 2 == 0 {
      var q1 := Answer(q, 1).1;
      assert q1 == q[1..];
      PollReadsUntilReady(q1, fuel - 1);
    }
  }

  /** The writes `TSL2591getLum` starts with: gain and time into the
      control register, then the ALS enable bit off and on again. */
  function SetupTxs(addr: Addr7, name: string, g: Gain, t: IntTime): (r: seq<Transaction>)
    ensures |r| == 3 && r[0].data == [0xA1, GainField(g) * 16 + IntField(t)]
  {
    [Cmd(addr, name, [Command(0x01), GainField(g) * 16 + IntField(t)]),
     Cmd(addr, name, [Command(0x00), 0x01]),
     Cmd(addr, name, [Command(0x00), 0x03])]
  }

  /** After the poll: nothing more unless the status is ready, then the
      four data bytes, visible channel first. */
  function ReadOutSpec(addr: Addr7, name: string, status: Status, q: seq<seq<byte>>, g: Gain, t: IntTime)
    : (r: (Measure, seq<Transaction>, seq<seq<byte>>))
    ensures r.0.Lum? ==> r.0.visraw < 0x10000 && r.0.irraw < 0x10000 &&
                         r.0.gainFactor == GainFactor(g) && r.0.intMs == IntMs(t)
  {
    if status == ShortStatus then (ShortReply, [], q)
    else if status == NotReady then (Stalled, [], q)
    else
      var d := Answer(q, 4).0.value;
      if |d| < 4 then (ShortReply, [DataTx(addr, name)], Answer(q, 4).1)
      else
        (Lum(BE16(d[1], d[0]), BE16(d[3], d[2]), GainFactor(g), IntMs(t)),
         [DataTx(addr, name)], Answer(q, 4).1)
  }

  /** `TSL2591getLum` as a function of the answers: set up, poll the
      status, read out. */
  function LumSpec(addr: Addr7, name: string, q: seq<seq<byte>>, g: Gain, t: IntTime, pollFuel: nat)
    : (r: (Measure, seq<Transaction>, seq<seq<byte>>))
    ensures |r.1| >= 4 && r.1[0].data == [0xA1, GainField(g) * 16 + IntField(t)]
    ensures r.0.Lum? ==> r.0.visraw < 0x10000 && r.0.irraw < 0x10000 &&
                         r.0.gainFactor == GainFactor(g) && r.0.intMs == IntMs(t)
  {
    var p := Poll(Dropped(q, 3), pollFuel);
    var f := ReadOutSpec(addr, name, p.0, Dropped(q, 3 + p.1), g, t);
    (f.0, SetupTxs(addr, name, g, t) + Repeat([StatusTx(addr, name)], p.1) + f.1, f.2)
  }

  type Index = i: int | 0 <= i <= 3

  /** `TSL2591getLumAuto` as a function of the answers: from selector
      index `index`, measure at 600 ms and follow `Step` until it stops;
      `fuel` bounds the number of steps. The index is that of the last
      measurement. */
  function Auto(addr: Addr7, name: string, q: seq<seq<byte>>, index: Index, fuel: nat, pollFuel: nat)
    : (r: (Measure, Index, seq<Transaction>, seq<seq<byte>>))
    decreases fuel, 1
  {
    AutoAfter(addr, name, LumSpec(addr, name, q, SELECTOR[index], T600, pollFuel), index, fuel, pollFuel)
  }

  /** One round of the search once its measurement `l` is made: stop when
      the measurement failed or the step rule stops, give up when no fuel
      is left, otherwise measure again at the next index. */
  function AutoAfter(addr: Addr7, name: string, l: (Measure, seq<Transaction>, seq<seq<byte>>),
                     index: Index, fuel: nat, pollFuel: nat)
    : (r: (Measure, Index, seq<Transaction>, seq<seq<byte>>))
    decreases fuel, 0
  {
    if !l.0.Lum? || Step(index, l.0.visraw).None? then (l.0, index, l.1, l.2)
    else if fuel == 0 then (Stalled, index, l.1, l.2)
    else
      StepMoves(index, l.0.visraw);
      var r := Auto(addr, name, l.2, Step(index, l.0.visraw).value, fuel - 1, pollFuel);
      (r.0, r.1, l.1 + r.2, r.3)
  }

  /** A round of the search that goes on at the next index. */
  lemma AutoContinues(addr: Addr7, name: string, l: (Measure, seq<Transaction>, seq<seq<byte>>),
                      index: Index, fuel: nat, pollFuel: nat, next: Index)
    requires l.0.Lum? && Step(index, l.0.visraw) == Some(next) && fuel > 0
    ensures var r := Auto(addr, name, l.2, next, fuel - 1, pollFuel);
      AutoAfter(addr, name, l, index, fuel, pollFuel) == (r.0, r.1, l.1 + r.2, r.3)
  {
  }

  /** A measurement made at 600 ms with the gain of selector index `index`. */
  predicate MeasuredAt(m: Measure, index: Index)
  {
    m.Lum? ==> m.gainFactor == GainFactor(SELECTOR[index]) && m.intMs == 600
  }

  /** A measurement the search may return: one the step rule accepts,
      made at 600 ms with the gain of the index returned. */
  predicate Accepted(m: Measure, index: Index)
  {
    MeasuredAt(m, index) && (m.Lum? ==> Step(index, m.visraw).None?)
  }

  /** The search starts at the given gain with 600 ms, and what it returns
      is `Accepted`: the count is in range or no further gain exists. */
  lemma {:induction false} AutoSettles(addr: Addr7, name: string, q: seq<seq<byte>>, index: Index, fuel: nat, pollFuel: nat)
    ensures var r := Auto(addr, name, q, index, fuel, pollFuel);
      |r.2| >= 4 && r.2[0].data == [0xA1, GainField(SELECTOR[index]) * 16 + 5] && Accepted(r.0, r.1)
    decreases fuel, 1
  {
    var l := LumSpec(addr, name, q, SELECTOR[index], T600, pollFuel);
    AutoAfterSettles(addr, name, l, index, fuel, pollFuel);
  }

  /** A round that starts from a measurement at the right gain ends in an
      accepted measurement, and its writes start with the round's own. */
  lemma {:induction false} AutoAfterSettles(addr: Addr7, name: string, l: (Measure, seq<Transaction>, seq<seq<byte>>),
                                            index: Index, fuel: nat, pollFuel: nat)
    requires MeasuredAt(l.0, index) && |l.1| >= 1
    ensures var r := AutoAfter(addr, name, l, index, fuel, pollFuel);
      |r.2| >= |l.1| && r.2[0] == l.1[0] && Accepted(r.0, r.1)
    decreases fuel, 0
  {
    if l.0.Lum? && Step(index, l.0.visraw).Some? && fuel > 0 {
      StepMoves(index, l.0.visraw);
      AutoSettles(addr, name, l.2, Step(index, l.0.visraw).value, fuel - 1, pollFuel);
    }
  }

  /** What `TSL2591Init` ends in. */
  datatype Init = Identified(pidConfirmed: bool) | Absent | ShortId

  /** `TSL2591Init` as a function of the answers: read the id (stop when it
      is not the expected one), read the package id, enable the ALS. */
  function InitSpec(addr: Addr7, name: string, id: int, q: seq<seq<byte>>)
    : (r: (Init, seq<Transaction>, seq<seq<byte>>))
  {
    var idTx := Cmd(addr, name, [Command(0x12)]);
    var a := Answer(q, 1);
    if |a.0.value| == 0 then (ShortId, [idTx], a.1)
    else if a.0.value[0] != id then (Absent, [idTx], a.1)
    else
      var pidTx := Cmd(addr, name, [Command(0x11)]);
      var b := Answer(a.1, 1);
      if |b.0.value| == 0 then (ShortId, [idTx, pidTx], b.1)
      else
        var enable := Cmd(addr, name, [Command(0x00), 0x03]);
        (Identified(PackageId(b.0.value[0]) == 0), [idTx, pidTx, enable], Dropped(a.1, 2))
  }

  /** The sensor is identified only when the first answer is the expected
      id, and its package is confirmed exactly when bits 5:4 of the second
      answer are clear. */
  lemma InitIdentifies(addr: Addr7, name: string, id: int, q: seq<seq<byte>>)
    ensures var r := InitSpec(addr, name, id, q);
      r.0.Identified? ==>
        2 <= |q| && |q[0]| > 0 && q[0][0] == id && |q[1]| > 0 &&
        (r.0.pidConfirmed <==> (q[1][0] / 16) % 4 == 0)
    ensures var r := InitSpec(addr, name, id, q);
      r.0.Absent? ==> |q| >= 1 && q[0][0] != id
  {
    var r := InitSpec(addr, name, id, q);
    if r.0.Identified? {
      assert q[1..][0] == q[1];
      PackageIdBits(q[1][0]);
    }
  }

  /** `TSL2591Init` as written: the id read looks its adapter up in the
      table of adapters with the adapter object as key, while the table is
      keyed by adapter name, so the call raises KeyError before anything
      reaches the bus and the answers stay unread. */
  function InitAsWritten(q: seq<seq<byte>>): (Outcome<Init>, seq<Transaction>, seq<seq<byte>>)
  {
    (Raised, [], q)
  }

  /** Whatever the answers, the init as written and the intended init
      differ: the former sends nothing and raises, the latter always sends
      the id read first and never raises. */
  lemma InitAsWrittenDiffers(addr: Addr7, name: string, id: int, q: seq<seq<byte>>)
    ensures InitAsWritten(q).0.Raised? && InitAsWritten(q).1 == []
    ensures var s := InitSpec(addr, name, id, q);
      |s.1| >= 1 && s.1[0] == Cmd(addr, name, [Command(0x12)])
    ensures InitAsWritten(q).1 != InitSpec(addr, name, id, q).1
  {
  }

  /** A TSL2591 on a bus. */
  class SensorTsl2591 {
    const bus: Bus
    const addr: Addr7
    const id: int
    const name: string

    constructor (b: Bus, a: Addr7, subtype: int, n: string)
      ensures bus == b && addr == a && id == subtype && name == n
    {
      bus := b;
      addr := a;
      id := subtype;
      name := n;
    }

    method Ask(data: seq<byte>, rbytes: byte) returns (answ: seq<byte>)
      modifies bus
      ensures bus.issued == old(bus.issued) + [Transaction(addr, data, rbytes, 0, name)]
      ensures rbytes > 0 ==> answ == Answer(old(bus.replies), rbytes).0.value
      ensures bus.replies == Answer(old(bus.replies), rbytes).1
    {
      var r := bus.Ask(Transaction(addr, data, rbytes, 0, name));
      answ := if r.Some? then r.value else [];
    }

    /** `TSL2591Init`. */
    method Init() returns (r: Init)
      modifies bus
      ensures var s := InitSpec(addr, name, id, old(bus.replies));
        r == s.0 && bus.issued == old(bus.issued) + s.1 && bus.replies == s.2
    {
      var answ := Ask([CMD + 0x12], 1);
      if |answ| == 0 {
        return ShortId;
      }
      if answ[0] != id {
        return Absent;
      }
      ghost var q1 := bus.replies;
      answ := Ask([CMD + 0x11], 1);
      if |answ| == 0 {
        return ShortId;
      }
      var pid := And(answ[0], 0x30);
      var _ := Ask([CMD + 0x00, 0x03], 1);
      DroppedStep(q1, 1);
      r := Identified(pid == 0);
    }

    /** The status poll of `TSL2591getLum`: read the status register until
        its bit 0 is set, with at most `fuel` reads after the first. */
    method WaitReady(fuel: nat) returns (s: Status)
      modifies bus
      ensures var p := Poll(old(bus.replies), fuel);
        s == p.0 && bus.issued == old(bus.issued) + Repeat([StatusTx(addr, name)], p.1) &&
        bus.replies == Dropped(old(bus.replies), p.1)
    {
      ghost var q := bus.replies;
      var answ := Ask([CMD + 0x13], 1);
      DroppedStep(q, 0);
      ghost var first := bus.issued;
      ghost var p := PollAfter(answ, bus.replies, fuel);
      s := WaitAfter(answ, fuel);
      DroppedAdd(q, 1, p.1);
      RepeatAdd([StatusTx(addr, name)], 1, p.1);
      Assoc(old(bus.issued), [StatusTx(addr, name)], Repeat([StatusTx(addr, name)], p.1));
    }

    /** The loop of the status poll, from an answer `a` already read. */
    method WaitAfter(a: seq<byte>, fuel: nat) returns (s: Status)
      modifies bus
      ensures var p := PollAfter(a, old(bus.replies), fuel);
        s == p.0 && bus.issued == old(bus.issued) + Repeat([StatusTx(addr, name)], p.1) &&
        bus.replies == Dropped(old(bus.replies), p.1)
    {
      var answ := a;
      var left := fuel;
      ghost var k := 0;
      if |answ| > 0 {
        AndOne(answ[0]);
      }
      while |answ| > 0 && And(answ[0], 0x01) == 0 && left > 0
        invariant |answ| > 0 ==> And(answ[0], 0x01) == answ[0] % 2
        invariant left + k == fuel
        invariant var p := PollAfter(answ, bus.replies, left);
          PollAfter(a, old(bus.replies), fuel) == (p.0, p.1 + k)
        invariant bus.issued == old(bus.issued) + Repeat([StatusTx(addr, name)], k)
        invariant bus.replies == Dropped(old(bus.replies), k)
        decreases left
      {
        PollAfterStep(answ, bus.replies, left);
        DroppedStep(old(bus.replies), k);
        RepeatMore(old(bus.issued), [StatusTx(addr, name)], k);
        answ := Ask([CMD + 0x13], 1);
        if |answ| > 0 {
          AndOne(answ[0]);
        }
        left := left - 1;
        k := k + 1;
      }
      s := if |answ| == 0 then ShortStatus else if And(answ[0], 0x01) != 0 then Ready else NotReady;
    }

    /** The first three writes of `TSL2591getLum`. */
    method Configure(g: Gain, t: IntTime)
      modifies bus
      ensures bus.issued == old(bus.issued) + SetupTxs(addr, name, g, t)
      ensures bus.replies == Dropped(old(bus.replies), 3)
    {
      ghost var q := bus.replies;
      ControlFields(g, t);
      var control := Or(GainField(g) * 16, IntField(t));
      var _ := Ask([CMD + 0x01, control], 1);
      DroppedStep(q, 0);
      var _ := Ask([CMD + 0x00, 0x01], 1);
      DroppedStep(q, 1);
      var _ := Ask([CMD + 0x00, 0x03], 1);
      DroppedStep(q, 2);
    }

    /** The end of `TSL2591getLum`: the data read once the status is
        ready, and the two channel counts. */
    method ReadOut(status: Status, g: Gain, t: IntTime) returns (m: Measure)
      modifies bus
      ensures var s := ReadOutSpec(addr, name, status, old(bus.replies), g, t);
        m == s.0 && bus.issued == old(bus.issued) + s.1 && bus.replies == s.2
    {
      if status == ShortStatus {
        return ShortReply;
      }
      if status == NotReady {
        return Stalled;
      }
      var answ := Ask([CMD + 0x14], 4);
      if |answ| < 4 {
        return ShortReply;
      }
      var visraw := Channel(answ[0], answ[1]);
      var irraw := Channel(answ[2], answ[3]);
      ChannelIsLE16(answ[0], answ[1]);
      ChannelIsLE16(answ[2], answ[3]);
      m := Lum(visraw, irraw, GainFactor(g), IntMs(t));
    }

    /** `TSL2591getLum`. */
    method GetLum(g: Gain, t: IntTime, pollFuel: nat) returns (m: Measure)
      modifies bus
      ensures var s := LumSpec(addr, name, old(bus.replies), g, t, pollFuel);
        m == s.0 && bus.issued == old(bus.issued) + s.1 && bus.replies == s.2
    {
      ghost var q := bus.replies;
      ghost var start := bus.issued;
      Configure(g, t);
      var status := WaitReady(pollFuel);
      ghost var p := Poll(Dropped(q, 3), pollFuel);
      DroppedAdd(q, 3, p.1);
      m := ReadOut(status, g, t);
      ghost var setup := SetupTxs(addr, name, g, t);
      ghost var polls := Repeat([StatusTx(addr, name)], p.1);
      ghost var f := ReadOutSpec(addr, name, p.0, Dropped(q, 3 + p.1), g, t);
      assert bus.issued == start + setup + polls + f.1;
      Assoc(start, setup + polls, f.1);
      Assoc(start, setup, polls);
    }

    /** The step of `TSL2591getLumAuto`'s loop: the next index, or `None`
        where the loop breaks. */
    static method NextIndex(index: Index, visraw: nat) returns (next: Option<Index>)
      ensures next.None? <==> Step(index, visraw).None?
      ensures next.Some? ==> next.value == Step(index, visraw).value
    {
      var selindex := index;
      if visraw > 65000 {
        selindex := selindex - 1;
        if selindex < 0 {
          return None;
        }
      } else if visraw < 152 {
        selindex := selindex + 2;
        if selindex > 3 {
          return None;
        }
      } else if visraw < 2500 {
        selindex := selindex + 1;
        if selindex > 3 {
          return None;
        }
      } else {
        return None;
      }
      next := Some(selindex);
    }

    /** One pass of `TSL2591getLumAuto`'s loop: measure at the gain of
        `index` and 600 ms, then the next index, or `None` where the loop
        breaks. `spent` is what the pass wrote. */
    method Round(index: Index, left: nat, pollFuel: nat)
      returns (m: Measure, next: Option<Index>, ghost spent: seq<Transaction>)
      modifies bus
      ensures bus.issued == old(bus.issued) + spent
      ensures next.None? ==> Auto(addr, name, old(bus.replies), index, left, pollFuel) == (m, index, spent, bus.replies)
      ensures next.Some? && left == 0 ==>
        Auto(addr, name, old(bus.replies), index, left, pollFuel) == (Stalled, index, spent, bus.replies)
      ensures next.Some? && left > 0 ==>
        var r := Auto(addr, name, bus.replies, next.value, left - 1, pollFuel);
        Auto(addr, name, old(bus.replies), index, left, pollFuel) == (r.0, r.1, spent + r.2, r.3)
    {
      ghost var q := bus.replies;
      ghost var l := LumSpec(addr, name, q, SELECTOR[index], T600, pollFuel);
      m := GetLum(SELECTOR[index], T600, pollFuel);
      spent := l.1;
      if !m.Lum? {
        return m, None, spent;
      }
      next := NextIndex(index, m.visraw);
      if next.Some? && left > 0 {
        AutoContinues(addr, name, l, index, left, pollFuel, next.value);
      }
    }

    /** `TSL2591getLumAuto`: start at the second gain, measure at 600 ms,
        step the gain index by the visible count until the step rule stops;
        at most `fuel` steps. */
    method GetLumAuto(fuel: nat, pollFuel: nat) returns (m: Measure)
      modifies bus
      ensures var s := Auto(addr, name, old(bus.replies), 1, fuel, pollFuel);
        m == s.0 && bus.issued == old(bus.issued) + s.2 && bus.replies == s.3
    {
      var selindex: Index := 1;
      var left := fuel;
      ghost var done: seq<Transaction> := [];
      ghost var s := Auto(addr, name, old(bus.replies), 1, fuel, pollFuel);
      ghost var rest := s;
      while true
        invariant bus.issued == old(bus.issued) + done
        invariant rest == Auto(addr, name, bus.replies, selindex, left, pollFuel)
        invariant s.0 == rest.0 && s.3 == rest.3 && s.2 == done + rest.2
        decreases left
      {
        var next: Option<Index>;
        ghost var spent: seq<Transaction>;
        m, next, spent := Round(selindex, left, pollFuel);
        Assoc(old(bus.issued), done, spent);
        if next.None? {
          return;
        }
        if left == 0 {
          return Stalled;
        }
        ghost var after := Auto(addr, name, bus.replies, next.value, left - 1, pollFuel);
        assert rest == (after.0, after.1, spent + after.2, after.3);
        Assoc(done, spent, after.2);
        rest := after;
        left := left - 1;
        selindex := next.value;
        done := done + spent;
      }
    }
  }
}
