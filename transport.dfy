/** The two transports the adapters drive, reduced to what the adapters can
    observe: the frames they write, in order, and a script of what the device
    sends back.  The serial port and the vendor HID library themselves are not
    part of this model. */
module Transport {
  import opened Bytes

  /** One token of serial input: a byte that has arrived, or a pause longer
      than the port's read timeout. */
  datatype Input = Byte(b: byte) | Pause

  /** The bytes of an input script, pauses dropped. */
  function Flat(q: seq<Input>): (r: seq<byte>)
    ensures |r| <= |q|
  {
    if q == [] then []
    else if q[0].Pause? then Flat(q[1..])
    else [q[0].b] + Flat(q[1..])
  }

  /** Input that has all arrived before the read starts: the bytes, with no
      pause among them. */
  function Arrived(bs: seq<byte>): (q: seq<Input>)
    ensures |q| == |bs|
    ensures forall i :: 0 <= i < |q| ==> q[i] == Byte(bs[i])
  {
    seq(|bs|, i requires 0 <= i < |bs| => Byte(bs[i]))
  }

  lemma {:induction false} FlatArrived(bs: seq<byte>)
    ensures Flat(Arrived(bs)) == bs
    decreases |bs|
  {
    if bs != [] {
      FlatArrived(bs[1..]);
      assert Arrived(bs)[1..] == Arrived(bs[1..]);
    }
  }

  /** `in_waiting`: the bytes already received, up to the next pause. */
  function Available(q: seq<Input>): (k: nat)
    ensures k <= |q|
    ensures k > 0 <==> q != [] && q[0].Byte?
  {
    if q != [] && q[0].Byte? then 1 + Available(q[1..]) else 0
  }

  /** `read(n)` with a timeout: up to `n` bytes; running into a pause ends the
      read early and uses the pause up. */
  function SerialRead(q: seq<Input>, n: nat): (res: (seq<byte>, seq<Input>))
    ensures |res.0| <= n
    ensures |res.1| <= |q|
    ensures res.0 == [] && n > 0 ==> q == [] || q[0].Pause?
  {
    if n == 0 || q == [] then ([], q)
    else if q[0].Pause? then ([], q[1..])
    else
      var more := SerialRead(q[1..], n - 1);
      ([q[0].b] + more.0, more.1)
  }

  /** A read loses nothing: the bytes it returns followed by the bytes left
      unread are the bytes of the script. */
  lemma {:induction false} SerialReadKeepsAll(q: seq<Input>, n: nat)
    ensures Flat(q) == SerialRead(q, n).0 + Flat(SerialRead(q, n).1)
    decreases n
  {
    if n == 0 || q == [] {
      AppendEmpty(Flat(q));
    } else if q[0].Byte? {
      SerialReadKeepsAll(q[1..], n - 1);
      var more := SerialRead(q[1..], n - 1);
      Assoc([q[0].b], more.0, Flat(more.1));
    }
  }

  /** A serial port (pyserial's `Serial`): a trace of the frames written and
      the input still to be read. */
  class SerialPort {
    var written: seq<seq<byte>>
    var incoming: seq<Input>

    constructor (script: seq<Input>)
      ensures written == [] && incoming == script
    {
      written := [];
      incoming := script;
    }

    method Write(frame: seq<byte>)
      modifies this
      ensures written == old(written) + [frame]
      ensures incoming == old(incoming)
    {
      written := written + [frame];
    }

    method Read(n: nat) returns (r: seq<byte>)
      modifies this
      ensures (r, incoming) == SerialRead(old(incoming), n)
      ensures written == old(written)
    {
      var res := SerialRead(incoming, n);
      r := res.0;
      incoming := res.1;
    }

    method InWaiting() returns (k: nat)
      ensures k == Available(incoming)
    {
      k := Available(incoming);
    }
  }

  /** The single-byte drain loop: read one byte at a time until a read returns
      nothing, which happens at a pause (used up) or at the end of input. */
  function DrainLoop(q: seq<Input>): (res: (seq<byte>, seq<Input>))
    ensures |res.1| <= |q|
  {
    if q == [] then ([], [])
    else if q[0].Pause? then ([], q[1..])
    else
      var more := DrainLoop(q[1..]);
      ([q[0].b] + more.0, more.1)
  }

  /** What `rec = read(n)` followed by the drain step leaves: the bytes
      received and the input still unread. */
  function Drained(q: seq<Input>, n: nat): (res: (seq<byte>, seq<Input>))
  {
    var first := SerialRead(q, n);
    if Available(first.1) > 0 then
      (first.0 + DrainLoop(first.1).0, DrainLoop(first.1).1)
    else first
  }

  /** One turn of the drain loop: a single-byte read that returns nothing ends
      it, one that returns a byte is followed by the rest of the loop. */
  lemma DrainLoopStep(q: seq<Input>)
    ensures var step := SerialRead(q, 1);
      if step.0 == [] then DrainLoop(q) == ([], step.1)
      else DrainLoop(q) == (step.0 + DrainLoop(step.1).0, DrainLoop(step.1).1)
  {
    if q != [] && q[0].Byte? {
      var more := SerialRead(q[1..], 0);
      assert more == ([], q[1..]);
      assert SerialRead(q, 1) == ([q[0].b] + more.0, more.1);
      assert [q[0].b] + more.0 == [q[0].b];
      var loop := DrainLoop(q[1..]);
      assert DrainLoop(q) == ([q[0].b] + loop.0, loop.1);
    }
  }

  lemma {:induction false} DrainLoopKeepsAll(q: seq<Input>)
    ensures Flat(q) == DrainLoop(q).0 + Flat(DrainLoop(q).1)
    decreases |q|
  {
    if q == [] {
      assert Flat(q) == [] + [];
    } else if q[0].Byte? {
      DrainLoopKeepsAll(q[1..]);
      var more := DrainLoop(q[1..]);
      Assoc([q[0].b], more.0, Flat(more.1));
    }
  }

  /** Nothing read is dropped: the bytes returned followed by the bytes left
      unread are exactly the bytes of the script. */
  lemma DrainedKeepsAll(q: seq<Input>, n: nat)
    ensures Flat(q) == Drained(q, n).0 + Flat(Drained(q, n).1)
  {
    var first := SerialRead(q, n);
    SerialReadKeepsAll(q, n);
    if Available(first.1) > 0 {
      DrainLoopKeepsAll(first.1);
    }
  }

  lemma {:induction false} DrainLoopNoPause(q: seq<Input>)
    requires forall i :: 0 <= i < |q| ==> q[i].Byte?
    ensures DrainLoop(q) == (Flat(q), [])
    decreases |q|
  {
    if q != [] {
      DrainLoopNoPause(q[1..]);
    }
  }

  lemma {:induction false} SerialReadNoPause(q: seq<Input>, n: nat)
    requires forall i :: 0 <= i < |q| ==> q[i].Byte?
    ensures var res := SerialRead(q, n);
      |res.0| == (if n < |q| then n else |q|) && res.1 == q[|res.0|..]
    decreases n
  {
    if n > 0 && q != [] {
      SerialReadNoPause(q[1..], n - 1);
    }
  }

  /** When every byte has already arrived (no pause in the script), the drain
      step reads all of it, whatever `n` was asked for. */
  lemma DrainedReadsEverything(q: seq<Input>, n: nat)
    requires forall i :: 0 <= i < |q| ==> q[i].Byte?
    ensures Drained(q, n) == (Flat(q), [])
  {
    SerialReadNoPause(q, n);
    SerialReadKeepsAll(q, n);
    var first := SerialRead(q, n);
    var rest := first.1;
    assert Flat(q) == first.0 + Flat(rest);
    if rest != [] {
      assert forall i :: 0 <= i < |rest| ==> rest[i] == q[|first.0| + i];
      DrainLoopNoPause(rest);
      assert Available(rest) > 0;
      assert Drained(q, n) == (first.0 + Flat(rest), []);
    } else {
      assert Flat(rest) == [];
      assert first.0 + [] == first.0;
      assert Drained(q, n) == (first.0, []);
    }
  }

  /** `rec = ser.read(length)`, then, if bytes are still waiting, single-byte
      reads until one returns nothing.  The ELV and ISS adapters run this same
      step in all four of their read routines. */
  method ReadAndDrain(port: SerialPort, length: nat) returns (rec: seq<byte>)
    modifies port
    ensures (rec, port.incoming) == Drained(old(port.incoming), length)
    ensures port.written == old(port.written)
  {
    ghost var q := port.incoming;
    rec := port.Read(length);
    var cnt := port.InWaiting();
    ghost var first := SerialRead(q, length);
    assert rec == first.0 && port.incoming == first.1;
    if cnt > 0 {
      assert Drained(q, length) == (rec + DrainLoop(port.incoming).0, DrainLoop(port.incoming).1);
      while true
        invariant port.written == old(port.written)
        invariant Drained(q, length)
          == (rec + DrainLoop(port.incoming).0, DrainLoop(port.incoming).1)
        decreases |port.incoming|
      {
        ghost var before := port.incoming;
        DrainLoopStep(before);
        var x := port.Read(1);
        if |x| == 0 {
          assert DrainLoop(before) == ([], port.incoming);
          assert rec + [] == rec;
          break;
        }
        assert DrainLoop(before).0 == x + DrainLoop(port.incoming).0;
        assert DrainLoop(before).1 == DrainLoop(port.incoming).1;
        assert (rec + x) + DrainLoop(port.incoming).0 == rec + DrainLoop(before).0;
        rec := rec + x;
      }
    }
  }

  /** One write to the HID interface: the pipe number and the report. */
  datatype HidWrite = HidWrite(pipe: nat, report: seq<byte>)

  /** `r` cut or zero-padded to `size`: what a read leaves in a buffer that
      started as a copy of the all-zero template report. */
  function Fit(r: seq<byte>, size: nat): (f: seq<byte>)
    ensures |f| == size
    ensures forall i :: 0 <= i < size ==> f[i] == if i < |r| then r[i] else 0
  {
    if |r| >= size then r[..size] else r + Zeros(size - |r|)
  }

  /** An open IO-Warrior device: its product id, a trace of the reports
      written and the reports it will send back, in order. */
  class HidDevice {
    const productId: int
    var written: seq<HidWrite>
    var incoming: seq<seq<byte>>

    constructor (pid: int, script: seq<seq<byte>>)
      ensures productId == pid && written == [] && incoming == script
    {
      productId := pid;
      written := [];
      incoming := script;
    }

    method Write(pipe: nat, report: seq<byte>)
      modifies this
      ensures written == old(written) + [HidWrite(pipe, report)]
      ensures incoming == old(incoming)
    {
      written := written + [HidWrite(pipe, report)];
    }

    /** `IowKitRead` into a copy of the zero template; with nothing to read
        it times out and the buffer stays all zero. */
    method Read(size: nat) returns (r: seq<byte>)
      modifies this
      ensures old(incoming) == [] ==> r == Zeros(size) && incoming == []
      ensures old(incoming) != [] ==>
        r == Fit(old(incoming)[0], size) && incoming == old(incoming)[1..]
      ensures written == old(written)
    {
      if incoming == [] {
        r := Zeros(size);
      } else {
        r := Fit(incoming[0], size);
        incoming := incoming[1..];
      }
    }
  }
}
