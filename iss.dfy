/** The Devantech USB-ISS adapter (src/i2cusbdongles/dongles/ISS.py): binary
    command frames over a serial port.  A write goes out as the I2C command
    0x55, the write address and the data; a read is set up by a second frame
    that repeats the register bytes and asks for a byte count, and the answer
    comes back as raw bytes. */
module ISS {
  import opened Bytes
  import opened Transport
  import opened Dongle

  /** I2C_AD1, the command for a device with a single-byte register address,
      and I2C_AD2, the one for a two-byte register address. */
  const AD1: byte := 0x55
  const AD2: byte := 0x56

  /** The adapter's own commands: read the version (module id, firmware,
      operating mode) and select hardware I2C at 100 kHz. */
  const VERSION_COMMAND: seq<byte> := [0x5A, 0x01]
  const MODE_COMMAND: seq<byte> := [0x5A, 0x02, 0x60, 0x04]

  /** The module id of a USB-ISS, and its acknowledgement of a mode change. */
  const MODULE_ID: byte := 0x07
  const MODE_ACK: seq<byte> := [0xFF, 0x00]

  /** `ISSwriteData`'s frame: 0x55, the write address, the data. */
  function WriteFrame(addr: Addr7, data: seq<byte>): seq<byte>
  {
    [AD1, AddressByte(addr, false)] + data
  }

  /** The read-setup command: 0x55 for at most one register byte, 0x56 for
      more. */
  function ReadOpcode(register: seq<byte>): (op: byte)
    ensures op == AD1 <==> |register| <= 1
    ensures op == AD2 <==> |register| >= 2
  {
    if |register| <= 1 then AD1 else AD2
  }

  /** `ISSinitializeRead`'s frame: the command, the read address, the
      register bytes and the count. */
  function ReadSetupFrame(addr: Addr7, register: seq<byte>, count: byte): seq<byte>
  {
    [ReadOpcode(register), AddressByte(addr, true)] + register + [count]
  }

  /** What a frame asks of the adapter. */
  datatype Command =
    | WriteCmd(addr: Addr7, data: seq<byte>)
    | ReadSetupCmd(addr: Addr7, register: seq<byte>, count: byte)

  /** How the adapter reads a frame: the command byte, the address byte
      (its low bit selects reading), then the data, or the register bytes
      and a count; a command byte that does not fit the register length is
      refused. */
  function Parse(f: seq<byte>): (c: Option<Command>)
    ensures c.Some? ==> |f| >= 2 && f[1] / 2 == c.value.addr
    ensures c.Some? && c.value.ReadSetupCmd? ==> f[0] == ReadOpcode(c.value.register)
  {
    if |f| < 2 || (f[0] != AD1 && f[0] != AD2) then None
    else if f[1] % 2 == 0 then
      if f[0] == AD1 then Some(WriteCmd(f[1] / 2, f[2..])) else None
    else if |f| < 3 then None
    else
      var register := f[2..|f| - 1];
      if ReadOpcode(register) == f[0] then Some(ReadSetupCmd(f[1] / 2, register, f[|f| - 1]))
      else None
  }

  /** A write frame is read back as the write it encodes. */
  lemma WriteFrameParses(addr: Addr7, data: seq<byte>)
    ensures Parse(WriteFrame(addr, data)) == Some(WriteCmd(addr, data))
  {
    var f := WriteFrame(addr, data);
    assert f[0] == AD1 && f[1] == AddressByte(addr, false) && f[2..] == data;
  }

  /** A read-setup frame is read back as the read it sets up: its command
      byte always matches the number of register bytes. */
  lemma ReadSetupFrameParses(addr: Addr7, register: seq<byte>, count: byte)
    ensures Parse(ReadSetupFrame(addr, register, count)) == Some(ReadSetupCmd(addr, register, count))
  {
    var f := ReadSetupFrame(addr, register, count);
    assert f[0] == ReadOpcode(register) && f[1] == AddressByte(addr, true);
    assert f[2..|f| - 1] == register;
    assert f[|f| - 1] == count;
  }

  /** The LM75 reading: write register 0, then ask for two bytes. */
  lemma Lm75Frames()
    ensures WriteFrame(0x48, [0x00]) == [0x55, 0x90, 0x00]
    ensures ReadSetupFrame(0x48, [0x00], 2) == [0x55, 0x91, 0x00, 0x02]
  {
    assert AddressByte(0x48, false) == 0x90;
    assert AddressByte(0x48, true) == 0x91;
  }

  /** The frames one `askDongle` writes: the write frame, then, when bytes
      are to be read, a read setup that repeats the written data as the
      register. */
  function AskFrames(addr: Addr7, data: seq<byte>, rbytes: byte): seq<seq<byte>>
  {
    [WriteFrame(addr, data)] + if rbytes > 0 then [ReadSetupFrame(addr, data, rbytes)] else []
  }

  /** The adapter sees first the write of `data`, then, exactly when bytes
      are to be read, a read of `rbytes` bytes whose register is `data`. */
  lemma AskFramesShape(addr: Addr7, data: seq<byte>, rbytes: byte)
    ensures var fs := AskFrames(addr, data, rbytes);
      |fs| == (if rbytes > 0 then 2 else 1)
      && Parse(fs[0]) == Some(WriteCmd(addr, data))
      && (rbytes > 0 ==> Parse(fs[1]) == Some(ReadSetupCmd(addr, data, rbytes)))
  {
    WriteFrameParses(addr, data);
    ReadSetupFrameParses(addr, data, rbytes);
  }

  /** The opening handshake, as the outcome, the frames written and the
      input left: the version is asked for and three bytes read; unless the
      first is the module id the source gives up (it exits, and an empty
      reply makes it fail on the index); otherwise hardware I2C is selected
      and the two bytes read back must be exactly FF 00. */
  function Handshake(q: seq<Input>): (bool, seq<seq<byte>>, seq<Input>)
  {
    var version := Drained(q, 3);
    if version.0 == [] || version.0[0] != MODULE_ID then (false, [VERSION_COMMAND], version.1)
    else
      var mode := Drained(version.1, 2);
      (mode.0 == MODE_ACK, [VERSION_COMMAND, MODE_COMMAND], mode.1)
  }

  /** A USB-ISS that answers its version, pauses, then acknowledges the mode
      change is accepted, and its answers are used up (the mode read times
      out at the pause, and the drain step collects the acknowledgement). */
  lemma HandshakeAccepts(firmware: byte, mode: byte)
    ensures Handshake(Arrived([MODULE_ID, firmware, mode]) + [Pause] + Arrived(MODE_ACK))
      == (true, [VERSION_COMMAND, MODE_COMMAND], [])
  {
    var a := Arrived([MODULE_ID, firmware, mode]);
    var b := Arrived(MODE_ACK);
    var q := a + [Pause] + b;
    Assoc(a, [Pause], b);
    ReadsWhatArrived(a, [Pause] + b, [MODULE_ID, firmware, mode]);
    assert Drained(q, 3) == ([MODULE_ID, firmware, mode], [Pause] + b);
    AfterPause(MODE_ACK, 2);
  }

  /** A read that starts at a pause times out empty; the drain step then
      collects what arrived behind the pause. */
  lemma AfterPause(bs: seq<byte>, n: nat)
    requires n > 0
    ensures Drained([Pause] + Arrived(bs), n) == (bs, [])
  {
    var q := [Pause] + Arrived(bs);
    assert q[1..] == Arrived(bs);
    assert SerialRead(q, n) == ([], Arrived(bs));
    DrainLoopNoPause(Arrived(bs));
    FlatArrived(bs);
    if bs == [] {
      assert Drained(q, n) == ([], []);
    } else {
      assert Available(Arrived(bs)) > 0;
      assert Drained(q, n) == ([] + bs, []);
      AppendEmpty(bs);
    }
  }

  /** A device whose first byte is not the module id is refused after the
      version request alone. */
  lemma HandshakeRefusesOtherDevice(reply: seq<byte>)
    requires reply != [] && reply[0] != MODULE_ID
    ensures Handshake(Arrived(reply)).0 == false
    ensures Handshake(Arrived(reply)).1 == [VERSION_COMMAND]
  {
    ArrivedDrained(reply, 3);
  }

  /** The drain step swallows a mode acknowledgement that has already arrived
      when the version is read: the mode read then gets nothing, and the
      handshake fails. */
  lemma HandshakeNeedsPause(firmware: byte, mode: byte)
    ensures Handshake(Arrived([MODULE_ID, firmware, mode] + MODE_ACK)).0 == false
  {
    var bs := [MODULE_ID, firmware, mode] + MODE_ACK;
    ArrivedDrained(bs, 3);
    assert Drained(Arrived(bs), 3).0[0] == MODULE_ID;
    assert Drained([], 2).0 == [];
  }

  /** Input that has all arrived is read completely, whatever count was
      asked for. */
  lemma ArrivedDrained(bs: seq<byte>, n: nat)
    ensures Drained(Arrived(bs), n) == (bs, [])
  {
    DrainedReadsEverything(Arrived(bs), n);
    FlatArrived(bs);
  }

  /** A read of exactly the bytes that arrived before a pause stops at the
      pause, which the drain step then leaves alone. */
  lemma ReadsWhatArrived(a: seq<Input>, rest: seq<Input>, bs: seq<byte>)
    requires a == Arrived(bs) && rest != [] && rest[0].Pause?
    ensures Drained(a + rest, |bs|) == (bs, rest)
  {
    var q := a + rest;
    assert forall i :: 0 <= i < |a| ==> q[i].Byte?;
    ReadPrefix(a, rest, bs);
    assert q[|bs|..] == rest;
  }

  lemma {:induction false} ReadPrefix(a: seq<Input>, rest: seq<Input>, bs: seq<byte>)
    requires a == Arrived(bs)
    ensures SerialRead(a + rest, |bs|) == (bs, rest)
    decreases |bs|
  {
    if bs != [] {
      assert (a + rest)[1..] == a[1..] + rest;
      assert a[1..] == Arrived(bs[1..]);
      ReadPrefix(a[1..], rest, bs[1..]);
      assert [bs[0]] + bs[1..] == bs;
    } else {
      assert a + rest == rest;
    }
  }

  /** An answer longer than the count asked for is returned whole: the
      result is not cut to `length`. */
  lemma ReadNotTruncated()
    ensures Drained(Arrived([0x1A, 0x80, 0x33]), 2).0 == [0x1A, 0x80, 0x33]
  {
    ArrivedDrained([0x1A, 0x80, 0x33], 2);
  }

  /** The USB-ISS on a serial port, with the outcome of its handshake. */
  class IssDongle {
    const port: SerialPort
    var initialized: bool

    /** Opens the adapter and runs the handshake; `initialized` is false
        where the source exits. */
    constructor (p: SerialPort)
      modifies p
      ensures port == p
      ensures initialized == Handshake(old(p.incoming)).0
      ensures p.written == old(p.written) + Handshake(old(p.incoming)).1
      ensures p.incoming == Handshake(old(p.incoming)).2
    {
      port := p;
      initialized := false;
      new;
      WriteAdmin(VERSION_COMMAND);
      var rec := ReadAdmin(3);
      if rec == [] || rec[0] != MODULE_ID {
        return;
      }
      WriteAdmin(MODE_COMMAND);
      rec := ReadAdmin(2);
      initialized := rec == MODE_ACK;
    }

    /** `ISSwriteAdmin`: the command, as is. */
    method WriteAdmin(command: seq<byte>)
      modifies port
      ensures port.written == old(port.written) + [command]
      ensures port.incoming == old(port.incoming)
    {
      port.Write(command);
    }

    /** `ISSreadAdmin`: a read with the drain step. */
    method ReadAdmin(length: nat) returns (rec: seq<byte>)
      modifies port
      ensures (rec, port.incoming) == Drained(old(port.incoming), length)
      ensures port.written == old(port.written)
    {
      rec := ReadAndDrain(port, length);
    }

    /** `ISSwriteData`: the data copied byte by byte behind 0x55 and the
        write address. */
    method WriteData(addr: Addr7, data: seq<byte>)
      modifies port
      ensures port.written == old(port.written) + [WriteFrame(addr, data)]
      ensures port.incoming == old(port.incoming)
    {
      var waddr8 := AddressByte(addr, false);
      var wdata: seq<byte> := [];
      var i := 0;
      while i < |data|
        invariant 0 <= i <= |data|
        invariant wdata == data[..i]
      {
        wdata := wdata + [data[i]];
        i := i + 1;
      }
      assert data[..|data|] == data;
      port.Write([AD1, waddr8] + wdata);
    }

    /** `ISSinitializeRead`. */
    method InitializeRead(addr: Addr7, register: seq<byte>, count: byte)
      modifies port
      ensures port.written == old(port.written) + [ReadSetupFrame(addr, register, count)]
      ensures port.incoming == old(port.incoming)
    {
      var raddr8 := AddressByte(addr, true);
      var command: seq<byte>;
      if |register| <= 1 {
        command := [AD1, raddr8] + register + [count];
      } else {
        command := [AD2, raddr8] + register + [count];
      }
      port.Write(command);
    }

    /** `ISSreadData`: a read with the drain step, every byte received
        turned into a list entry, in order. */
    method ReadData(length: nat) returns (reclist: seq<int>)
      modifies port
      ensures reclist == Drained(old(port.incoming), length).0
      ensures port.incoming == Drained(old(port.incoming), length).1
      ensures port.written == old(port.written)
    {
      var rec := ReadAndDrain(port, length);
      reclist := [];
      var i := 0;
      while i < |rec|
        invariant 0 <= i <= |rec|
        invariant reclist == rec[..i]
      {
        reclist := reclist + [rec[i] as int];
        i := i + 1;
      }
      assert rec[..|rec|] == rec;
    }

    /** `askDongle`: the write frame; then, when bytes are to be read, the
        read setup with the written data as register, and the read. */
    method AskDongle(addr: Addr7, data: seq<byte>, rbytes: byte, waitMs: nat, name: seq<byte>)
      returns (answ: Option<seq<int>>)
      modifies port
      ensures port.written == old(port.written) + AskFrames(addr, data, rbytes)
      ensures rbytes == 0 ==> answ == None && port.incoming == old(port.incoming)
      ensures rbytes > 0 ==> answ == Some(Drained(old(port.incoming), rbytes).0)
      ensures rbytes > 0 ==> port.incoming == Drained(old(port.incoming), rbytes).1
    {
      WriteData(addr, data);
      if rbytes > 0 {
        InitializeRead(addr, data, rbytes);
        var r := ReadData(rbytes);
        answ := Some(r);
      } else {
        answ := None;
        AppendEmpty(old(port.written) + [WriteFrame(addr, data)]);
      }
    }
  }
}
