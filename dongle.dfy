/** The transaction every adapter offers: send `data` to a 7-bit slave
    address, then read back `rbytes` bytes (`askDongle`).  Sensor drivers see
    only this operation; `Bus` stands for whichever adapter they hold. */
module Dongle {
  import opened Bytes

  /** A 7-bit I2C slave address.  Address 0 is the marker of the Sensirion
      (non-addressed) protocol. */
  type Addr7 = a: int | 0 <= a < 128

  /** The address byte of 7-bit addressing (section 3.1.10 of the I2C-bus
      specification, NXP UM10204): the address in bits 7..1, the R/W bit in
      bit 0, 1 meaning read. */
  function AddressByte(addr: Addr7, read: bool): (b: byte)
    ensures b / 2 == addr
    ensures b % 2 == 1 <==> read
  {
    2 * addr + if read then 1 else 0
  }

  /** The arguments of one `askDongle` call that reach the wire: the address,
      the bytes to write, the number of bytes to read back, the wait before
      the read phase and the sensor name (which the IO-Warrior adapter
      inspects). */
  datatype Transaction = Transaction(addr: Addr7, data: seq<byte>, rbytes: byte, waitMs: nat, name: string)

  /** A transaction that writes `data`, reads one byte back and does not
      wait: every HT16K33 transaction and the TSL2591 writes. */
  function Cmd(addr: Addr7, name: string, data: seq<byte>): (t: Transaction)
    ensures t.data == data && t.rbytes == 1 && t.waitMs == 0
  {
    Transaction(addr, data, 1, 0, name)
  }

  /** What a driver call ends in: its value, or an exception (an unknown
      command name, a value that does not fit, or a reply too short for the
      decoder to index). */
  datatype Outcome<T> = Done(value: T) | Raised

  /** The answer a bus gives to a transaction that reads `rbytes` bytes, and
      the answers it still holds: none when nothing is to be read, otherwise
      the next scripted answer, or no bytes once the script is used up. */
  function Answer(replies: seq<seq<byte>>, rbytes: byte): (r: (Option<seq<byte>>, seq<seq<byte>>))
    ensures r.0.None? <==> rbytes == 0
    ensures rbytes > 0 && replies != [] ==> replies == [r.0.value] + r.1
  {
    if rbytes == 0 then (None, replies)
    else if replies == [] then (Some([]), [])
    else (Some(replies[0]), replies[1..])
  }

  /** The replies left after n one-byte reads. */
  function Dropped(replies: seq<seq<byte>>, n: nat): (r: seq<seq<byte>>)
    ensures |r| == if n <= |replies| then |replies| - n else 0
  {
    if n <= |replies| then replies[n..] else []
  }

  lemma DroppedAdd(replies: seq<seq<byte>>, a: nat, b: nat)
    ensures Dropped(Dropped(replies, a), b) == Dropped(replies, a + b)
  {
  }

  lemma DroppedStep(replies: seq<seq<byte>>, n: nat)
    ensures Dropped(replies, n + 1) == Answer(Dropped(replies, n), 1).1
  {
  }

  /** A stand-in for the adapter a sensor driver holds: the transactions it
      was asked to run, in order, and the answers it will give to those that
      read. */
  class Bus {
    var issued: seq<Transaction>
    var replies: seq<seq<byte>>

    constructor (script: seq<seq<byte>>)
      ensures issued == [] && replies == script
    {
      issued := [];
      replies := script;
    }

    /** `askDongle`. */
    method Ask(tx: Transaction) returns (answ: Option<seq<byte>>)
      modifies this
      ensures issued == old(issued) + [tx]
      ensures (answ, replies) == Answer(old(replies), tx.rbytes)
    {
      issued := issued + [tx];
      if tx.rbytes == 0 {
        answ := None;
      } else if replies == [] {
        answ := Some([]);
      } else {
        answ := Some(replies[0]);
        replies := replies[1..];
      }
    }
  }
}
