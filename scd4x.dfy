/** The Sensirion SCD40/SCD41 CO2 sensor driver
    (src/i2cusbdongles/sensors/SCD4x.py): the CRC-8 of Sensirion's 16-bit
    words, the command table, the frames built from it, and the decoding of
    the sensor's replies.  Every reply word is two bytes, big-endian,
    followed by its CRC. */
module SCD4x {
  import opened Bytes
  import opened Dongle

  /** One step of the bitwise CRC: shift left by one, dropping the carried
      out bit, and, when that bit was set, XOR in the polynomial 0x31
      (x^8 + x^5 + x^4 + 1). */
  function CrcBit(c: byte): byte
  {
    if Bit7(c) then XorByte(Shl1(c), 0x31) else Shl1(c)
  }

  /** `^` of two bytes, which is again a byte. */
  function XorByte(a: byte, b: byte): (r: byte)
    ensures r == Xor(a, b)
  {
    Pow2Values();
    OrXorBound(a, b, 8);
    Xor(a, b)
  }

  /** `k` steps of the bitwise CRC. */
  function CrcBits(c: byte, k: nat): byte
  {
    if k == 0 then c else CrcBit(CrcBits(c, k - 1))
  }

  /** One byte through the CRC: XOR it in, then eight bit steps. */
  function CrcByte(crc: byte, b: byte): byte
  {
    CrcBits(XorByte(crc, b), 8)
  }

  /** `__CRC__`: CRC-8 with polynomial 0x31, initial value 0xFF and no final
      XOR, over the bytes in order. */
  function Crc(data: seq<byte>): byte
  {
    if data == [] then 0xFF else CrcByte(Crc(data[..|data| - 1]), data[|data| - 1])
  }

  /** Appending a byte runs one more byte through the CRC. */
  lemma CrcAppend(data: seq<byte>, b: byte)
    ensures Crc(data + [b]) == CrcByte(Crc(data), b)
  {
    assert (data + [b])[..|data|] == data;
  }

  lemma {:induction false} CrcBitsZero(k: nat)
    ensures CrcBits(0, k) == 0
  {
    if k > 0 {
      CrcBitsZero(k - 1);
      Bit7IsHighHalf(0);
    }
  }

  /** Appending the checksum leaves a zero residue: the check a receiver
      makes over a word and its CRC. */
  lemma CrcResidue(data: seq<byte>)
    ensures Crc(data + [Crc(data)]) == 0
  {
    CrcAppend(data, Crc(data));
    XorSelf(Crc(data));
    CrcBitsZero(8);
  }

  /** No data: the initial value. */
  lemma CrcEmpty()
    ensures Crc([]) == 0xFF
  {
  }

  /** The check value of the Sensirion data sheets: 0xBEEF gives 0x92. */
  lemma CrcBeef()
    ensures Crc([0xBE, 0xEF]) == 0x92
  {
    TwoBytes(0xBE, 0xEF);
    TraceFFBE();
    Trace0CEF();
    CrcByteTrace(0xFF, 0xBE, 0x41, 0x82, 0x35, 0x6A, 0xD4, 0x99, 0x03, 0x06, 0x0C);
    CrcByteTrace(0x0C, 0xEF, 0xE3, 0xF7, 0xDF, 0x8F, 0x2F, 0x5E, 0xBC, 0x49, 0x92);
  }

  /** The CRC of the status word 0x0000 is 0x81, that of 0x8000 is 0xA2. */
  lemma CrcStatusWords()
    ensures Crc([0x00, 0x00]) == 0x81
    ensures Crc([0x80, 0x00]) == 0xA2
  {
    TraceFF00();
    TraceAC00();
    TraceFF80();
    TraceD600();
    TwoBytes(0x00, 0x00);
    CrcByteTrace(0xFF, 0x00, 0xFF, 0xCF, 0xAF, 0x6F, 0xDE, 0x8D, 0x2B, 0x56, 0xAC);
    CrcByteTrace(0xAC, 0x00, 0xAC, 0x69, 0xD2, 0x95, 0x1B, 0x36, 0x6C, 0xD8, 0x81);
    TwoBytes(0x80, 0x00);
    CrcByteTrace(0xFF, 0x80, 0x7F, 0xFE, 0xCD, 0xAB, 0x67, 0xCE, 0xAD, 0x6B, 0xD6);
    CrcByteTrace(0xD6, 0x00, 0xD6, 0x9D, 0x0B, 0x16, 0x2C, 0x58, 0xB0, 0x51, 0xA2);
  }

  /** The bit-by-bit traces of the byte steps above, in plain arithmetic. */
  lemma TraceFFBE()
    ensures Traced(0xFF, 0xBE, 0x41, 0x82, 0x35, 0x6A, 0xD4, 0x99, 0x03, 0x06, 0x0C)
  {
  }

  lemma Trace0CEF()
    ensures Traced(0x0C, 0xEF, 0xE3, 0xF7, 0xDF, 0x8F, 0x2F, 0x5E, 0xBC, 0x49, 0x92)
  {
  }

  lemma TraceFF00()
    ensures Traced(0xFF, 0x00, 0xFF, 0xCF, 0xAF, 0x6F, 0xDE, 0x8D, 0x2B, 0x56, 0xAC)
  {
  }

  lemma TraceAC00()
    ensures Traced(0xAC, 0x00, 0xAC, 0x69, 0xD2, 0x95, 0x1B, 0x36, 0x6C, 0xD8, 0x81)
  {
  }

  lemma TraceFF80()
    ensures Traced(0xFF, 0x80, 0x7F, 0xFE, 0xCD, 0xAB, 0x67, 0xCE, 0xAD, 0x6B, 0xD6)
  {
  }

  lemma TraceD600()
    ensures Traced(0xD6, 0x00, 0xD6, 0x9D, 0x0B, 0x16, 0x2C, 0x58, 0xB0, 0x51, 0xA2)
  {
  }

  lemma TwoBytes(a: byte, b: byte)
    ensures Crc([a, b]) == CrcByte(CrcByte(0xFF, a), b)
  {
    assert [a] == [] + [a];
    CrcAppend([], a);
    assert [a, b] == [a] + [b];
    CrcAppend([a], b);
  }

  /** A bit step in plain arithmetic: double, and when bit 7 was set drop
      it and XOR in the polynomial. */
  function CrcBitValue(c: byte): int
  {
    if c < 0x80 then 2 * c else FlipPoly(2 * c - 0x100)
  }

  /** An even byte with bits 0, 4 and 5 flipped: the set bits of 0x31. */
  function FlipPoly(s: int): int
  {
    s + 1 + (if (s / 16) % 2 == 0 then 16 else -16) + (if (s / 32) % 2 == 0 then 32 else -32)
  }

  lemma CrcBitArith(c: byte)
    ensures CrcBit(c) == CrcBitValue(c)
  {
    Bit7IsHighHalf(c);
    var sh := Shl1(c);
    if c >= 0x80 {
      DivModUnique(2 * c, 0x100, 1, 2 * c - 0x100);
      XorPoly(sh);
    } else {
      DivModUnique(2 * c, 0x100, 0, 2 * c);
    }
  }

  /** XOR with the polynomial 0x31 on an even byte. */
  lemma XorPoly(s: byte)
    requires s % 2 == 0
    ensures Xor(s, 0x31) == FlipPoly(s)
  {
    XorByteBits(s, 0x31);
    BitsOfByte(s);
    PolyBits(s);
  }

  /** Bit by bit, XOR with 0x31 sets bit 0 of an even byte and flips bits
      4 and 5. */
  lemma PolyBits(s: byte)
    requires s % 2 == 0
    ensures XorBits8(s, 0x31) == XorBits8(s, 0) + 1
      + (if (s / 16) % 2 == 0 then 16 else -16) + (if (s / 32) % 2 == 0 then 32 else -32)
  {
    assert XorBit(s, 0x31, 1) == 1 + XorBit(s, 0, 1);
    assert XorBit(s, 0x31, 2) == XorBit(s, 0, 2) && XorBit(s, 0x31, 4) == XorBit(s, 0, 4);
    assert XorBit(s, 0x31, 8) == XorBit(s, 0, 8) && XorBit(s, 0x31, 64) == XorBit(s, 0, 64);
    assert XorBit(s, 0x31, 128) == XorBit(s, 0, 128);
    assert XorBit(s, 0x31, 16) == (if (s / 16) % 2 == 0 then 16 else 0);
    assert XorBit(s, 0, 16) == (if (s / 16) % 2 == 0 then 0 else 16);
    assert XorBit(s, 0x31, 32) == (if (s / 32) % 2 == 0 then 32 else 0);
    assert XorBit(s, 0, 32) == (if (s / 32) % 2 == 0 then 0 else 32);
  }

  /** A byte is the sum of the weights of its set bits. */
  lemma BitsOfByte(s: byte)
    ensures XorBits8(s, 0) == s
  {
    XorByteBits(s, 0);
    assert Xor(s, 0) == s;
  }

  /** `t0` is `crc ^ b` (which is `crc` when `b` is 0) and each of `t1` to
      `t8` is one bit step on the one before, all in plain arithmetic. */
  predicate Traced(crc: byte, b: byte, t0: byte, t1: byte, t2: byte, t3: byte, t4: byte,
                   t5: byte, t6: byte, t7: byte, t8: byte)
  {
    && t0 == (if b == 0 then crc else XorBits8(crc, b))
    && t1 == CrcBitValue(t0) && t2 == CrcBitValue(t1) && t3 == CrcBitValue(t2)
    && t4 == CrcBitValue(t3) && t5 == CrcBitValue(t4) && t6 == CrcBitValue(t5)
    && t7 == CrcBitValue(t6) && t8 == CrcBitValue(t7)
  }

  /** One byte through the CRC, given the value after the XOR and after
      each of the eight bit steps; every step is checked in plain
      arithmetic. */
  lemma CrcByteTrace(crc: byte, b: byte, t0: byte, t1: byte, t2: byte, t3: byte, t4: byte,
                     t5: byte, t6: byte, t7: byte, t8: byte)
    requires Traced(crc, b, t0, t1, t2, t3, t4, t5, t6, t7, t8)
    ensures CrcByte(crc, b) == t8
  {
    XorByteBits(crc, b);
    CrcBitArith(t0);
    CrcBitArith(t1);
    CrcBitArith(t2);
    CrcBitArith(t3);
    CrcBitArith(t4);
    CrcBitArith(t5);
    CrcBitArith(t6);
    CrcBitArith(t7);
    assert CrcBits(t0, 1) == t1;
    assert CrcBits(t0, 2) == t2;
    assert CrcBits(t0, 3) == t3;
    assert CrcBits(t0, 4) == t4;
    assert CrcBits(t0, 5) == t5;
    assert CrcBits(t0, 6) == t6;
    assert CrcBits(t0, 7) == t7;
  }

  /** The kinds of command in the table: `send` writes the code alone,
      `read` writes the code and reads, `write` and `send_fetch` carry a
      value (`send_fetch` also reads). */
  datatype Kind = Send | Read | Write | SendFetch

  /** A 16-bit command code. */
  type Code = c: int | 0 <= c < 0x1_0000

  /** A row of the command table. */
  datatype Command = Command(code: Code, kind: Kind, rbytes: byte, waitMs: nat, duringMeas: bool)

  /** `SensorSCD4x.commands`. */
  const COMMANDS: map<string, Command> := map[
    "start_periodic_measurement" := Command(0x21B1, Send, 0, 0, false),
    "read_measurement" := Command(0xEC05, Read, 9, 1, true),
    "stop_periodic_measurement" := Command(0x3F86, Send, 0, 500, true),
    "set_temperature_offset" := Command(0x241D, Write, 0, 1, false),
    "get_temperature_offset" := Command(0x2318, Read, 3, 1, false),
    "set_sensor_altitude" := Command(0x2427, Write, 0, 1, false),
    "get_sensor_altitude" := Command(0x2322, Read, 3, 1, false),
    "set_ambient_pressure" := Command(0xE000, Write, 0, 1, true),
    "perform_forced_recalibration" := Command(0x362F, SendFetch, 3, 400, false),
    "set_automatic_self_calibration_enabled" := Command(0x2416, Write, 0, 1, false),
    "get_automatic_self_calibration_enabled" := Command(0x2313, Read, 3, 1, false),
    "start_low_power_periodic_measurement" := Command(0x21AC, Send, 0, 0, false),
    "get_data_ready_status" := Command(0xE4B8, Read, 3, 1, true),
    "persist_settings" := Command(0x3615, Send, 0, 800, false),
    "get_serial_number" := Command(0x3682, Read, 9, 1, false),
    "perform_self_test" := Command(0x3639, Read, 3, 10000, false),
    "perform_factory_reset" := Command(0x3632, Send, 0, 1200, false),
    "reinit" := Command(0x3646, Send, 0, 20, false),
    "measure_single_shot" := Command(0x219D, Send, 0, 5000, false),
    "measure_single_shot_rht_only" := Command(0x2196, Send, 0, 50, false)
  ]

  /** Whether a command of this kind carries a value or a checksum. */
  predicate CarriesValue(k: Kind)
  {
    k == Write || k == SendFetch
  }

  /** The bytes `__I2Ccommand__` sends: the code, big-endian; for `write`
      and `send_fetch`, followed by the value and its CRC, or, without a
      value, by the CRC of the code.  None when the value does not fit in
      two bytes (`to_bytes` raises). */
  function Frame(cmd: Command, setValue: Option<int>): Option<seq<byte>>
  {
    var code := ToBE16(cmd.code);
    if !CarriesValue(cmd.kind) then Some(code)
    else if setValue.None? then Some(code + [Crc(code)])
    else if 0 <= setValue.value < 0x1_0000 then
      var v := ToBE16(setValue.value);
      Some(code + v + [Crc(v)])
    else None
  }

  /** Every frame starts with the code; its length is 2 for `send` and
      `read`, 3 for a bare `write`, 5 with a value; only a value outside
      0..65535 is refused. */
  lemma FrameShape(cmd: Command, setValue: Option<int>)
    ensures var f := Frame(cmd, setValue);
      (f.None? <==> CarriesValue(cmd.kind) && setValue.Some? && !(0 <= setValue.value < 0x1_0000))
      && (f.Some? ==>
        |f.value| >= 2 && BE16(f.value[0], f.value[1]) == cmd.code
        && |f.value| == (if !CarriesValue(cmd.kind) then 2 else if setValue.None? then 3 else 5))
  {
  }

  /** The sensor's check accepts every frame with a checksum: the value and
      its CRC, or the bare code and its CRC, leave a zero residue; the value
      is the big-endian number sent. */
  lemma FrameChecks(cmd: Command, setValue: Option<int>)
    requires CarriesValue(cmd.kind) && Frame(cmd, setValue).Some?
    ensures var f := Frame(cmd, setValue).value;
      (setValue.None? ==> Crc(f) == 0)
      && (setValue.Some? ==> Crc(f[2..]) == 0 && BE16(f[2], f[3]) == setValue.value)
  {
    var code := ToBE16(cmd.code);
    var f := Frame(cmd, setValue).value;
    if setValue.None? {
      CrcResidue(code);
    } else {
      var v := ToBE16(setValue.value);
      assert f[2..] == v + [Crc(v)];
      CrcResidue(v);
    }
  }

  /** The table: every command that reads (`read`, `send_fetch`) reads whole
      words of two bytes and a CRC, and only those read. */
  lemma TableReadsWords(name: string)
    requires name in COMMANDS
    ensures var c := COMMANDS[name];
      (c.rbytes > 0 <==> c.kind == Read || c.kind == SendFetch) && c.rbytes % 3 == 0
  {
  }

  /** The measurement read: code 0xEC05, nine bytes (three words), one
      millisecond of wait, allowed during periodic measurement. */
  lemma ReadMeasurementRow()
    ensures "read_measurement" in COMMANDS
    ensures COMMANDS["read_measurement"] == Command(0xEC05, Read, 9, 1, true)
    ensures Frame(COMMANDS["read_measurement"], None) == Some([0xEC, 0x05])
  {
  }

  lemma DataReadyRow()
    ensures "get_data_ready_status" in COMMANDS
    ensures COMMANDS["get_data_ready_status"] == Command(0xE4B8, Read, 3, 1, true)
  {
  }

  lemma StartStopRows()
    ensures "start_periodic_measurement" in COMMANDS && "stop_periodic_measurement" in COMMANDS
    ensures COMMANDS["start_periodic_measurement"] == Command(0x21B1, Send, 0, 0, false)
    ensures COMMANDS["stop_periodic_measurement"] == Command(0x3F86, Send, 0, 500, true)
  {
  }

  lemma SelfTestRow()
    ensures "perform_self_test" in COMMANDS
    ensures COMMANDS["perform_self_test"] == Command(0x3639, Read, 3, 10000, false)
  {
  }

  /** A reply word as the sensor sends it: big-endian, then its CRC. */
  function Word(v: int): (w: seq<byte>)
    requires 0 <= v < 0x1_0000
    ensures |w| == 3 && BE16(w[0], w[1]) == v && Crc(w) == 0
  {
    var b := ToBE16(v);
    CrcResidue(b);
    b + [Crc(b)]
  }

  /** The three raw words of a measurement: CO2 in ppm, and the temperature
      and humidity ticks the source scales by 175/2^16 and 100/2^16. */
  datatype Reading = Reading(co2: int, tRaw: int, rhRaw: int)

  /** `SCD4xgetAll`'s decoding: the words at bytes 0, 3 and 6, CRCs not
      checked; a reply shorter than nine bytes fails on its index. */
  function Measurement(answ: seq<byte>): Option<Reading>
  {
    if |answ| < 9 then None
    else Some(Reading(BE16(answ[0], answ[1]), BE16(answ[3], answ[4]), BE16(answ[6], answ[7])))
  }

  /** Decoding the sensor's nine-byte reply gives back its three words. */
  lemma MeasurementRoundTrip(co2: int, t: int, rh: int)
    requires 0 <= co2 < 0x1_0000 && 0 <= t < 0x1_0000 && 0 <= rh < 0x1_0000
    ensures Measurement(Word(co2) + Word(t) + Word(rh)) == Some(Reading(co2, t, rh))
  {
    var a := Word(co2) + Word(t) + Word(rh);
    assert a[0..3] == Word(co2) && a[3..6] == Word(t) && a[6..9] == Word(rh);
  }

  /** `SCD4xGetDataReady` as written: not ready exactly when
      `answ[0] + answ[1] + (answ[2] & 7)` is 0, which adds the whole high
      byte and masks the CRC byte; a reply shorter than three bytes fails
      on its index. */
  function DataReadyAsWritten(answ: seq<byte>): Option<bool>
  {
    if |answ| < 3 then None else Some(answ[0] + answ[1] + And(answ[2], 0x07) != 0)
  }

  /** The test as the comment beside it and the data sheet state it: ready
      exactly when the low eleven bits of the status word are not all 0. */
  function DataReadyIntended(answ: seq<byte>): Option<bool>
  {
    if |answ| < 3 then None else Some(BE16(answ[0], answ[1]) % 0x800 != 0)
  }

  /** As written, a reply is "not ready" only when both status bytes are 0
      and the CRC byte is a multiple of 8. */
  lemma DataReadyAsWrittenMeans(answ: seq<byte>)
    requires |answ| >= 3
    ensures DataReadyAsWritten(answ) == Some(!(answ[0] == 0 && answ[1] == 0 && answ[2] % 8 == 0))
  {
    Pow2Values();
    AndLowBits(answ[2], 3);
    assert Pow2(3) == 8;
  }

  /** The intended test reads the status word alone: the CRC byte and the
      top five bits do not matter, and a well-formed word is ready exactly
      when its low eleven bits are not 0. */
  lemma DataReadyIntendedMeans(status: int, crc: byte, rest: seq<byte>)
    requires 0 <= status < 0x1_0000
    ensures DataReadyIntended(ToBE16(status) + [crc] + rest) == Some(status % 0x800 != 0)
  {
    var a := ToBE16(status) + [crc] + rest;
    assert a[0] == ToBE16(status)[0] && a[1] == ToBE16(status)[1];
  }

  /** The sensor's replies for the status words 0x0000 and 0x8000. */
  lemma StatusWords()
    ensures Word(0x0000) == [0x00, 0x00, 0x81]
    ensures Word(0x8000) == [0x80, 0x00, 0xA2]
  {
    CrcStatusWords();
    WordOf(0x0000, 0x00, 0x00, 0x81);
    WordOf(0x8000, 0x80, 0x00, 0xA2);
  }

  lemma WordOf(v: int, hi: byte, lo: byte, c: byte)
    requires 0 <= v < 0x1_0000 && v == hi * 256 + lo && Crc([hi, lo]) == c
    ensures Word(v) == [hi, lo, c]
  {
    DivModUnique(v, 256, hi, lo);
    assert ToBE16(v) == [hi, lo];
  }

  /** The sensor's own "not ready" answer, status 0x0000 with its CRC
      (`StatusWords`), is read as ready by the test as written. */
  lemma DataReadyDiffersOnZero(answ: seq<byte>)
    requires answ == [0x00, 0x00, 0x81]
    ensures DataReadyAsWritten(answ) == Some(true)
    ensures DataReadyIntended(answ) == Some(false)
  {
    DataReadyAsWrittenMeans(answ);
  }

  /** So is status 0x8000, whose low eleven bits are 0 too: the top bit
      counts as written. */
  lemma DataReadyDiffersOnTopBit(answ: seq<byte>)
    requires answ == [0x80, 0x00, 0xA2]
    ensures DataReadyAsWritten(answ) == Some(true)
    ensures DataReadyIntended(answ) == Some(false)
  {
    DataReadyAsWrittenMeans(answ);
  }

  /** The outcome of the self test: a CRC that does not match, a passed
      test (word 0), or a malfunction. */
  datatype SelfTest = SelfTestCrcFailed | SensorOk | Malfunction

  /** `SCD4XPerformSelfTest`'s check. */
  function SelfTestResult(answ: seq<byte>): Option<SelfTest>
  {
    if |answ| < 3 then None
    else if answ[2] != Crc(answ[..2]) then Some(SelfTestCrcFailed)
    else if BE16(answ[0], answ[1]) == 0 then Some(SensorOk)
    else Some(Malfunction)
  }

  /** A well-formed answer passes exactly when its word is 0; any other
      CRC byte is reported as a CRC failure. */
  lemma SelfTestReads(w: int, crc: byte)
    requires 0 <= w < 0x1_0000
    ensures SelfTestResult(Word(w)) == Some(if w == 0 then SensorOk else Malfunction)
    ensures crc != Crc(ToBE16(w)) ==> SelfTestResult(ToBE16(w) + [crc]) == Some(SelfTestCrcFailed)
  {
    assert Word(w)[..2] == ToBE16(w);
    assert (ToBE16(w) + [crc])[..2] == ToBE16(w);
  }

  /** The outcome of a forced recalibration, in the order the source checks
      it: the value 0xFF means failure, then the CRC is checked, and only
      then is the offset `FRC - 0x8000` formed. */
  datatype Recalibration = CalibrationFailed | CalibrationCrcFailed(raw: int) | CalibrationOffset(offset: int)

  function RecalibrationResult(answ: seq<byte>): Option<Recalibration>
  {
    if |answ| < 3 then None
    else
      var frc := BE16(answ[0], answ[1]);
      if frc == 0xFF then Some(CalibrationFailed)
      else if answ[2] != Crc(answ[..2]) then Some(CalibrationCrcFailed(frc))
      else Some(CalibrationOffset(frc - 0x8000))
  }

  /** What `SCD4xPerformForcedRecalibration` returns: the 0xFF marker, the
      raw word after a CRC failure, or the offset. */
  function RecalibrationValue(r: Recalibration): int
  {
    match r
    case CalibrationFailed => 0xFF
    case CalibrationCrcFailed(raw) => raw
    case CalibrationOffset(offset) => offset
  }

  /** A well-formed answer other than 0xFF yields its offset from 0x8000;
      the 0xFF marker is a failure whatever its CRC byte. */
  lemma RecalibrationReads(w: int, crc: byte)
    requires 0 <= w < 0x1_0000
    ensures w != 0xFF ==> RecalibrationResult(Word(w)) == Some(CalibrationOffset(w - 0x8000))
    ensures w == 0xFF ==> RecalibrationResult(ToBE16(w) + [crc]) == Some(CalibrationFailed)
  {
    assert Word(w)[..2] == ToBE16(w);
  }

  /** Every offset reported lies in -32768..32767. */
  lemma RecalibrationOffsetRange(answ: seq<byte>)
    requires RecalibrationResult(answ).Some? && RecalibrationResult(answ).value.CalibrationOffset?
    ensures -0x8000 <= RecalibrationResult(answ).value.offset < 0x8000
  {
  }

  /** The SCD4x on a bus, with the time of the last measurement. */
  class Scd4x {
    const bus: Bus
    const addr: Addr7
    const name: string
    var lastTime: Option<int>

    constructor (b: Bus, a: Addr7, n: string)
      ensures bus == b && addr == a && name == n && lastTime == None
    {
      bus := b;
      addr := a;
      name := n;
      lastTime := None;
    }

    /** `__CRC__`, byte by byte and bit by bit. */
    static method ComputeCrc(data: seq<byte>) returns (crc: byte)
      ensures crc == Crc(data)
    {
      crc := 0xFF;
      var i := 0;
      while i < |data|
        invariant 0 <= i <= |data|
        invariant crc == Crc(data[..i])
      {
        assert data[..i + 1][..i] == data[..i];
        crc := XorByte(crc, data[i]);
        crc := ShiftOut(crc);
        i := i + 1;
      }
      assert data[..|data|] == data;
    }

    /** The inner loop of `__CRC__`: eight shifts, the polynomial XORed in
        after each one that carries out a set bit. */
    static method ShiftOut(start: byte) returns (crc: byte)
      ensures crc == CrcBits(start, 8)
    {
      crc := start;
      var bit := 8;
      while bit > 0
        invariant 0 <= bit <= 8
        invariant crc == CrcBits(start, 8 - bit)
      {
        crc := ShiftOnce(crc);
        bit := bit - 1;
      }
    }

    /** One pass of the inner loop: `crc & 0x80` decides whether the
        polynomial is XORed into the shifted value. */
    static method ShiftOnce(c: byte) returns (r: byte)
      ensures r == CrcBit(c)
    {
      if Bit7(c) {
        r := XorByte(Shl1(c), 0x31);
      } else {
        r := Shl1(c);
      }
    }

    /** `__I2Ccommand__`: look the command up, build its frame, run the
        transaction with the table's read count and wait. */
    method I2CCommand(commandName: string, setValue: Option<int>) returns (r: Outcome<Option<seq<byte>>>)
      modifies bus
      ensures commandName !in COMMANDS || Frame(COMMANDS[commandName], setValue).None? ==>
        r == Raised && unchanged(bus)
      ensures commandName in COMMANDS && Frame(COMMANDS[commandName], setValue).Some? ==>
        var c := COMMANDS[commandName];
        bus.issued == old(bus.issued) + [Transaction(addr, Frame(c, setValue).value, c.rbytes, c.waitMs, name)]
        && r.Done? && (r.value, bus.replies) == Answer(old(bus.replies), c.rbytes)
    {
      if commandName !in COMMANDS {
        return Raised;
      }
      var command := COMMANDS[commandName];
      var data := ToBE16(command.code);
      if command.kind == Write || command.kind == SendFetch {
        if setValue.Some? {
          if !(0 <= setValue.value < 0x1_0000) {
            return Raised;
          }
          var setBytes := ToBE16(setValue.value);
          data := data + setBytes;
          var c := ComputeCrc(setBytes);
          data := data + [c];
        } else {
          var c := ComputeCrc(data);
          data := data + [c];
        }
      }
      var answ := bus.Ask(Transaction(addr, data, command.rbytes, command.waitMs, name));
      r := Done(answ);
    }

    /** A command without a value whose table row is known: the transaction
        it runs and the answer it gets. */
    method Run(commandName: string, c: Command) returns (answ: Option<seq<byte>>)
      requires commandName in COMMANDS && COMMANDS[commandName] == c && !CarriesValue(c.kind)
      modifies bus
      ensures bus.issued == old(bus.issued) + [Transaction(addr, ToBE16(c.code), c.rbytes, c.waitMs, name)]
      ensures (answ, bus.replies) == Answer(old(bus.replies), c.rbytes)
    {
      var r := I2CCommand(commandName, None);
      answ := r.value;
    }

    /** `SCD4xgetAll`: the measurement read, then its words; the time of
        the measurement is kept even when the reply is too short. */
    method GetAll(now: int) returns (r: Outcome<Reading>)
      modifies this, bus
      ensures bus.issued == old(bus.issued) + [Transaction(addr, [0xEC, 0x05], 9, 1, name)]
      ensures bus.replies == Answer(old(bus.replies), 9).1
      ensures lastTime == Some(now)
      ensures var m := Measurement(Answer(old(bus.replies), 9).0.value);
        (r.Done? <==> m.Some?) && (r.Done? ==> r.value == m.value)
    {
      ReadMeasurementRow();
      var answ := Run("read_measurement", Command(0xEC05, Read, 9, 1, true));
      lastTime := Some(now);
      var a := answ.value;
      if |a| < 9 {
        return Raised;
      }
      r := Done(Reading(BE16(a[0], a[1]), BE16(a[3], a[4]), BE16(a[6], a[7])));
    }

    /** `SCD4xGetDataReady`, with the test its comment states: ready exactly
        when the low eleven bits of the status word are not 0. The test as
        written is `DataReadyAsWritten`. */
    method GetDataReady() returns (r: Outcome<bool>)
      modifies bus
      ensures bus.issued == old(bus.issued) + [Transaction(addr, [0xE4, 0xB8], 3, 1, name)]
      ensures bus.replies == Answer(old(bus.replies), 3).1
      ensures var d := DataReadyIntended(Answer(old(bus.replies), 3).0.value);
        (r.Done? <==> d.Some?) && (r.Done? ==> r.value == d.value)
    {
      DataReadyRow();
      var answ := Run("get_data_ready_status", Command(0xE4B8, Read, 3, 1, true));
      var a := answ.value;
      if |a| < 3 {
        return Raised;
      }
      r := Done(BE16(a[0], a[1]) % 0x800 != 0);
    }

    /** `SCD4xStartMeas`: start periodic measurement and note the time. */
    method StartMeas(now: int)
      modifies this, bus
      ensures bus.issued == old(bus.issued) + [Transaction(addr, [0x21, 0xB1], 0, 0, name)]
      ensures bus.replies == old(bus.replies)
      ensures lastTime == Some(now)
    {
      StartStopRows();
      var _ := Run("start_periodic_measurement", Command(0x21B1, Send, 0, 0, false));
      lastTime := Some(now);
    }

    /** `SCD4xStopMeas`: back to idle, after 500 ms. */
    method StopMeas()
      modifies bus
      ensures bus.issued == old(bus.issued) + [Transaction(addr, [0x3F, 0x86], 0, 500, name)]
      ensures bus.replies == old(bus.replies)
    {
      StartStopRows();
      var _ := Run("stop_periodic_measurement", Command(0x3F86, Send, 0, 500, true));
    }

    /** `SCD4XPerformSelfTest`: the self test, then the check of its word,
        CRC first. */
    method PerformSelfTest() returns (r: Outcome<SelfTest>)
      modifies bus
      ensures bus.issued == old(bus.issued) + [Transaction(addr, [0x36, 0x39], 3, 10000, name)]
      ensures bus.replies == Answer(old(bus.replies), 3).1
      ensures var t := SelfTestResult(Answer(old(bus.replies), 3).0.value);
        (r.Done? <==> t.Some?) && (r.Done? ==> r.value == t.value)
    {
      SelfTestRow();
      var answ := Run("perform_self_test", Command(0x3639, Read, 3, 10000, false));
      var a := answ.value;
      if |a| < 3 {
        return Raised;
      }
      var checkBytes := [a[0], a[1]];
      var crc := ComputeCrc(checkBytes);
      assert a[..2] == checkBytes;
      if a[2] != crc {
        r := Done(SelfTestCrcFailed);
      } else if BE16(a[0], a[1]) == 0 {
        r := Done(SensorOk);
      } else {
        r := Done(Malfunction);
      }
    }
  }
}
