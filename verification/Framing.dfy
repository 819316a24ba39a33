/** Packets with a 2-byte length, as an Erlang port exchanges them. The clock port (clock.c) reads
    6-byte requests and writes framed replies; the other port (hello.c) takes frames apart byte by
    byte. */
module Packets {
  type Byte = b: int | 0 <= b < 256

  /** The frame of a payload, its length in two bytes. */
  function Frame(payload: seq<Byte>): (frame: seq<Byte>)
    requires |payload| < 0x10000
    ensures |frame| == |payload| + 2
  {
    [|payload| / 256, |payload| % 256] + payload
  }

  function Frames(payloads: seq<seq<Byte>>): seq<Byte>
    requires forall i :: 0 <= i < |payloads| ==> |payloads[i]| < 0x10000
  {
    if payloads == [] then [] else Frame(payloads[0]) + Frames(payloads[1..])
  }

  lemma {:induction false} FramesAppend(payloads: seq<seq<Byte>>, payload: seq<Byte>)
    requires forall i :: 0 <= i < |payloads| ==> |payloads[i]| < 0x10000
    requires |payload| < 0x10000
    ensures Frames(payloads + [payload]) == Frames(payloads) + Frame(payload)
  {
    if payloads == [] {
      assert Frames([]) == [] && ([payload])[1..] == [];
      assert [] + [payload] == [payload];
    } else {
      FramesAppend(payloads[1..], payload);
      assert (payloads + [payload])[1..] == payloads[1..] + [payload];
    }
  }
}

module PacketDecoder {
  import opened Packets

  /** The payload bytes that `term_buf` has room for after the length. */
  const ROOM := 0xFFFD

  /** `Body(n, got)`: n payload bytes announced, `got` read so far. `Overrun`: a payload byte has
      been written past the end of the buffer, after which nothing is known. */
  datatype Phase = Start | High(high: Byte) | Body(size: nat, got: seq<Byte>) | Overrun
  datatype Decoder = Decoder(phase: Phase, packets: seq<seq<Byte>>)

  /** A byte as the signed `char` it is stored in. */
  type Char = c: int | -128 <= c < 128
  function ToChar(b: Byte): Char { if b < 128 then b else b - 256 }
  function ToByte(c: Char): (b: Byte)
    ensures ToChar(b) == c
  {
    if c < 0 then c + 256 else c
  }

  /** The low k bits of a | b, for integers in two's complement. */
  function Or(a: int, b: int, k: nat): nat
    decreases k
  {
    if k == 0 then 0 else (if a % 2 == 1 || b % 2 == 1 then 1 else 0) + 2 * Or(a / 2, b / 2, k - 1)
  }

  /** `0xFFFF & (high << 8 | low)`, on signed characters. */
  function Announced(high: Byte, low: Byte): nat {
    Or(ToChar(high) * 256, ToChar(low), 16)
  }

  lemma OrEven(a: int, b: int, k: nat)
    requires k > 0
    ensures Or(a * 2, b, k) == b % 2 + 2 * Or(a, b / 2, k - 1)
  {
  }

  lemma OrShiftedTwice(a: int, b: int, k: nat)
    requires k > 1
    ensures Or(a * 4, b, k) == b % 4 + 4 * Or(a, b / 4, k - 2)
  {
    hide Or;
    OrEven(a * 2, b, k);
    OrEven(a, b / 2, k - 1);
    assert b / 2 / 2 == b / 4 && b % 2 + 2 * (b / 2 % 2) == b % 4;
  }

  lemma OrShiftedFour(a: int, b: int, k: nat)
    requires k > 3
    ensures Or(a * 16, b, k) == b % 16 + 16 * Or(a, b / 16, k - 4)
  {
    hide Or;
    OrShiftedTwice(a * 4, b, k);
    OrShiftedTwice(a, b / 4, k - 2);
    assert b / 4 / 4 == b / 16 && b % 4 + 4 * (b / 4 % 4) == b % 16;
  }

  /** The eight bits below a shifted number are those of the other one. */
  lemma OrShifted(a: int, b: int)
    ensures Or(a * 256, b, 16) == b % 256 + 256 * Or(a, b / 256, 8)
  {
    hide Or;
    OrShiftedFour(a * 16, b, 16);
    OrShiftedFour(a, b / 16, 12);
    assert b / 16 / 16 == b / 256 && b % 16 + 16 * (b / 16 % 16) == b % 256;
  }

  lemma OrStep(a: int, b: int, k: nat)
    requires k > 0 && (b == 0 || b == -1)
    ensures Or(a, b, k) == (if b == 0 then a % 2 else 1) + 2 * Or(a / 2, b, k - 1)
  {
  }

  lemma OrTwoSteps(a: int, b: int, k: nat)
    requires k > 1 && (b == 0 || b == -1)
    ensures Or(a, b, k) == (if b == 0 then a % 4 else 3) + 4 * Or(a / 4, b, k - 2)
  {
    hide Or;
    OrStep(a, b, k);
    OrStep(a / 2, b, k - 1);
    assert a / 2 / 2 == a / 4 && a % 2 + 2 * (a / 2 % 2) == a % 4;
  }

  lemma OrFourSteps(a: int, b: int, k: nat)
    requires k > 3 && (b == 0 || b == -1)
    ensures Or(a, b, k) == (if b == 0 then a % 16 else 15) + 16 * Or(a / 16, b, k - 4)
  {
    hide Or;
    OrTwoSteps(a, b, k);
    OrTwoSteps(a / 4, b, k - 2);
    assert a / 4 / 4 == a / 16 && a % 4 + 4 * (a / 4 % 4) == a % 16;
  }

  lemma OrNothing(a: int, b: int)
    ensures Or(a, b, 0) == 0
  {
  }

  /** With all zeros the bits of the other number remain; with all ones, all ones. */
  lemma OrConstant(a: int, b: int)
    requires b == 0 || b == -1
    ensures Or(a, b, 8) == if b == 0 then a % 256 else 255
  {
    hide Or;
    OrFourSteps(a, b, 8);
    OrFourSteps(a / 16, b, 4);
    OrNothing(a / 16 / 16, b);
    assert a % 16 + 16 * (a / 16 % 16) == a % 256;
  }

  /** A negative low character is all ones above its own eight bits, so the high one is lost. */
  lemma AnnouncedBytes(high: Byte, low: Byte)
    ensures Announced(high, low) == if low < 128 then high * 256 + low else 0xFF00 + low
  {
    hide Or;
    OrShifted(ToChar(high), ToChar(low));
    OrConstant(ToChar(high), if low < 128 then 0 else -1);
  }

  function Step(d: Decoder, b: Byte): Decoder {
    match d.phase
    case Start => d.(phase := High(b))
    case High(high) => d.(phase := Body(Announced(high, b), []))
    case Overrun => d
    case Body(size, got) =>
      if |got| >= ROOM then d.(phase := Overrun)
      else if |got| + 1 == size then Decoder(Start, d.packets + [got + [b]])
      else d.(phase := Body(size, got + [b]))
  }

  function Run(d: Decoder, bytes: seq<Byte>): Decoder
    decreases |bytes|
  {
    if bytes == [] then d else Run(Step(d, bytes[0]), bytes[1..])
  }

  lemma {:induction false} RunConcat(d: Decoder, a: seq<Byte>, b: seq<Byte>)
    ensures Run(d, a + b) == Run(Run(d, a), b)
    decreases |a|
  {
    hide Step;
    if a == [] {
      assert a + b == b;
    } else {
      RunConcat(Step(d, a[0]), a[1..], b);
      assert (a + b)[1..] == a[1..] + b;
    }
  }

  /** Payload bytes up to the announced length. */
  lemma {:induction false} RunBody(size: nat, got: seq<Byte>, packets: seq<seq<Byte>>, bytes: seq<Byte>)
    requires |got| < size && |got| + |bytes| <= size && |got| + |bytes| <= ROOM
    ensures Run(Decoder(Body(size, got), packets), bytes)
            == if |got| + |bytes| == size then Decoder(Start, packets + [got + bytes])
               else Decoder(Body(size, got + bytes), packets)
    decreases |bytes|
  {
    if bytes == [] {
      assert got + bytes == got;
    } else if |got| + 1 < size {
      RunBody(size, got + [bytes[0]], packets, bytes[1..]);
      assert got + [bytes[0]] + bytes[1..] == got + bytes;
    } else {
      assert bytes[1..] == [] && bytes == [bytes[0]];
    }
  }

  lemma RunHeader(packets: seq<seq<Byte>>, high: Byte, low: Byte, rest: seq<Byte>)
    ensures Run(Decoder(Start, packets), [high, low] + rest)
            == Run(Decoder(Body(Announced(high, low), []), packets), rest)
  {
    var d := Decoder(Start, packets);
    var bytes := [high, low] + rest;
    assert bytes[1..][1..] == rest;
    assert Run(d, bytes) == Run(Step(d, high), bytes[1..]);
    assert Run(Step(d, high), bytes[1..]) == Run(Step(Step(d, high), low), rest);
  }

  /** The payload lengths that read back. */
  predicate Legible(n: nat) {
    0 < n <= ROOM && (n % 256 < 128 || n / 256 == 0xFF)
  }

  lemma LegibleIsShort()
    ensures forall n: nat {:trigger Legible(n)} :: Legible(n) ==> 0 < n < 0x10000
  {
  }

  lemma RunNone(d: Decoder)
    ensures Run(d, []) == d
  {
  }

  lemma AnnouncedIsLength(n: nat)
    requires n < 0x10000
    ensures Announced(n / 256, n % 256) == n <==> n % 256 < 128 || n / 256 == 0xFF
    ensures Announced(n / 256, n % 256) >= n
  {
    AnnouncedBytes(n / 256, n % 256);
  }

  lemma ReadOne(packets: seq<seq<Byte>>, payload: seq<Byte>)
    requires Legible(|payload|)
    ensures Run(Decoder(Start, packets), Frame(payload)) == Decoder(Start, packets + [payload])
  {
    AnnouncedIsLength(|payload|);
    RunHeader(packets, |payload| / 256, |payload| % 256, payload);
    RunBody(|payload|, [], packets, payload);
    assert [] + payload == payload;
  }

  /** Packets are only ever added; the next one has the announced length and fits the buffer. */
  lemma {:induction false} NextPacket(d: Decoder, bytes: seq<Byte>)
    ensures d.packets <= Run(d, bytes).packets
    ensures d.phase.Overrun? ==> Run(d, bytes).packets == d.packets
    ensures d.phase.Body? && |d.packets| < |Run(d, bytes).packets| ==>
              |d.phase.got| < d.phase.size == |Run(d, bytes).packets[|d.packets|]| <= ROOM
    decreases |bytes|
  {
    if bytes != [] { NextPacket(Step(d, bytes[0]), bytes[1..]); }
  }

  /** A frame whose length does not read back: the packet that ends up in its place, if any, has
      another length. */
  lemma MisreadOne(packets: seq<seq<Byte>>, payload: seq<Byte>, rest: seq<Byte>)
    requires |payload| < 0x10000 && !Legible(|payload|)
    ensures var after := Run(Decoder(Start, packets), Frame(payload) + rest).packets;
            |packets| < |after| ==> |after[|packets|]| != |payload|
  {
    hide Step, Run, Announced;
    var n := |payload|;
    AnnouncedIsLength(n);
    RunHeader(packets, n / 256, n % 256, payload + rest);
    assert Frame(payload) + rest == [n / 256, n % 256] + (payload + rest);
    NextPacket(Decoder(Body(Announced(n / 256, n % 256), []), packets), payload + rest);
  }

  lemma {:induction false} ReadAll(packets: seq<seq<Byte>>, payloads: seq<seq<Byte>>)
    requires forall i :: 0 <= i < |payloads| ==> |payloads[i]| < 0x10000
    requires forall i :: 0 <= i < |payloads| ==> Legible(|payloads[i]|)
    ensures Run(Decoder(Start, packets), Frames(payloads)) == Decoder(Start, packets + payloads)
    decreases |payloads|
  {
    hide Step, Run, Frame, Legible;
    LegibleIsShort();
    if payloads == [] {
      RunNone(Decoder(Start, packets));
      assert packets + payloads == packets;
    } else {
      RunConcat(Decoder(Start, packets), Frame(payloads[0]), Frames(payloads[1..]));
      ReadOne(packets, payloads[0]);
      ReadAll(packets + [payloads[0]], payloads[1..]);
      assert packets + [payloads[0]] + payloads[1..] == packets + payloads;
    }
  }

  lemma {:induction false} MisreadSome(packets: seq<seq<Byte>>, payloads: seq<seq<Byte>>, i: nat)
    requires forall j :: 0 <= j < |payloads| ==> |payloads[j]| < 0x10000
    requires i < |payloads| && !Legible(|payloads[i]|) && forall j :: 0 <= j < i ==> Legible(|payloads[j]|)
    ensures Run(Decoder(Start, packets), Frames(payloads)).packets != packets + payloads
    decreases i
  {
    hide Step, Run, Frame, Legible;
    LegibleIsShort();
    if i == 0 {
      MisreadOne(packets, payloads[0], Frames(payloads[1..]));
      assert (packets + payloads)[|packets|] == payloads[0];
    } else {
      RunConcat(Decoder(Start, packets), Frame(payloads[0]), Frames(payloads[1..]));
      ReadOne(packets, payloads[0]);
      MisreadSome(packets + [payloads[0]], payloads[1..], i - 1);
      assert packets + [payloads[0]] + payloads[1..] == packets + payloads;
    }
  }

  function FirstIllegible(payloads: seq<seq<Byte>>): (i: nat)
    ensures i <= |payloads| && forall j :: 0 <= j < i ==> Legible(|payloads[j]|)
    ensures i < |payloads| ==> !Legible(|payloads[i]|)
  {
    if payloads == [] || !Legible(|payloads[0]|) then 0 else 1 + FirstIllegible(payloads[1..])
  }

  /** Any concatenation of frames reads back exactly when every length does. */
  lemma FramesReadBack(payloads: seq<seq<Byte>>)
    requires forall j :: 0 <= j < |payloads| ==> |payloads[j]| < 0x10000
    ensures Run(Decoder(Start, []), Frames(payloads)).packets == payloads
            <==> forall j :: 0 <= j < |payloads| ==> Legible(|payloads[j]|)
  {
    var i := FirstIllegible(payloads);
    assert [] + payloads == payloads;
    if i < |payloads| {
      MisreadSome([], payloads, i);
    } else {
      ReadAll([], payloads);
    }
  }

  /** hello.c: the variables of `main`, and the packets it has completed. */
  class Port {
    var state: int
    var termLen: nat
    var termIdx: nat
    const termBuf: array<Char>
    ghost var overrun: bool
    ghost var packets: seq<seq<Byte>>

    ghost predicate Valid()
      reads `state, `termIdx, `overrun
    {
      && termBuf.Length == 0xFFFF
      && 0 <= state <= 2
      && (state == 2 && !overrun ==> termIdx + 2 <= 0xFFFF)
    }

    ghost function Got(): seq<Byte>
      requires termBuf.Length == 0xFFFF && termIdx + 2 <= 0xFFFF
      reads `termIdx, termBuf
    {
      Bytes(termBuf[2..2 + termIdx])
    }

    ghost function View(): Decoder
      requires Valid()
      reads this, termBuf
    {
      Decoder(if overrun then Overrun else if state == 0 then Start else if state == 1 then High(ToByte(termBuf[0]))
              else Body(termLen, Got()), packets)
    }

    constructor ()
      ensures Valid() && View() == Decoder(Start, []) && fresh(termBuf)
    {
      state, termLen, termIdx := 0, 0, 0;
      termBuf := new Char[0xFFFF];
      packets, overrun := [], false;
    }

    /** One byte. Writing past the end of the buffer is where the model of the port ends. */
    method Feed(b: Byte)
      requires Valid()
      modifies this, termBuf
      ensures Valid() && View() == Step(old(View()), b)
    {
      match state
      case 0 =>
        termBuf[0] := ToChar(b);
        state := 1;
      case 1 =>
        termBuf[1] := ToChar(b);
        termLen := Announced(ToByte(termBuf[0]), ToByte(termBuf[1]));
        termIdx := 0;
        state := 2;
        assert termBuf[2..2] == [];
      case _ =>
        if termIdx + 2 >= termBuf.Length {
          overrun := true;
          return;
        }
        ghost var got := Store(b);
        if termIdx == termLen {
          state := 0;
          packets := packets + if overrun then [] else [got];
        }
    }

    method Store(b: Byte) returns (ghost got: seq<Byte>)
      requires termBuf.Length == 0xFFFF && termIdx + 2 < 0xFFFF
      modifies `termIdx, termBuf
      ensures termIdx == old(termIdx) + 1 && termIdx + 2 <= 0xFFFF
      ensures got == Got() == old(Got()) + [b]
    {
      BytesAppend(termBuf[2..2 + termIdx], ToChar(b));
      assert ToByte(ToChar(b)) == b;
      termBuf[termIdx + 2] := ToChar(b);
      termIdx := termIdx + 1;
      assert termBuf[2..2 + termIdx] == old(termBuf[2..2 + termIdx]) + [ToChar(b)];
      got := Got();
    }

    /** A whole stream. */
    method FeedAll(bytes: seq<Byte>)
      requires Valid()
      modifies this, termBuf
      ensures Valid() && View() == Run(old(View()), bytes)
    {
      assert bytes[..0] == [];
      for k := 0 to |bytes|
        invariant Valid() && View() == Run(old(View()), bytes[..k])
      {
        RunConcat(old(View()), bytes[..k], [bytes[k]]);
        RunSingle(View(), bytes[k]);
        assert bytes[..k + 1] == bytes[..k] + [bytes[k]];
        Feed(bytes[k]);
      }
      assert bytes[..|bytes|] == bytes;
    }
  }

  lemma RunSingle(d: Decoder, b: Byte)
    ensures Run(d, [b]) == Step(d, b)
  {
    assert [b][1..] == [];
    assert Run(Step(d, b), []) == Step(d, b);
  }

  function Bytes(chars: seq<Char>): (bytes: seq<Byte>)
    ensures |bytes| == |chars|
  {
    if chars == [] then [] else Bytes(chars[..|chars| - 1]) + [ToByte(chars[|chars| - 1])]
  }

  lemma BytesAppend(chars: seq<Char>, c: Char)
    ensures Bytes(chars + [c]) == Bytes(chars) + [ToByte(c)]
  {
    assert (chars + [c])[..|chars|] == chars;
  }
}

module ClockPort {
  import opened Packets
  import D = PacketDecoder

  // ---------------------------------------------------------------- replies

  datatype Request = Request(id: nat, param: nat)

  /** What the system calls of one request give: the two clocks in nanoseconds, the two formatted
      times, and whether the reply can be written. */
  datatype Sample = Sample(wall: nat, steady: nat, utc: seq<Byte>, local: seq<Byte>, writable: bool)

  const TWO_TO_THE_64 := 0x1_0000_0000_0000_0000

  /** The formatted times fit the write buffer after the length, with their final NUL. */
  ghost predicate Proper(sample: Sample) {
    && sample.wall < TWO_TO_THE_64 && sample.steady < TWO_TO_THE_64
    && 0 < |sample.utc| <= 61 && 0 < |sample.local| <= 61
  }

  function InUnit(nanos: nat, param: nat): (t: nat)
    ensures t <= nanos
  {
    match param
    case 0 => nanos / 1000000000
    case 1 => nanos / 1000000
    case 2 => nanos / 1000
    case 3 => nanos
    case _ => 0
  }

  /** How many nanoseconds the unit of a request has. */
  function NanosPer(param: nat): (n: nat)
    requires param <= 3
    ensures n > 0
    decreases 3 - param
  {
    if param == 3 then 1 else 1000 * NanosPer(param + 1)
  }

  /** A time in a unit is the number of whole units: seconds, milli-, micro- or nanoseconds. */
  lemma InUnitIsWhole(nanos: nat, param: nat)
    ensures param <= 3 ==>
              InUnit(nanos, param) * NanosPer(param) <= nanos < (InUnit(nanos, param) + 1) * NanosPer(param)
    ensures param > 3 ==> InUnit(nanos, param) == 0
  {
    assert NanosPer(3) == 1 && NanosPer(2) == 1000 && NanosPer(1) == 1000000 && NanosPer(0) == 1000000000;
  }

  /** The last n base-256 digits of t, most significant first. */
  function BigEndian(t: nat, n: nat): (bytes: seq<Byte>)
    ensures |bytes| == n
  {
    if n == 0 then [] else BigEndian(t / 256, n - 1) + [t % 256]
  }

  function Value(bytes: seq<Byte>): nat {
    if bytes == [] then 0 else Value(bytes[..|bytes| - 1]) * 256 + bytes[|bytes| - 1]
  }

  function Capacity(n: nat): (c: nat)
    ensures c > 0
  {
    if n == 0 then 1 else 256 * Capacity(n - 1)
  }

  lemma {:induction false} BigEndianReadsBack(t: nat, n: nat)
    requires t < Capacity(n)
    ensures Value(BigEndian(t, n)) == t
  {
    if n > 0 {
      BigEndianReadsBack(t / 256, n - 1);
      var bytes := BigEndian(t, n);
      assert bytes[..|bytes| - 1] == BigEndian(t / 256, n - 1);
    }
  }

  function Payload(request: Request, sample: Sample): seq<Byte> {
    if request.id == 2 then sample.utc
    else if request.id == 3 then sample.local
    else BigEndian(InUnit(if request.id == 1 then sample.steady else sample.wall, request.param), 8)
  }

  /** A time reply is read back as the 64-bit time in the requested unit. */
  lemma TimeReadsBack(request: Request, sample: Sample)
    requires Proper(sample) && request.id != 2 && request.id != 3
    ensures |Payload(request, sample)| == 8
    ensures var t, clock := Value(Payload(request, sample)), if request.id == 1 then sample.steady else sample.wall;
            if request.param <= 3 then t * NanosPer(request.param) <= clock < (t + 1) * NanosPer(request.param)
            else t == 0
  {
    InUnitIsWhole(if request.id == 1 then sample.steady else sample.wall, request.param);
    assert Capacity(4) == 0x1_0000_0000;
    assert Capacity(8) == TWO_TO_THE_64;
    BigEndianReadsBack(InUnit(if request.id == 1 then sample.steady else sample.wall, request.param), 8);
  }

  /** What a reply says: the UTC time or the local time as text, or the time of the clock asked for,
      in whole units, as a 64-bit number. */
  ghost predicate Answers(request: Request, sample: Sample, payload: seq<Byte>) {
    if request.id == 2 then payload == sample.utc
    else if request.id == 3 then payload == sample.local
    else
      && |payload| == 8
      && var t, clock := Value(payload), if request.id == 1 then sample.steady else sample.wall;
         if request.param <= 3 then t * NanosPer(request.param) <= clock < (t + 1) * NanosPer(request.param)
         else t == 0
  }

  lemma AnswersIt(request: Request, sample: Sample)
    requires Proper(sample)
    ensures Answers(request, sample, Payload(request, sample))
  {
    hide Payload, Value, NanosPer;
    if request.id != 2 && request.id != 3 { TimeReadsBack(request, sample); } else { TextIsPayload(request, sample); }
  }

  lemma TextIsPayload(request: Request, sample: Sample)
    ensures request.id == 2 ==> Payload(request, sample) == sample.utc
    ensures request.id == 3 ==> Payload(request, sample) == sample.local
  {
  }

  lemma FourBytes(t: nat)
    ensures BigEndian(t, 4) == [t / 256 / 256 / 256 % 256, t / 256 / 256 % 256, t / 256 % 256, t % 256]
  {
    assert BigEndian(t / 256 / 256 / 256, 1) == [t / 256 / 256 / 256 % 256];
    assert BigEndian(t / 256 / 256, 2) == [t / 256 / 256 / 256 % 256, t / 256 / 256 % 256];
  }

  lemma Halves(t: nat)
    ensures BigEndian(t, 8) == BigEndian(t / 256 / 256 / 256 / 256, 4) + BigEndian(t, 4)
  {
    var u := t / 256 / 256 / 256 / 256;
    assert BigEndian(t / 256 / 256 / 256, 5) == BigEndian(u, 4) + BigEndian(t / 256 / 256 / 256, 1);
    assert BigEndian(t / 256 / 256, 6) == BigEndian(u, 4) + BigEndian(t / 256 / 256, 2);
    assert BigEndian(t / 256, 7) == BigEndian(u, 4) + BigEndian(t / 256, 3);
  }

  lemma Shifts(t: nat)
    ensures t / 256 / 256 == t / 0x1_0000
    ensures t / 0x1_0000 / 256 == t / 0x100_0000
    ensures t / 0x100_0000 / 256 == t / 0x1_0000_0000
  {
  }

  /** The digits as shifts of the whole number. */
  lemma EightBytes(t: nat)
    ensures BigEndian(t, 8) ==
            [t / 0x100_0000_0000_0000 % 256, t / 0x1_0000_0000_0000 % 256, t / 0x100_0000_0000 % 256,
             t / 0x1_0000_0000 % 256,
             t / 0x100_0000 % 256, t / 0x1_0000 % 256, t / 0x100 % 256, t % 256]
  {
    hide BigEndian;
    var u := t / 0x1_0000_0000;
    Halves(t);
    Shifts(t);
    FourBytes(t);
    FourBytes(u);
    Shifts(u);
    HighShifts(t);
  }

  lemma HighShifts(t: nat)
    ensures t / 0x1_0000_0000 / 0x100 == t / 0x100_0000_0000
    ensures t / 0x1_0000_0000 / 0x1_0000 == t / 0x1_0000_0000_0000
    ensures t / 0x1_0000_0000 / 0x100_0000 == t / 0x100_0000_0000_0000
  {
  }

  // ---------------------------------------------------------------- requests

  /** What one wait finds: up to k bytes to read, a failed read, nothing, or a signal to stop. */
  datatype Wait = Readable(k: nat, sample: Sample) | ReadError | Timeout | Signal

  datatype Session = Session(input: seq<Byte>, buffer: seq<Byte>, stopped: bool, answered: seq<(Request, Sample)>)

  function Min(a: nat, b: nat): nat { if a < b then a else b }

  /** How many bytes a read of up to k gives: never more than the 8-byte buffer has room for. */
  function ReadSize(s: Session, k: nat): (n: nat)
    requires |s.buffer| <= 8
    ensures n <= k && n <= |s.input| && |s.buffer| + n <= 8
    ensures n == k || n == |s.input| || |s.buffer| + n == 8
  {
    Min(k, Min(|s.input|, 8 - |s.buffer|))
  }

  function Word(high: Byte, low: Byte): nat { high * 256 + low }

  function Dispatch(s: Session, sample: Sample): (s': Session)
    requires |s.buffer| <= 8
    ensures |s'.buffer| <= 8
  {
    if |s.buffer| != 6 then s
    else if Word(s.buffer[0], s.buffer[1]) != 4 || !sample.writable then s.(buffer := [], stopped := true)
    else
      var request := Request(Word(s.buffer[2], s.buffer[3]), Word(s.buffer[4], s.buffer[5]));
      s.(buffer := [], answered := s.answered + [(request, sample)])
  }

  function Step(s: Session, wait: Wait): (s': Session)
    requires |s.buffer| <= 8
    ensures |s'.buffer| <= 8
  {
    if s.stopped || wait.Timeout? then s
    else if !wait.Readable? then s.(stopped := true)
    else
      var n := ReadSize(s, wait.k);
      if n == 0 then s.(stopped := true)
      else Dispatch(s.(input := s.input[n..], buffer := s.buffer + s.input[..n]), wait.sample)
  }

  function Run(s: Session, waits: seq<Wait>): (s': Session)
    requires |s.buffer| <= 8
    ensures |s'.buffer| <= 8
    decreases |waits|
  {
    if waits == [] then s else Run(Step(s, waits[0]), waits[1..])
  }

  function Encode(request: Request): (bytes: seq<Byte>)
    requires request.id < 0x10000 && request.param < 0x10000
    ensures |bytes| == 6
  {
    [0, 4, request.id / 256, request.id % 256, request.param / 256, request.param % 256]
  }

  ghost predicate Words(requests: seq<Request>) {
    forall i :: 0 <= i < |requests| ==> requests[i].id < 0x10000 && requests[i].param < 0x10000
  }

  function Stream(requests: seq<Request>): (bytes: seq<Byte>)
    requires Words(requests)
    ensures |bytes| == 6 * |requests|
  {
    if requests == [] then [] else Encode(requests[0]) + Stream(requests[1..])
  }

  function Requests(answered: seq<(Request, Sample)>): (requests: seq<Request>)
    ensures |requests| == |answered|
  {
    if answered == [] then [] else Requests(answered[..|answered| - 1]) + [answered[|answered| - 1].0]
  }

  /** No read runs over the end of a request. */
  ghost predicate Aligned(s: Session, waits: seq<Wait>)
    requires |s.buffer| <= 8
    decreases |waits|
  {
    waits != [] ==>
      && (waits[0].Readable? && !s.stopped ==> |s.buffer| + ReadSize(s, waits[0].k) <= 6)
      && Aligned(Step(s, waits[0]), waits[1..])
  }

  /** Requests answered so far, and the bytes of the others in the buffer and the pipe. */
  ghost predicate InOrder(s: Session, requests: seq<Request>)
    requires Words(requests)
  {
    && |s.buffer| <= 8
    && Requests(s.answered) <= requests
    && (!s.stopped ==> |s.buffer| < 6 && s.buffer + s.input == Stream(requests[|s.answered|..]))
  }

  lemma StepKeepsOrder(s: Session, wait: Wait, requests: seq<Request>)
    requires Words(requests) && InOrder(s, requests)
    requires wait.Readable? && !s.stopped ==> |s.buffer| + ReadSize(s, wait.k) <= 6
    ensures InOrder(Step(s, wait), requests)
  {
    if wait.Readable? && !s.stopped {
      hide Stream, Requests, Encode;
      var n, d := ReadSize(s, wait.k), |s.answered|;
      var buffer, input := s.buffer + s.input[..n], s.input[n..];
      assert buffer + input == s.buffer + s.input;
      if n > 0 && |buffer| == 6 {
        assert requests[d..] != [] by { Lengths(requests[d..]); }
        FirstRequest(requests[d..], buffer, input);
        assert requests[d..][1..] == requests[d + 1..];
        OneMoreAnswered(s.answered, requests, wait.sample);
      }
    }
  }

  lemma Lengths(requests: seq<Request>)
    requires Words(requests)
    ensures |Stream(requests)| == 6 * |requests|
  {
  }

  /** Six bytes from the front of a stream of requests are its first request. */
  lemma FirstRequest(requests: seq<Request>, buffer: seq<Byte>, input: seq<Byte>)
    requires Words(requests) && requests != [] && |buffer| == 6 && buffer + input == Stream(requests)
    ensures input == Stream(requests[1..]) && Word(buffer[0], buffer[1]) == 4
    ensures Request(Word(buffer[2], buffer[3]), Word(buffer[4], buffer[5])) == requests[0]
  {
    assert buffer == (buffer + input)[..6] == Encode(requests[0]);
    assert input == (buffer + input)[6..];
  }

  lemma RequestsAppend(answered: seq<(Request, Sample)>, request: Request, sample: Sample)
    ensures Requests(answered + [(request, sample)]) == Requests(answered) + [request]
  {
    assert (answered + [(request, sample)])[..|answered|] == answered;
  }

  lemma OneMoreAnswered(answered: seq<(Request, Sample)>, requests: seq<Request>, sample: Sample)
    requires Requests(answered) <= requests && |answered| < |requests|
    ensures Requests(answered + [(requests[|answered|], sample)]) <= requests
  {
    hide Requests;
    RequestsAppend(answered, requests[|answered|], sample);
    Prefix(Requests(answered), requests);
  }

  lemma Prefix(front: seq<Request>, all: seq<Request>)
    requires front <= all && |front| < |all|
    ensures front + [all[|front|]] <= all
  {
  }

  /** However the requests are split into reads that respect their ends, those answered are the
      first ones, in order; once everything has been read, and nothing went wrong, all of them. */
  lemma {:induction false} AnsweredInOrder(s: Session, waits: seq<Wait>, requests: seq<Request>)
    requires Words(requests) && InOrder(s, requests) && Aligned(s, waits)
    ensures InOrder(Run(s, waits), requests)
    ensures var s' := Run(s, waits); !s'.stopped && s'.input == [] ==> Requests(s'.answered) == requests
    decreases |waits|
  {
    if waits == [] {
      assert !s.stopped && s.input == [] ==> |s.buffer + s.input| == |s.buffer|;
    } else {
      StepKeepsOrder(s, waits[0], requests);
      AnsweredInOrder(Step(s, waits[0]), waits[1..], requests);
    }
  }

  /** What makes the port stop: a signal, a failed read, the end of the input, a complete message whose
      length is not 4, or a reply that cannot be written. */
  ghost predicate Stops(s: Session, wait: Wait)
    requires |s.buffer| <= 8
  {
    || wait.Signal? || wait.ReadError?
    || (wait.Readable? && ReadSize(s, wait.k) == 0)
    || (wait.Readable? && |s.buffer| + ReadSize(s, wait.k) == 6 &&
        (!wait.sample.writable || (s.buffer + s.input)[..2] != [0, 4]))
  }

  /** It stops at the first of these and answers nothing afterwards. */
  lemma StopsExactly(s: Session, wait: Wait)
    requires |s.buffer| <= 8 && !s.stopped
    ensures Step(s, wait).stopped <==> Stops(s, wait)
    ensures Stops(s, wait) ==> Step(s, wait).answered == s.answered
    ensures wait.Timeout? ==> Step(s, wait) == s
  {
    if wait.Readable? && |s.buffer| + ReadSize(s, wait.k) == 6 {
      var n := ReadSize(s, wait.k);
      var buffer := s.buffer + s.input[..n];
      assert (s.buffer + s.input)[..2] == buffer[..2] == [buffer[0], buffer[1]];
    }
  }

  /** After a read that ran over the end of a request nothing is answered any more. */
  lemma {:induction false} OverrunAnswersNothing(s: Session, waits: seq<Wait>)
    requires 6 < |s.buffer| <= 8
    ensures Run(s, waits).answered == s.answered
    decreases |waits|
  {
    if waits != [] { OverrunAnswersNothing(Step(s, waits[0]), waits[1..]); }
  }

  /** All requests answered means that nothing is left to read, so no read has run over an end. */
  lemma {:induction false} AnsweredMeansAligned(s: Session, waits: seq<Wait>, requests: seq<Request>)
    requires Words(requests) && InOrder(s, requests)
    requires Requests(Run(s, waits).answered) == requests
    ensures Aligned(s, waits)
    decreases |waits|
  {
    if waits != [] {
      if waits[0].Readable? && !s.stopped && |s.buffer| + ReadSize(s, waits[0].k) > 6 {
        OverrunAnswersNothing(Step(s, waits[0]), waits[1..]);
        assert false;
      }
      StepKeepsOrder(s, waits[0], requests);
      AnsweredMeansAligned(Step(s, waits[0]), waits[1..], requests);
    }
  }

  /** For waits that deliver the whole input and do not stop the port, all requests are answered
      exactly when no read runs over the end of a request. */
  lemma AllAnsweredExactly(s: Session, waits: seq<Wait>, requests: seq<Request>)
    requires Words(requests) && InOrder(s, requests)
    requires !Run(s, waits).stopped && Run(s, waits).input == []
    ensures Requests(Run(s, waits).answered) == requests <==> Aligned(s, waits)
  {
    if Aligned(s, waits) { AnsweredInOrder(s, waits, requests); }
    if Requests(Run(s, waits).answered) == requests { AnsweredMeansAligned(s, waits, requests); }
  }

  // ---------------------------------------------------------------- both ports together

  function Payloads(answered: seq<(Request, Sample)>): (payloads: seq<seq<Byte>>)
    ensures |payloads| == |answered|
  {
    if answered == [] then []
    else
      var (request, sample) := answered[|answered| - 1];
      Payloads(answered[..|answered| - 1]) + [Payload(request, sample)]
  }

  ghost predicate AllProper(answered: seq<(Request, Sample)>) {
    forall i :: 0 <= i < |answered| ==> Proper(answered[i].1)
  }

  lemma {:induction false} PayloadsAreLegible(answered: seq<(Request, Sample)>)
    requires AllProper(answered)
    ensures forall i :: 0 <= i < |answered| ==> |Payloads(answered)[i]| < 0x10000 && D.Legible(|Payloads(answered)[i]|)
  {
    if answered != [] { PayloadsAreLegible(answered[..|answered| - 1]); }
  }

  /** hello.c reads back exactly what clock.c wrote, and is ready for the next frame. */
  lemma RepliesReadBack(answered: seq<(Request, Sample)>)
    requires AllProper(answered)
    ensures forall i :: 0 <= i < |answered| ==> |Payloads(answered)[i]| < 0x10000
    ensures D.Run(D.Decoder(D.Start, []), Frames(Payloads(answered))) == D.Decoder(D.Start, Payloads(answered))
  {
    PayloadsAreLegible(answered);
    D.ReadAll([], Payloads(answered));
    assert [] + Payloads(answered) == Payloads(answered);
  }

  lemma AnsweredOneMore(answered: seq<(Request, Sample)>, request: Request, sample: Sample)
    requires AllProper(answered) && Proper(sample)
    requires forall i :: 0 <= i < |answered| ==> |Payloads(answered)[i]| < 0x10000
    ensures var next := answered + [(request, sample)];
            && AllProper(next) && |Payload(request, sample)| < 0x10000
            && (forall i :: 0 <= i < |next| ==> |Payloads(next)[i]| < 0x10000)
            && Frames(Payloads(next)) == Frames(Payloads(answered)) + Frame(Payload(request, sample))
  {
    hide Payload, Frame, Frames;
    var next := answered + [(request, sample)];
    assert next[..|answered|] == answered;
    assert Payloads(next) == Payloads(answered) + [Payload(request, sample)];
    PayloadsAreLegible(next);
    assert Payloads(next)[|answered|] == Payload(request, sample);
    FramesAppend(Payloads(answered), Payload(request, sample));
  }

  /** clock.c: its global variables, its standard input and its standard output. */
  class Clock {
    const readBuffer: array<Byte>
    const writeBuffer: array<Byte>
    var totalRead: nat
    var stopped: bool
    var input: seq<Byte>
    var output: seq<Byte>
    ghost var answered: seq<(Request, Sample)>

    ghost predicate Valid()
      reads `totalRead, `output, `answered
    {
      && readBuffer.Length == 8 && writeBuffer.Length == 64 && readBuffer != writeBuffer
      && totalRead <= 8
      && AllProper(answered)
      && (forall i :: 0 <= i < |answered| ==> |Payloads(answered)[i]| < 0x10000)
      && output == Frames(Payloads(answered))
    }

    ghost function View(): Session
      requires Valid()
      reads this, readBuffer
    {
      Session(input, readBuffer[..totalRead], stopped, answered)
    }

    constructor (input: seq<Byte>)
      ensures Valid() && View() == Session(input, [], false, []) && output == []
      ensures fresh(readBuffer) && fresh(writeBuffer)
    {
      readBuffer, writeBuffer := new Byte[8], new Byte[64];
      totalRead, stopped, this.input, output := 0, false, input, [];
      answered := [];
    }

    /** Put a formatted time into the write buffer, with its final NUL. */
    method PutText(text: seq<Byte>)
      requires writeBuffer.Length == 64 && |text| <= 61
      modifies writeBuffer
      ensures writeBuffer[2..2 + |text|] == text
    {
      for i := 0 to |text|
        invariant writeBuffer[2..2 + i] == text[..i]
      {
        writeBuffer[2 + i] := text[i];
      }
      writeBuffer[2 + |text|] := 0;
    }

    method PutTime(t: nat)
      requires writeBuffer.Length == 64
      modifies writeBuffer
      ensures writeBuffer[2..10] == BigEndian(t, 8)
    {
      hide BigEndian;
      EightBytes(t);
      writeBuffer[9] := t % 256;
      writeBuffer[8] := t / 0x100 % 256;
      writeBuffer[7] := t / 0x1_0000 % 256;
      writeBuffer[6] := t / 0x100_0000 % 256;
      writeBuffer[5] := t / 0x1_0000_0000 % 256;
      writeBuffer[4] := t / 0x100_0000_0000 % 256;
      writeBuffer[3] := t / 0x1_0000_0000_0000 % 256;
      writeBuffer[2] := t / 0x100_0000_0000_0000 % 256;
    }

    method HandleRequest(id: nat, param: nat, sample: Sample) returns (ok: bool)
      requires writeBuffer.Length == 64 && Proper(sample)
      modifies `output, writeBuffer
      ensures ok == sample.writable && |Payload(Request(id, param), sample)| < 0x10000
      ensures output == old(output) + if ok then Frame(Payload(Request(id, param), sample)) else []
      ensures Answers(Request(id, param), sample, Payload(Request(id, param), sample))
    {
      AnswersIt(Request(id, param), sample);
      var timeVal, size := 0, 8;
      match id {
        case 0 => timeVal := sample.wall;
        case 1 => timeVal := sample.steady;
        case 2 => PutText(sample.utc); size := |sample.utc|;
        case 3 => PutText(sample.local); size := |sample.local|;
        case _ => timeVal := sample.wall;
      }
      var timestamp := 0;
      match param {
        case 0 => timestamp := timeVal / 1000000000;
        case 1 => timestamp := timeVal / 1000000;
        case 2 => timestamp := timeVal / 1000;
        case 3 => timestamp := timeVal;
        case _ =>
      }
      if id < 2 || id > 3 {
        PutTime(timestamp);
      }
      ghost var payload := writeBuffer[2..2 + size];
      assert payload == Payload(Request(id, param), sample);
      writeBuffer[1] := size % 256;
      writeBuffer[0] := size / 256;
      ok := sample.writable;
      if ok {
        assert writeBuffer[..size + 2] == [writeBuffer[0], writeBuffer[1]] + writeBuffer[2..2 + size];
        assert writeBuffer[2..2 + size] == payload;
        output := output + writeBuffer[..size + 2];
      }
    }

    /** `ReadFile`: the next bytes of the input, up to k, after those already in the buffer. */
    method Read(k: nat) returns (n: nat)
      requires Valid()
      modifies `input, readBuffer
      ensures n == ReadSize(old(View()), k)
      ensures input == old(input)[n..] && readBuffer[..totalRead + n] == old(readBuffer[..totalRead]) + old(input)[..n]
    {
      n := Min(k, Min(|input|, readBuffer.Length - totalRead));
      for i := 0 to n
        invariant input == old(input)
        invariant readBuffer[..totalRead + i] == old(readBuffer[..totalRead]) + input[..i]
      {
        readBuffer[totalRead + i] := input[i];
      }
      input := input[n..];
    }

    /** The requested message is complete: check its length, answer it. */
    method Process(sample: Sample)
      requires Valid() && totalRead == 6 && Proper(sample) && !stopped
      modifies this, writeBuffer
      ensures Valid() && View() == Dispatch(old(View()), sample)
    {
      hide Frames, Payloads, Payload, AllProper, Frame;
      var length := Word(readBuffer[0], readBuffer[1]);
      var id, param := Word(readBuffer[2], readBuffer[3]), Word(readBuffer[4], readBuffer[5]);
      totalRead := 0;
      if length == 4 {
        var ok := HandleRequest(id, param, sample);
        if ok {
          AnsweredOneMore(answered, Request(id, param), sample);
          answered := answered + [(Request(id, param), sample)];
        } else {
          stopped := true;
        }
      } else {
        stopped := true;
      }
    }

    method WaitStdIO(waits: seq<Wait>)
      requires Valid()
      requires forall i :: 0 <= i < |waits| && waits[i].Readable? ==> Proper(waits[i].sample)
      modifies this, readBuffer, writeBuffer
      ensures Valid() && View() == Run(old(View()).(buffer := []), waits)
    {
      totalRead := 0;
      var i := 0;
      while !stopped && i < |waits|
        invariant i <= |waits| && Valid() && Run(View(), waits[i..]) == Run(old(View()).(buffer := []), waits)
        decreases |waits| - i
      {
        Handle(waits[i]);
        i := i + 1;
      }
      StoppedStays(View(), waits[i..]);
    }

    /** One turn of the loop. */
    method Handle(wait: Wait)
      requires Valid() && !stopped && (wait.Readable? ==> Proper(wait.sample))
      modifies this, readBuffer, writeBuffer
      ensures Valid() && View() == Step(old(View()), wait)
    {
      match wait
      case Readable(k, sample) =>
        var n := Read(k);
        if n == 0 {
          assert input == old(input);
          stopped := true;
          return;
        }
        totalRead := totalRead + n;
        if totalRead == 6 {
          Process(sample);
        }
      case Timeout =>
      case _ => stopped := true;
    }
  }

  lemma {:induction false} StoppedStays(s: Session, waits: seq<Wait>)
    requires |s.buffer| <= 8 && (s.stopped || waits == [])
    ensures Run(s, waits) == s
    decreases |waits|
  {
    if waits != [] { StoppedStays(s, waits[1..]); }
  }
}
