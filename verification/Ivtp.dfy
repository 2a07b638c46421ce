/** The IVTP wire format (protocol.go, client.go): little-endian headers, framed messages, the tunnel response. */
module Ivtp {
  import opened Wrappers
  import opened Bits

  /* Little-endian numbers. */

  function Range(n: nat): (r: nat)
    ensures r > 0
  {
    if n == 0 then 1 else 256 * Range(n - 1)
  }

  function Le(v: nat, n: nat): (b: seq<Byte>)
    ensures |b| == n
  {
    if n == 0 then [] else [v % 256] + Le(v / 256, n - 1)
  }

  function FromLe(b: seq<Byte>): (v: nat)
    ensures v < Range(|b|)
  {
    if b == [] then 0 else (b[0] as int) + 256 * FromLe(b[1..])
  }

  lemma {:induction false} LeReads(v: nat, n: nat)
    requires v < Range(n)
    ensures FromLe(Le(v, n)) == v
  {
    if n > 0 {
      LeReads(v / 256, n - 1);
      assert Le(v, n)[1..] == Le(v / 256, n - 1);
    }
  }

  lemma {:induction false} LeWrites(b: seq<Byte>)
    ensures Le(FromLe(b), |b|) == b
  {
    if b != [] {
      LeWrites(b[1..]);
      assert FromLe(b) % 256 == b[0] && FromLe(b) / 256 == FromLe(b[1..]);
    }
  }

  lemma Ranges()
    ensures Range(2) == 65536 && Range(4) == 0x1_0000_0000
  {
    assert Range(1) == 256;
    assert Range(3) == 16777216;
  }

  /* Message headers. */

  datatype IvtpHeader = IvtpHeader(kind: nat, size: nat, status: nat)

  predicate Wide(h: IvtpHeader) { h.kind < Range(2) && h.size < Range(4) && h.status < Range(2) }

  const HEADER_SIZE := 8

  function EncodeHeader(h: IvtpHeader): (b: seq<Byte>)
    ensures |b| == HEADER_SIZE
  {
    Le(h.kind, 2) + Le(h.size, 4) + Le(h.status, 2)
  }

  function DecodeHeader(data: seq<Byte>): Option<IvtpHeader> {
    if |data| < HEADER_SIZE then None
    else Some(IvtpHeader(FromLe(data[0..2]), FromLe(data[2..6]), FromLe(data[6..8])))
  }

  /** Decoding succeeds exactly on what encoding produces, whatever follows. */
  lemma HeaderExactly(data: seq<Byte>, h: IvtpHeader)
    ensures DecodeHeader(data) == Some(h) <==> Wide(h) && EncodeHeader(h) <= data
  {
    hide Range, Le, FromLe;
    if Wide(h) && EncodeHeader(h) <= data {
      var e := EncodeHeader(h);
      assert data[..8] == e;
      assert data[0..2] == e[0..2] == Le(h.kind, 2);
      assert data[2..6] == e[2..6] == Le(h.size, 4);
      assert data[6..8] == e[6..8] == Le(h.status, 2);
      LeReads(h.kind, 2);
      LeReads(h.size, 4);
      LeReads(h.status, 2);
    }
    if DecodeHeader(data) == Some(h) {
      LeWrites(data[0..2]);
      LeWrites(data[2..6]);
      LeWrites(data[6..8]);
      assert EncodeHeader(h) == data[..8];
    }
  }

  /** The eight bytes: type, size and status, each with its least significant byte first. */
  lemma HeaderBytes(h: IvtpHeader)
    ensures EncodeHeader(h) == [h.kind % 256, h.kind / 256 % 256,
                                h.size % 256, h.size / 256 % 256, h.size / 65536 % 256, h.size / 16777216 % 256,
                                h.status % 256, h.status / 256 % 256]
  {
    TwoBytesOf(h.kind);
    TwoBytesOf(h.status);
    FourBytesOf(h.size);
  }

  lemma TwoBytesOf(v: nat)
    ensures Le(v, 2) == [v % 256, v / 256 % 256]
  {
    assert Le(v / 256, 1) == [v / 256 % 256];
  }

  lemma FourBytesOf(v: nat)
    ensures Le(v, 4) == [v % 256, v / 256 % 256, v / 65536 % 256, v / 16777216 % 256]
  {
    assert v / 256 / 256 == v / 65536 && v / 65536 / 256 == v / 16777216;
    TwoBytesOf(v / 65536);
    assert Le(v / 256, 3) == [v / 256 % 256] + Le(v / 65536, 2);
  }

  /** Numbers read from bytes. */
  lemma NumberOfBytes(b: seq<Byte>)
    ensures |b| == 2 ==> FromLe(b) == (b[0] as int) + 256 * (b[1] as int)
    ensures |b| == 4 ==>
              FromLe(b) == (b[0] as int) + 256 * (b[1] as int) + 65536 * (b[2] as int) + 16777216 * (b[3] as int)
  {
    if |b| == 2 { assert FromLe(b[1..]) == b[1]; }
    if |b| == 4 {
      assert FromLe(b[1..][1..][1..]) == b[3];
      assert FromLe(b[1..][1..]) == (b[2] as int) + 256 * (b[3] as int);
    }
  }

  /* Messages. */

  datatype Message = Message(kind: nat, status: nat, payload: seq<Byte>)

  const MAX_PAYLOAD := 10 * 1024 * 1024

  /** Messages a reader accepts. */
  predicate Sendable(m: Message) { m.kind < 65536 && m.status < 65536 && |m.payload| <= MAX_PAYLOAD }

  predicate AllSendable(ms: seq<Message>) { forall i :: 0 <= i < |ms| ==> Sendable(ms[i]) }

  /** The bytes SendMessageWithPayload writes; the length field keeps 32 bits. */
  function Wire(m: Message): (b: seq<Byte>)
    ensures |b| == HEADER_SIZE + |m.payload|
  {
    EncodeHeader(IvtpHeader(m.kind, |m.payload| % 0x1_0000_0000, m.status)) + m.payload
  }

  datatype Reading =
    | Read(message: Message, rest: seq<Byte>)
    | ShortHeader
    | TooLarge(size: nat, rest: seq<Byte>)
    | ShortPayload(size: nat)

  /** Bytes still unread afterwards: a read that runs out has consumed everything. */
  function Unread(r: Reading): seq<Byte> { if r.Read? || r.TooLarge? then r.rest else [] }

  function ReadMessage(s: seq<Byte>): (r: Reading)
    ensures r.Read? ==> |r.rest| < |s|
  {
    if |s| < HEADER_SIZE then ShortHeader
    else
      var h := DecodeHeader(s[..HEADER_SIZE]).value;
      var body := s[HEADER_SIZE..];
      if h.size > MAX_PAYLOAD then TooLarge(h.size, body)
      else if |body| < h.size then ShortPayload(h.size)
      else Read(Message(h.kind, h.status, body[..h.size]), body[h.size..])
  }

  /** Reading and writing are inverse, in both directions and whatever follows the message. */
  lemma ReadExactly(s: seq<Byte>, m: Message, rest: seq<Byte>)
    ensures ReadMessage(s) == Read(m, rest) <==> Sendable(m) && s == Wire(m) + rest
  {
    hide EncodeHeader, DecodeHeader, Range;
    Ranges();
    var h := IvtpHeader(m.kind, |m.payload| % 0x1_0000_0000, m.status);
    if |s| >= HEADER_SIZE {
      HeaderExactly(s[..HEADER_SIZE], h);
      HeaderDecodes(s[..HEADER_SIZE]);
    }
    if Sendable(m) && s == Wire(m) + rest {
      assert s[..HEADER_SIZE] == EncodeHeader(h);
      assert s[HEADER_SIZE..] == m.payload + rest;
    }
    if ReadMessage(s) == Read(m, rest) {
      HeaderExactly(s[..HEADER_SIZE], DecodeHeader(s[..HEADER_SIZE]).value);
      assert EncodeHeader(h) == s[..HEADER_SIZE];
      assert s == s[..HEADER_SIZE] + (m.payload + rest);
    }
  }

  lemma HeaderDecodes(data: seq<Byte>)
    ensures DecodeHeader(data).Some? <==> |data| >= HEADER_SIZE
  {
  }

  /** A read fails exactly on input that starts with no complete message of acceptable size. */
  lemma ReadFailsExactly(s: seq<Byte>)
    ensures !ReadMessage(s).Read? <==> forall m, rest :: Sendable(m) ==> s != Wire(m) + rest
  {
    hide ReadMessage, Wire, Sendable;
    var r := ReadMessage(s);
    if r.Read? { ReadExactly(s, r.message, r.rest); }
    forall m, rest | Sendable(m) && s == Wire(m) + rest ensures r.Read? { ReadExactly(s, m, rest); }
  }

  /** The limits, in bytes: a payload of 10 MiB is read, a longer one refused. */
  lemma PayloadLimit(m: Message)
    ensures Sendable(m) <==> m.kind < 65536 && m.status < 65536 && |m.payload| <= 10485760
  {
  }

  /** How a read fails, and what it leaves unread: all is consumed when input runs out in the header or in the
      payload; a length beyond 10 MiB leaves what follows the header. */
  lemma FailureExactly(s: seq<Byte>)
    ensures ReadMessage(s) == ShortHeader <==> |s| < 8
    ensures |s| >= 8 ==>
              var size := s[2] as int + 256 * (s[3] as int) + 65536 * (s[4] as int) + 16777216 * (s[5] as int);
              && (size > 10485760 <==> ReadMessage(s).TooLarge?)
              && (size > 10485760 ==> ReadMessage(s) == TooLarge(size, s[8..]) && Unread(ReadMessage(s)) == s[8..])
              && (size <= 10485760 && |s| - 8 < size <==> ReadMessage(s).ShortPayload?)
    ensures ReadMessage(s).ShortHeader? || ReadMessage(s).ShortPayload? ==> Unread(ReadMessage(s)) == []
  {
    hide FromLe;
    if |s| >= 8 {
      NumberOfBytes(s[2..6]);
      assert s[..8][2..6] == s[2..6];
    }
  }

  /* Streams of messages. */

  function WireAll(ms: seq<Message>): seq<Byte> {
    if ms == [] then [] else Wire(ms[0]) + WireAll(ms[1..])
  }

  lemma {:induction false} WireAllConcat(a: seq<Message>, b: seq<Message>)
    ensures WireAll(a + b) == WireAll(a) + WireAll(b)
  {
    hide Wire;
    if a == [] {
      assert a + b == b;
    } else {
      WireAllConcat(a[1..], b);
      assert (a + b)[1..] == a[1..] + b;
    }
  }

  datatype Stream = Stream(messages: seq<Message>, tail: seq<Byte>)

  /** Every message up to the first failing read, and the bytes that read started at. */
  function ReadAll(s: seq<Byte>): Stream
    decreases |s|
  {
    match ReadMessage(s)
    case Read(m, rest) => var more := ReadAll(rest); Stream([m] + more.messages, more.tail)
    case _ => Stream([], s)
  }

  /** No byte is lost or invented: a stream reads as ms and tail exactly when it is the encoding of ms
      followed by tail, and no message starts there. */
  lemma {:induction false} StreamExactly(s: seq<Byte>, ms: seq<Message>, tail: seq<Byte>)
    ensures ReadAll(s) == Stream(ms, tail) <==> AllSendable(ms) && s == WireAll(ms) + tail && !ReadMessage(tail).Read?
    decreases |s|
  {
    hide ReadMessage, Wire, Sendable;
    match ReadMessage(s)
    case Read(m, rest) =>
      ReadExactly(s, m, rest);
      if ms == [] {
        assert WireAll(ms) + tail == tail;
      } else {
        FirstMessage(s, ms, tail);
        if ms[0] == m {
          assert WireAll(ms) + tail == Wire(m) + (WireAll(ms[1..]) + tail);
          StreamExactly(rest, ms[1..], tail);
          SendableCons(ms);
          assert ms == [m] + ms[1..];
        }
      }
    case _ =>
      if ms == [] {
        assert WireAll(ms) + tail == tail;
      } else {
        FirstMessage(s, ms, tail);
      }
  }

  lemma SendableCons(ms: seq<Message>)
    requires ms != []
    ensures AllSendable(ms) <==> Sendable(ms[0]) && AllSendable(ms[1..])
  {
    hide Sendable;
    if Sendable(ms[0]) && AllSendable(ms[1..]) {
      forall i | 0 <= i < |ms| ensures Sendable(ms[i]) { if i > 0 { assert ms[i] == ms[1..][i - 1]; } }
    }
  }

  lemma FirstMessage(s: seq<Byte>, ms: seq<Message>, tail: seq<Byte>)
    requires ms != []
    ensures AllSendable(ms) && s == WireAll(ms) + tail ==> ReadMessage(s) == Read(ms[0], WireAll(ms[1..]) + tail)
  {
    hide ReadMessage, Wire, Sendable;
    ReadExactly(s, ms[0], WireAll(ms[1..]) + tail);
    assert WireAll(ms) + tail == Wire(ms[0]) + (WireAll(ms[1..]) + tail);
  }

  /** So an encoded stream can be taken apart in one way only. */
  lemma WireUnique(a: seq<Message>, b: seq<Message>)
    requires AllSendable(a) && AllSendable(b) && WireAll(a) == WireAll(b)
    ensures a == b
  {
    hide WireAll, ReadAll;
    assert WireAll(a) + [] == WireAll(a) && WireAll(b) + [] == WireAll(b);
    StreamExactly(WireAll(a), a, []);
    StreamExactly(WireAll(a), b, []);
  }

  /* The tunnel response. */

  const BLANK_LINE: seq<Byte> := [13, 10, 13, 10]
  const RESPONSE_LIMIT := 4096

  predicate EndsAt(s: seq<Byte>, e: int) { 4 <= e <= |s| && s[e - 4..e] == BLANK_LINE }

  /** A carriage return and a line feed, twice; within 4096 bytes. */
  lemma BlankLineBytes(s: seq<Byte>, e: int)
    ensures EndsAt(s, e) <==> 4 <= e <= |s| && s[e - 4] == 13 && s[e - 3] == 10 && s[e - 2] == 13 && s[e - 1] == 10
    ensures RESPONSE_LIMIT == 4096
  {
    if 4 <= e <= |s| && s[e - 4] == 13 && s[e - 3] == 10 && s[e - 2] == 13 && s[e - 1] == 10 {
      assert s[e - 4..e] == [13, 10, 13, 10];
    }
    if EndsAt(s, e) {
      var t := s[e - 4..e];
      assert t[0] == s[e - 4] && t[1] == s[e - 3] && t[2] == s[e - 2] && t[3] == s[e - 1];
    }
  }

  datatype Tunnel = Response(text: seq<Byte>) | Cut(text: seq<Byte>) | TooLong(text: seq<Byte>)

  /** The scan with n bytes read and no blank line among them. */
  function Scan(s: seq<Byte>, n: nat): Tunnel
    requires n <= |s| && n <= RESPONSE_LIMIT
    decreases RESPONSE_LIMIT - n
  {
    if n == RESPONSE_LIMIT then TooLong(s[..n])
    else if n == |s| then Cut(s)
    else if EndsAt(s, n + 1) then Response(s[..n + 1])
    else Scan(s, n + 1)
  }

  ghost predicate NoEnd(s: seq<Byte>, n: int) { forall e :: 0 <= e <= n ==> !EndsAt(s, e) }

  /** The scan returns the text up to and including the first blank line ending within 4096 bytes; without one
      it returns all of a shorter input, and 4096 bytes of a longer one. */
  lemma TunnelExactly(s: seq<Byte>, t: seq<Byte>)
    ensures Scan(s, 0) == Response(t) <==>
            t <= s && |t| <= RESPONSE_LIMIT && EndsAt(s, |t|) && NoEnd(s, |t| - 1)
    ensures Scan(s, 0) == Cut(t) <==> t == s && |s| < RESPONSE_LIMIT && NoEnd(s, |s|)
    ensures Scan(s, 0) == TooLong(t) <==> |s| >= RESPONSE_LIMIT && t == s[..RESPONSE_LIMIT] && NoEnd(s, RESPONSE_LIMIT)
  {
    var r := Scan(s, 0);
    ScanFinds(s, 0);
    hide EndsAt, Scan;
    if t <= s && |t| <= RESPONSE_LIMIT && EndsAt(s, |t|) && NoEnd(s, |t| - 1) {
      assert r.text == t;
    }
  }

  ghost predicate Finds(s: seq<Byte>, r: Tunnel) {
    && r.text <= s && |r.text| <= RESPONSE_LIMIT
    && (r.Response? ==> EndsAt(s, |r.text|) && NoEnd(s, |r.text| - 1))
    && (r.Cut? ==> r.text == s && |s| < RESPONSE_LIMIT && NoEnd(s, |s|))
    && (r.TooLong? ==> |r.text| == RESPONSE_LIMIT && NoEnd(s, RESPONSE_LIMIT))
  }

  lemma {:induction false} ScanFinds(s: seq<Byte>, n: nat)
    requires n <= |s| && n <= RESPONSE_LIMIT && NoEnd(s, n)
    ensures Finds(s, Scan(s, n))
    decreases RESPONSE_LIMIT - n
  {
    hide EndsAt;
    if n < RESPONSE_LIMIT && n < |s| && !EndsAt(s, n + 1) { ScanFinds(s, n + 1); }
  }
}
