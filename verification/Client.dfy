/** The IVTP client (client.go): reading messages off the connection, reassembling frames, running a session. */
module IvtpClient {
  import opened Wrappers
  import opened Bits
  import opened Ivtp
  import opened VideoHeaders

  /* Frame reassembly. */

  /** A frame handed to the video callback. */
  datatype Shown = Shown(header: seq<nat>, data: seq<Byte>)

  /** The frame buffer, and the frames shown so far. */
  datatype Video = Video(buf: seq<Byte>, shown: seq<Shown>)

  /** Frames shorter than a video header are dropped. */
  function Show(frame: seq<Byte>): seq<Shown> {
    match VideoHeader(frame)
    case None => []
    case Some(h) => [Shown(h, frame[VIDEO_HEADER_SIZE..])]
  }

  /** One fragment: a 15-bit number, zero on the first, with bit 15 set on the last, then data. */
  function Assemble(v: Video, payload: seq<Byte>): Video {
    if |payload| < 2 then v
    else
      var number := FromLe(payload[..2]);
      var buf := (if number % 32768 == 0 then [] else v.buf) + payload[2..];
      Video(buf, if number / 32768 % 2 == 1 then v.shown + Show(buf) else v.shown)
  }

  function AssembleAll(v: Video, payloads: seq<seq<Byte>>): Video {
    if payloads == [] then v
    else var n := |payloads| - 1; Assemble(AssembleAll(v, payloads[..n]), payloads[n])
  }

  /* What a sender makes of a frame that it cuts into chunks. */

  function Join(chunks: seq<seq<Byte>>): seq<Byte> {
    if chunks == [] then [] else var n := |chunks| - 1; Join(chunks[..n]) + chunks[n]
  }

  function PartNumber(i: nat, last: bool): (n: nat)
    ensures n < 65536
  {
    i % 32768 + (if last then 32768 else 0)
  }

  function Part(chunks: seq<seq<Byte>>, i: nat): seq<Byte>
    requires i < |chunks|
  {
    Le(PartNumber(i, i == |chunks| - 1), 2) + chunks[i]
  }

  function Parts(chunks: seq<seq<Byte>>, n: nat): (p: seq<seq<Byte>>)
    requires n <= |chunks|
    ensures |p| == n
  {
    if n == 0 then [] else Parts(chunks, n - 1) + [Part(chunks, n - 1)]
  }

  lemma AssemblePart(v: Video, i: nat, last: bool, data: seq<Byte>)
    ensures Assemble(v, Le(PartNumber(i, last), 2) + data) ==
            var buf := (if i % 32768 == 0 then [] else v.buf) + data;
            Video(buf, if last then v.shown + Show(buf) else v.shown)
  {
    hide Le, FromLe, Range, Show;
    var number := PartNumber(i, last);
    var payload := Le(number, 2) + data;
    assert payload[..2] == Le(number, 2) && payload[2..] == data;
    Ranges();
    LeReads(number, 2);
  }

  /** The fragment numbers repeat every 32768, and each repetition of zero empties the buffer: after n fragments
      the chunks from this one on are left. */
  function KeptFrom(n: nat): nat { if n == 0 then 0 else (n - 1) / 32768 * 32768 }

  lemma KeptFromStep(n: nat)
    requires n > 0
    ensures KeptFrom(n) < n
    ensures KeptFrom(n) == if (n - 1) % 32768 == 0 then n - 1 else KeptFrom(n - 1)
  {
  }

  lemma JoinMore(chunks: seq<seq<Byte>>, from: nat, n: nat)
    requires from < n <= |chunks|
    ensures Join(chunks[from..n]) == Join(chunks[from..n - 1]) + chunks[n - 1]
  {
    var c := chunks[from..n];
    assert c[..|c| - 1] == chunks[from..n - 1];
  }

  lemma PartsStep(v: Video, chunks: seq<seq<Byte>>, n: nat)
    requires 0 < n <= |chunks|
    ensures var w := AssembleAll(v, Parts(chunks, n - 1));
            var buf := (if (n - 1) % 32768 == 0 then [] else w.buf) + chunks[n - 1];
            AssembleAll(v, Parts(chunks, n)) == Video(buf, if n == |chunks| then w.shown + Show(buf) else w.shown)
  {
    hide Le, Show, Assemble, PartNumber;
    assert Parts(chunks, n)[..n - 1] == Parts(chunks, n - 1);
    AssemblePart(AssembleAll(v, Parts(chunks, n - 1)), n - 1, n == |chunks|, chunks[n - 1]);
  }

  lemma {:induction false} PartsAssemble(v: Video, chunks: seq<seq<Byte>>, n: nat)
    requires 0 < n <= |chunks|
    ensures var buf := Join(chunks[KeptFrom(n)..n]);
            && KeptFrom(n) < n
            && AssembleAll(v, Parts(chunks, n)) == Video(buf, v.shown + if n == |chunks| then Show(buf) else [])
  {
    hide Show, KeptFrom, Join, AssembleAll, Parts;
    KeptFromStep(n);
    PartsStep(v, chunks, n);
    JoinMore(chunks, KeptFrom(n), n);
    if n == 1 {
      assert Parts(chunks, 0) == [];
      AssembleNone(v);
    } else {
      PartsAssemble(v, chunks, n - 1);
    }
    if (n - 1) % 32768 == 0 {
      assert chunks[n - 1..n - 1] == [];
      JoinNone();
    }
  }

  lemma JoinNone()
    ensures Join([]) == []
  {
  }

  lemma {:induction false} JoinConcat(a: seq<seq<Byte>>, b: seq<seq<Byte>>)
    ensures Join(a + b) == Join(a) + Join(b)
  {
    if b == [] {
      assert a + b == a;
    } else {
      var n := |b| - 1;
      JoinConcat(a, b[..n]);
      assert (a + b)[..|a + b| - 1] == a + b[..n];
    }
  }

  lemma {:induction false} JoinEmpty(chunks: seq<seq<Byte>>)
    ensures Join(chunks) == [] <==> forall i :: 0 <= i < |chunks| ==> chunks[i] == []
  {
    if chunks != [] {
      var n := |chunks| - 1;
      JoinEmpty(chunks[..n]);
      assert forall i :: 0 <= i < n ==> chunks[..n][i] == chunks[i];
    }
  }

  /** No repetition of number zero comes after data. */
  ghost predicate Whole(chunks: seq<seq<Byte>>) { forall i :: 0 <= i < KeptFrom(|chunks|) ==> chunks[i] == [] }

  lemma FewFragmentsAreWhole(chunks: seq<seq<Byte>>)
    requires |chunks| <= 32768
    ensures Whole(chunks)
  {
  }

  lemma ShowDiffers(a: seq<Byte>, b: seq<Byte>)
    requires |a| > |b|
    ensures Show(a) == Show(b) <==> |a| < VIDEO_HEADER_SIZE
  {
    hide DecodeFields, Size;
    if |b| >= VIDEO_HEADER_SIZE { assert |Show(a)[0].data| > |Show(b)[0].data|; }
  }

  lemma KeptRange(n: nat)
    ensures KeptFrom(n) <= n
  {
    if n > 0 { KeptFromStep(n); }
  }

  lemma KeptPart(chunks: seq<seq<Byte>>)
    requires chunks != []
    ensures KeptFrom(|chunks|) <= |chunks|
    ensures var kept := Join(chunks[KeptFrom(|chunks|)..]);
            && |kept| <= |Join(chunks)| && (Whole(chunks) ==> kept == Join(chunks))
            && (!Whole(chunks) ==> |kept| < |Join(chunks)|)
  {
    hide Join, KeptFrom;
    var k := KeptFrom(|chunks|);
    KeptRange(|chunks|);
    assert chunks == chunks[..k] + chunks[k..];
    JoinConcat(chunks[..k], chunks[k..]);
    JoinEmpty(chunks[..k]);
    assert forall i :: 0 <= i < k ==> chunks[..k][i] == chunks[i];
    assert Whole(chunks) <==> Join(chunks[..k]) == [];
  }

  /** A frame cut into numbered fragments is shown once and unchanged, whatever the buffer held, exactly when
      no repetition of fragment number zero follows data, or the frame is too short to be shown at all. */
  lemma FrameExactly(v: Video, chunks: seq<seq<Byte>>)
    requires chunks != []
    ensures AssembleAll(v, Parts(chunks, |chunks|)).shown == v.shown + Show(Join(chunks))
            <==> Whole(chunks) || |Join(chunks)| < VIDEO_HEADER_SIZE
  {
    hide Join, Show, Whole, KeptFrom, AssembleAll, Parts;
    var k := KeptFrom(|chunks|);
    KeptPart(chunks);
    PartsAssemble(v, chunks, |chunks|);
    var kept := Join(chunks[k..]);
    assert chunks[k..|chunks|] == chunks[k..];
    if !Whole(chunks) { ShowDiffers(Join(chunks), kept); }
    AppendSame(v.shown, Show(kept), Show(Join(chunks)));
  }

  lemma AppendSame<T>(a: seq<T>, b: seq<T>, c: seq<T>)
    ensures a + b == a + c <==> b == c
  {
    if a + b == a + c {
      assert b == (a + b)[|a|..] && c == (a + c)[|a|..];
    }
  }

  /** The failing family is not empty: a frame of 32769 fragments loses all but the last. */
  lemma TooManyFragments(v: Video)
    ensures var chunks := seq(32769, _ => [0]);
            && |Join(chunks)| >= VIDEO_HEADER_SIZE
            && AssembleAll(v, Parts(chunks, |chunks|)).shown != v.shown + Show(Join(chunks))
  {
    hide Join, Show, AssembleAll, Parts;
    var one: seq<Byte> := [0];
    var chunks := seq(32769, _ => one);
    assert KeptFrom(32769) == 32768;
    assert chunks[0] != [];
    JoinLong(chunks);
    FrameExactly(v, chunks);
  }

  lemma {:induction false} JoinLong(chunks: seq<seq<Byte>>)
    requires forall i :: 0 <= i < |chunks| ==> |chunks[i]| >= 1
    ensures |Join(chunks)| >= |chunks|
  {
    if chunks != [] { JoinLong(chunks[..|chunks| - 1]); }
  }

  /* Several frames in a row. */

  function AllParts(frames: seq<seq<seq<Byte>>>): seq<seq<Byte>> {
    if frames == [] then [] else var n := |frames| - 1; AllParts(frames[..n]) + Parts(frames[n], |frames[n]|)
  }

  function Delivered(frames: seq<seq<seq<Byte>>>): seq<Shown> {
    if frames == [] then [] else var n := |frames| - 1; Delivered(frames[..n]) + Show(Join(frames[n]))
  }

  lemma {:induction false} AssembleConcat(v: Video, a: seq<seq<Byte>>, b: seq<seq<Byte>>)
    ensures AssembleAll(v, a + b) == AssembleAll(AssembleAll(v, a), b)
  {
    hide Assemble;
    if b == [] {
      assert a + b == a;
    } else {
      var n := |b| - 1;
      AssembleConcat(v, a, b[..n]);
      assert (a + b)[..|a + b| - 1] == a + b[..n];
    }
  }

  lemma {:induction false} FramesDelivered(v: Video, frames: seq<seq<seq<Byte>>>)
    requires forall i :: 0 <= i < |frames| ==> frames[i] != [] && Whole(frames[i])
    ensures AssembleAll(v, AllParts(frames)).shown == v.shown + Delivered(frames)
  {
    hide Whole, Parts, Show, Join, AssembleAll;
    if frames == [] {
      AssembleNone(v);
    } else {
      var n := |frames| - 1;
      FramesDelivered(v, frames[..n]);
      AssembleConcat(v, AllParts(frames[..n]), Parts(frames[n], |frames[n]|));
      FrameExactly(AssembleAll(v, AllParts(frames[..n])), frames[n]);
    }
  }

  lemma AssembleNone(v: Video)
    ensures AssembleAll(v, []) == v
  {
  }

  /** What is shown is the frame: its header encodes to the first 86 bytes and its data is the rest. */
  lemma ShownIsFrame(frame: seq<Byte>)
    requires |frame| >= VIDEO_HEADER_SIZE
    ensures |Show(frame)| == 1
    ensures var s := Show(frame)[0]; |s.header| == |LAYOUT| && EncodeVideoHeader(s.header) + s.data == frame
  {
    hide DecodeFields, EncodeVideoHeader, LAYOUT;
    var h := VideoHeader(frame).value;
    VideoHeaderExactly(frame, h);
    assert frame == frame[..VIDEO_HEADER_SIZE] + frame[VIDEO_HEADER_SIZE..];
  }

  /* A session. */

  datatype End =
    | Failed(reading: Reading)
    | NotAccepted(kind: nat)
    | InvalidSession
    | Panicked
    | StoppedByBmc(status: nat)
    | TooManySessions

  const SESSION_ACCEPTED := 23
  const VIDEO_FRAGMENT := 25
  const VALIDATED := 19
  const STOP_SESSION := 8
  const MAX_SESSIONS := 22
  const ACTIVE_CLIENTS := 39

  /** Messages that end the read loop; an empty validation response makes it index an empty payload. */
  function EndsWith(m: Message): Option<End> {
    if m.kind == VALIDATED then
      if m.payload == [] then Some(Panicked) else if m.payload[0] == 0 then Some(InvalidSession) else None
    else if m.kind == STOP_SESSION then Some(StoppedByBmc(m.status))
    else if m.kind == MAX_SESSIONS then Some(TooManySessions)
    else None
  }

  predicate Goes(m: Message) { EndsWith(m).None? }

  predicate AllGo(ms: seq<Message>) { forall i :: 0 <= i < |ms| ==> Goes(ms[i]) }

  /** Power status, lock query and macro request after validation; a full screen request for new clients. */
  function Replies(m: Message): seq<Message> {
    if m.kind == VALIDATED then [Message(34, 0, []), Message(51, 0, [2]), Message(40, 0, [])]
    else if m.kind == ACTIVE_CLIENTS then [Message(11, 0, [])]
    else []
  }

  /** Types the read loop deals with itself; others go to the control callback. */
  predicate Known(kind: nat) {
    kind in {8, 9, 10, 14, 15, 17, 19, 20, 22, 25, 32, 34, 37, 39, 40, 50, 53, 56, 4099}
  }

  /** The connection's unread bytes and written bytes, the video, and messages given to the control callback. */
  datatype Session = Session(input: seq<Byte>, output: seq<Byte>, video: Video, controls: seq<Message>)

  function Handle(s: Session, m: Message): Session {
    s.(output := s.output + WireAll(Replies(m)),
       video := if m.kind == VIDEO_FRAGMENT then Assemble(s.video, m.payload) else s.video,
       controls := if Known(m.kind) then s.controls else s.controls + [m])
  }

  function HandleAll(s: Session, ms: seq<Message>): Session {
    if ms == [] then s else var n := |ms| - 1; Handle(HandleAll(s, ms[..n]), ms[n])
  }

  datatype Ran = Ran(session: Session, end: End)

  function RunLoop(s: Session): Ran
    decreases |s.input|
  {
    match ReadMessage(s.input)
    case Read(m, rest) =>
      if Goes(m) then RunLoop(Handle(s.(input := rest), m)) else Ran(s.(input := rest), EndsWith(m).value)
    case r => Ran(s.(input := Unread(r)), Failed(r))
  }

  /** The fragment payloads, replies and control messages among messages of all kinds. */
  function Fragments(ms: seq<Message>): seq<seq<Byte>> {
    if ms == [] then []
    else var n := |ms| - 1; Fragments(ms[..n]) + if ms[n].kind == VIDEO_FRAGMENT then [ms[n].payload] else []
  }

  function AllReplies(ms: seq<Message>): seq<Message> {
    if ms == [] then [] else var n := |ms| - 1; AllReplies(ms[..n]) + Replies(ms[n])
  }

  function Controls(ms: seq<Message>): seq<Message> {
    if ms == [] then [] else var n := |ms| - 1; Controls(ms[..n]) + if Known(ms[n].kind) then [] else [ms[n]]
  }

  /** Interleaving does not matter: video depends on the fragments alone, and replies and control messages
      appear in order. */
  lemma HandleAllSeparates(s: Session, ms: seq<Message>)
    ensures HandleAll(s, ms) == Session(s.input, s.output + WireAll(AllReplies(ms)),
                                        AssembleAll(s.video, Fragments(ms)), s.controls + Controls(ms))
  {
    HandleAllInput(s, ms, s.input);
    VideoSeparates(s, ms);
    OutputSeparates(s, ms);
    ControlsSeparate(s, ms);
  }

  lemma {:induction false} VideoSeparates(s: Session, ms: seq<Message>)
    ensures HandleAll(s, ms).video == AssembleAll(s.video, Fragments(ms))
  {
    hide Assemble, Replies, Known, WireAll;
    if ms != [] {
      var n := |ms| - 1;
      VideoSeparates(s, ms[..n]);
      OneMore(s.video, Fragments(ms[..n]), ms[n].payload);
    }
  }

  lemma {:induction false} OutputSeparates(s: Session, ms: seq<Message>)
    ensures HandleAll(s, ms).output == s.output + WireAll(AllReplies(ms))
  {
    hide Assemble, Replies, Known, WireAll;
    if ms == [] {
      WireNone();
    } else {
      var n := |ms| - 1;
      OutputSeparates(s, ms[..n]);
      WireAllConcat(AllReplies(ms[..n]), Replies(ms[n]));
    }
  }

  lemma {:induction false} ControlsSeparate(s: Session, ms: seq<Message>)
    ensures HandleAll(s, ms).controls == s.controls + Controls(ms)
  {
    hide Assemble, Replies, Known, WireAll;
    if ms != [] { ControlsSeparate(s, ms[..|ms| - 1]); }
  }

  lemma WireNone()
    ensures WireAll([]) == []
  {
  }

  lemma OneMore(v: Video, payloads: seq<seq<Byte>>, p: seq<Byte>)
    ensures AssembleAll(v, payloads + [p]) == Assemble(AssembleAll(v, payloads), p)
    ensures payloads + [] == payloads
  {
    assert (payloads + [p])[..|payloads|] == payloads;
  }

  lemma {:induction false} HandleConcat(s: Session, m: Message, ms: seq<Message>)
    ensures HandleAll(s, [m] + ms) == HandleAll(Handle(s, m), ms)
  {
    hide Handle;
    var all := [m] + ms;
    if ms == [] {
      assert all[..0] == [] && all == [m];
    } else {
      var n := |ms| - 1;
      HandleConcat(s, m, ms[..n]);
      assert all[..|all| - 1] == [m] + ms[..n];
    }
  }

  lemma {:induction false} HandleAllInput(s: Session, ms: seq<Message>, input: seq<Byte>)
    ensures HandleAll(s, ms).input == s.input
    ensures HandleAll(s.(input := input), ms) == HandleAll(s, ms).(input := input)
  {
    if ms != [] { HandleAllInput(s, ms[..|ms| - 1], input); }
  }

  /** The loop handles every message of the stream that does not end it, then goes on with what follows. */
  lemma {:induction false} LoopConsumes(s: Session, ms: seq<Message>, tail: seq<Byte>)
    requires AllSendable(ms) && AllGo(ms) && s.input == WireAll(ms) + tail
    ensures RunLoop(s) == RunLoop(HandleAll(s, ms).(input := tail))
    decreases |ms|
  {
    hide ReadMessage, Sendable, Goes, Handle, Wire;
    if ms == [] {
      assert s.input == tail;
    } else {
      var m, rest := ms[0], WireAll(ms[1..]) + tail;
      FirstMessage(s.input, ms, tail);
      SendableCons(ms);
      GoCons(ms);
      var s1 := s.(input := rest);
      var s2 := Handle(s1, m);
      HandleKeepsInput(s1, m);
      LoopConsumes(s2, ms[1..], tail);
      assert ms == [m] + ms[1..];
      HandleConcat(s1, m, ms[1..]);
      HandleAllInput(s, ms, rest);
      assert Goes(m);
    }
  }

  lemma HandleKeepsInput(s: Session, m: Message)
    ensures Handle(s, m).input == s.input
  {
  }

  lemma GoCons(ms: seq<Message>)
    requires ms != []
    ensures AllGo(ms) <==> Goes(ms[0]) && AllGo(ms[1..])
  {
    hide Goes;
    if Goes(ms[0]) && AllGo(ms[1..]) {
      forall i | 0 <= i < |ms| ensures Goes(ms[i]) { if i > 0 { assert ms[i] == ms[1..][i - 1]; } }
    }
  }

  /** Messages a run handles: all it can read, up to one that ends the loop. */
  function Handled(s: seq<Byte>): (r: Stream)
    decreases |s|
  {
    match ReadMessage(s)
    case Read(m, rest) =>
      if Goes(m) then var more := Handled(rest); Stream([m] + more.messages, more.tail) else Stream([], s)
    case _ => Stream([], s)
  }

  predicate Stops(s: seq<Byte>) { !ReadMessage(s).Read? || !Goes(ReadMessage(s).message) }

  /** And every run is of that form: the bytes it handles encode the messages it handles, and it ends at the
      first read that fails or message that stops it. */
  lemma RunsHandle(s: Session)
    ensures var h := Handled(s.input);
            && AllSendable(h.messages) && AllGo(h.messages) && s.input == WireAll(h.messages) + h.tail && Stops(h.tail)
            && RunLoop(s) == RunLoop(HandleAll(s, h.messages).(input := h.tail))
  {
    hide RunLoop;
    HandledIsStream(s.input);
    var h := Handled(s.input);
    LoopConsumes(s, h.messages, h.tail);
  }

  lemma {:induction false} HandledIsStream(s: seq<Byte>)
    ensures var h := Handled(s);
            AllSendable(h.messages) && AllGo(h.messages) && s == WireAll(h.messages) + h.tail && Stops(h.tail)
    decreases |s|
  {
    hide ReadMessage, Goes, AllSendable, AllGo, WireAll;
    if ReadMessage(s).Read? && Goes(ReadMessage(s).message) {
      var m, rest := ReadMessage(s).message, ReadMessage(s).rest;
      HandledIsStream(rest);
      HandledMore(s, m, rest, Handled(rest));
    } else {
      HandledNone(s);
    }
  }

  lemma HandledNone(s: seq<Byte>)
    ensures AllSendable([]) && AllGo([]) && s == WireAll([]) + s
  {
  }

  lemma HandledMore(s: seq<Byte>, m: Message, rest: seq<Byte>, more: Stream)
    requires ReadMessage(s) == Read(m, rest) && Goes(m)
    requires AllSendable(more.messages) && AllGo(more.messages) && rest == WireAll(more.messages) + more.tail
    ensures var ms := [m] + more.messages; AllSendable(ms) && AllGo(ms) && s == WireAll(ms) + more.tail
  {
    hide ReadMessage, Goes, AllSendable, AllGo, Wire, Sendable;
    var ms := [m] + more.messages;
    assert ms[1..] == more.messages && ms[0] == m;
    ReadExactly(s, m, rest);
    SendableCons(ms);
    GoCons(ms);
    assert WireAll(ms) + more.tail == Wire(m) + (WireAll(more.messages) + more.tail);
  }

  /** A run ends as its last read decides. */
  lemma RunEnds(s: Session)
    ensures var r := ReadMessage(Handled(s.input).tail);
            && (r.Read? ==> EndsWith(r.message).Some?)
            && RunLoop(s).end == if r.Read? then EndsWith(r.message).value else Failed(r)
  {
    hide ReadMessage, Handled, EndsWith;
    RunsHandle(s);
  }

  /** The read loop panics if and only if, after messages that do not end it, it reads a session-validation
      response without payload. */
  lemma PanicsExactly(s: Session)
    ensures RunLoop(s).end == Panicked <==>
            var r := ReadMessage(Handled(s.input).tail);
            r.Read? && r.message.kind == VALIDATED && r.message.payload == []
  {
    hide ReadMessage, Handled, RunLoop;
    RunEnds(s);
  }

  /** It does so on eight bytes, whatever follows and whatever harmless messages came before. */
  lemma EmptyResponsePanics(s: Session, ms: seq<Message>, rest: seq<Byte>)
    requires AllSendable(ms) && AllGo(ms) && s.input == WireAll(ms) + (Wire(Message(VALIDATED, 0, [])) + rest)
    ensures |Wire(Message(VALIDATED, 0, []))| == 8 && RunLoop(s) == Ran(HandleAll(s, ms).(input := rest), Panicked)
  {
    hide ReadMessage, Sendable, Wire, HandleAll;
    var m := Message(VALIDATED, 0, []);
    assert Sendable(m) by { SmallMessage(m); }
    LoopConsumes(s, ms, Wire(m) + rest);
    ReadExactly(Wire(m) + rest, m, rest);
  }

  lemma SmallMessage(m: Message)
    requires m.kind < 65536 && m.status < 65536 && m.payload == []
    ensures Sendable(m)
  {
  }

  /** What the client tells the controller board about itself. */
  datatype Identity = Identity(cookie: seq<Byte>, token: seq<Byte>, address: seq<Byte>)

  const ADMIN: seq<Byte> := [97, 100, 109, 105, 110]

  /** A string in a fixed field: cut to the field's length, padded with zeros. */
  function Padded(s: seq<Byte>, n: nat): (r: seq<Byte>)
    ensures |r| == n
  {
    if |s| >= n then s[..n] else s + seq(n - |s|, _ => 0)
  }

  function Credentials(id: Identity): (r: seq<Byte>)
    ensures |r| == 324
  {
    [0] + Padded(id.token, 129) + Padded(id.address, 65) + Padded(ADMIN, 129)
  }

  function Greeting(id: Identity): seq<Message> {
    [Message(21, 0, id.cookie), Message(18, 0, Credentials(id)), Message(6, 0, [])]
  }

  function RunSession(s: Session, id: Identity): Ran {
    match ReadMessage(s.input)
    case Read(m, rest) =>
      if m.kind != SESSION_ACCEPTED then Ran(s.(input := rest), NotAccepted(m.kind))
      else RunLoop(s.(input := rest, output := s.output + WireAll(Greeting(id))))
    case r => Ran(s.(input := Unread(r)), Failed(r))
  }

  /** From connection to display: a tunnel response, an acceptance, then frames cut into fragments and mixed
      with messages of other kinds, yield that response, every frame of at least 86 bytes once and in order,
      and every control message; only the incomplete message at the end is left over. */
  lemma StreamToFrames(s: Session, id: Identity, response: seq<Byte>, accepted: Message, ms: seq<Message>,
                       frames: seq<seq<seq<Byte>>>, tail: seq<Byte>)
    requires 4 <= |response| <= RESPONSE_LIMIT && EndsAt(response, |response|) && NoEnd(response, |response| - 1)
    requires Sendable(accepted) && accepted.kind == SESSION_ACCEPTED && AllSendable(ms) && AllGo(ms)
    requires Fragments(ms) == AllParts(frames)
    requires forall i :: 0 <= i < |frames| ==> frames[i] != [] && Whole(frames[i])
    requires s.input == response + (Wire(accepted) + (WireAll(ms) + tail)) && !ReadMessage(tail).Read?
    ensures Scan(s.input, 0) == Response(response)
    ensures var ran := RunSession(s.(input := s.input[|response|..]), id);
            && ran.end == Failed(ReadMessage(tail)) && ran.session.input == Unread(ReadMessage(tail))
            && ran.session.video.shown == s.video.shown + Delivered(frames)
            && ran.session.controls == s.controls + Controls(ms)
            && ran.session.output == s.output + WireAll(Greeting(id)) + WireAll(AllReplies(ms))
  {
    hide Whole, Parts, Show, Join, AssembleAll, Sendable, Goes, Handle, Wire, WireAll, ReadMessage, EndsAt, Greeting;
    ResponseFirst(response, Wire(accepted) + (WireAll(ms) + tail));
    var rest := s.input[|response|..];
    assert rest == Wire(accepted) + (WireAll(ms) + tail);
    ReadExactly(rest, accepted, WireAll(ms) + tail);
    var s1 := s.(input := WireAll(ms) + tail, output := s.output + WireAll(Greeting(id)));
    LoopConsumes(s1, ms, tail);
    HandleAllSeparates(s1, ms);
    FramesDelivered(s.video, frames);
  }

  lemma ResponseFirst(response: seq<Byte>, rest: seq<Byte>)
    requires 4 <= |response| <= RESPONSE_LIMIT && EndsAt(response, |response|) && NoEnd(response, |response| - 1)
    ensures Scan(response + rest, 0) == Response(response)
  {
    hide Scan;
    var s := response + rest;
    forall e | 0 <= e <= |response| ensures EndsAt(s, e) == EndsAt(response, e) {
      if e >= 4 { assert s[e - 4..e] == response[e - 4..e]; }
    }
    TunnelExactly(s, response);
  }

  /* Sessions on bytes. */

  /** The header of a message of one of the small types, with status zero. */
  function SmallHeader(kind: Byte, size: nat): seq<Byte> {
    [kind, 0, size % 256, size / 256 % 256, size / 65536 % 256, size / 16777216 % 256, 0, 0]
  }

  lemma SmallWire(kind: Byte, payload: seq<Byte>)
    ensures Wire(Message(kind, 0, payload)) == SmallHeader(kind, |payload|) + payload
  {
    var n := |payload| % 0x1_0000_0000;
    HeaderBytes(IvtpHeader(kind, n, 0));
    Modulo32(|payload|);
  }

  lemma Modulo32(n: nat)
    ensures var m := n % 0x1_0000_0000;
            && m % 256 == n % 256 && m / 256 % 256 == n / 256 % 256
            && m / 65536 % 256 == n / 65536 % 256 && m / 16777216 % 256 == n / 16777216 % 256
  {
    var m, k := n % 0x1_0000_0000, n / 0x1_0000_0000;
    HighBytes(m, k);
    SameByte(m / 256, 0x1_0000 * k);
    SameByte(m / 65536, 0x100 * k);
    SameByte(m / 16777216, k);
    SameByte(m, 0x100_0000 * k);
  }

  lemma HighBytes(m: nat, k: nat)
    ensures var n := m + 0x1_0000_0000 * k;
            && n / 256 == m / 256 + 256 * (0x1_0000 * k) && n / 65536 == m / 65536 + 256 * (0x100 * k)
            && n / 16777216 == m / 16777216 + 256 * k
  {
  }

  lemma SameByte(m: nat, k: nat)
    ensures (m + 256 * k) % 256 == m % 256
  {
  }

  /** What the client sends once its session is valid: power status, lock query, macro request. */
  const AFTER_VALIDATION: seq<Byte> :=
    [34, 0, 0, 0, 0, 0, 0, 0] + [51, 0, 1, 0, 0, 0, 0, 0, 2] + [40, 0, 0, 0, 0, 0, 0, 0]

  /** A validation response whose first byte is zero ends the session as invalid. */
  lemma ZeroIsInvalid(s: Session, ms: seq<Message>, m: Message, rest: seq<Byte>)
    requires AllSendable(ms) && AllGo(ms) && s.input == WireAll(ms) + (Wire(m) + rest)
    requires Sendable(m) && m.kind == 19 && m.payload != [] && m.payload[0] == 0
    ensures RunLoop(s) == Ran(HandleAll(s, ms).(input := rest), InvalidSession)
  {
    hide ReadMessage, Sendable, Wire, HandleAll;
    LoopConsumes(s, ms, Wire(m) + rest);
    ReadExactly(Wire(m) + rest, m, rest);
  }

  /** Any other first byte lets it go on, after the three requests. */
  lemma NonZeroIsValid(s: Session, m: Message, rest: seq<Byte>)
    requires s.input == Wire(m) + rest && Sendable(m) && m.kind == 19 && m.payload != [] && m.payload[0] != 0
    ensures RunLoop(s) == RunLoop(s.(input := rest, output := s.output + AFTER_VALIDATION))
  {
    hide ReadMessage, Sendable, Wire;
    ReadExactly(Wire(m) + rest, m, rest);
    WireFew(m);
    SmallWire(34, []);
    SmallWire(51, [2]);
    SmallWire(40, []);
    assert SmallHeader(34, 0) + [] + (SmallHeader(51, 1) + [2]) + (SmallHeader(40, 0) + []) == AFTER_VALIDATION;
  }

  /** Told of other clients, it asks for a full screen; a stop or a full house ends the session. */
  lemma OtherEnds(s: Session, m: Message, rest: seq<Byte>)
    requires s.input == Wire(m) + rest && Sendable(m)
    ensures m.kind == 39 ==> RunLoop(s) == RunLoop(s.(input := rest, output := s.output + [11, 0, 0, 0, 0, 0, 0, 0]))
    ensures m.kind == 8 ==> RunLoop(s) == Ran(s.(input := rest), StoppedByBmc(m.status))
    ensures m.kind == 22 ==> RunLoop(s) == Ran(s.(input := rest), TooManySessions)
  {
    hide ReadMessage, Sendable, Wire;
    ReadExactly(Wire(m) + rest, m, rest);
    WireFew(m);
    SmallWire(11, []);
    assert SmallHeader(11, 0) + [] == [11, 0, 0, 0, 0, 0, 0, 0];
  }

  /** Message type 25 is video, and the types that are neither video nor dealt with by the loop go to the control
      callback. */
  lemma KindsHandled(s: Session, m: Message)
    ensures Handle(s, m).video == if m.kind == 25 then Assemble(s.video, m.payload) else s.video
    ensures Handle(s, m).controls ==
            if m.kind == 8 || m.kind == 9 || m.kind == 10 || m.kind == 14 || m.kind == 15 || m.kind == 17
               || m.kind == 19 || m.kind == 20 || m.kind == 22 || m.kind == 25 || m.kind == 32 || m.kind == 34
               || m.kind == 37
               || m.kind == 39 || m.kind == 40 || m.kind == 50 || m.kind == 53 || m.kind == 56 || m.kind == 4099
            then s.controls else s.controls + [m]
  {
    hide Assemble, WireAll;
  }

  /** The credentials by position: a zero byte, then token, address and user name, each cut or filled with zeros. */
  lemma CredentialsAt(id: Identity, i: nat)
    requires i < 324
    ensures Credentials(id)[i] ==
            if i == 0 then 0
            else if i < 130 then (if i - 1 < |id.token| then id.token[i - 1] else 0)
            else if i < 195 then (if i - 130 < |id.address| then id.address[i - 130] else 0)
            else if i < 200 then [97, 100, 109, 105, 110][i - 195] else 0
  {
    hide Padded;
    PaddedAt(id.token, 129);
    PaddedAt(id.address, 65);
    PaddedAt(ADMIN, 129);
  }

  lemma PaddedAt(s: seq<Byte>, n: nat)
    ensures forall i :: 0 <= i < n ==> Padded(s, n)[i] == if i < |s| then s[i] else 0
  {
  }

  ghost function Opening(id: Identity): seq<Byte> {
    SmallHeader(21, |id.cookie|) + id.cookie + (SmallHeader(18, 324) + Credentials(id)) + SmallHeader(6, 0)
  }

  /** An accepted session first sends the cookie, then the credentials, then the request to resume. */
  lemma GreetingBytes(s: Session, id: Identity, accepted: Message, rest: seq<Byte>)
    requires s.input == Wire(accepted) + rest && Sendable(accepted)
    ensures accepted.kind != 23 ==> RunSession(s, id) == Ran(s.(input := rest), NotAccepted(accepted.kind))
    ensures accepted.kind == 23 ==>
              RunSession(s, id) == RunLoop(s.(input := rest, output := s.output + Opening(id)))
  {
    hide ReadMessage, Sendable, Wire, RunLoop, Credentials, SmallHeader;
    ReadExactly(Wire(accepted) + rest, accepted, rest);
    WireThree(Message(21, 0, id.cookie), Message(18, 0, Credentials(id)), Message(6, 0, []));
    SmallWire(21, id.cookie);
    SmallWire(18, Credentials(id));
    SmallWire(6, []);
    assert SmallHeader(6, 0) + [] == SmallHeader(6, 0);
  }

  /* The client object. */

  class Client {
    var input: seq<Byte>
    var output: seq<Byte>
    var frameBuf: seq<Byte>
    var shown: seq<Shown>
    var controls: seq<Message>

    ghost function State(): Session
      reads this
    {
      Session(input, output, Video(frameBuf, shown), controls)
    }

    constructor (received: seq<Byte>)
      ensures State() == Session(received, [], Video([], []), [])
    {
      input, output, frameBuf, shown, controls := received, [], [], [], [];
    }

    method ReadByte() returns (b: Option<Byte>)
      modifies this`input
      ensures b.None? <==> old(input) == []
      ensures old(input) == (if b.Some? then [b.value] else []) + input
    {
      if input == [] { return None; }
      b := Some(input[0]);
      input := input[1..];
    }

    /** Reads n bytes; when fewer come, they are consumed and lost. */
    method ReadFull(n: nat) returns (b: Option<seq<Byte>>)
      modifies this`input
      ensures b == if |old(input)| < n then None else Some(old(input)[..n])
      ensures input == if |old(input)| < n then [] else old(input)[n..]
    {
      if |input| < n {
        input := [];
        return None;
      }
      b := Some(input[..n]);
      input := input[n..];
    }

    /** Byte by byte with a window of the last four, up to 4096 bytes. */
    method ReadTunnelResponse() returns (r: Tunnel)
      modifies this`input
      ensures r == Scan(old(input), 0)
      ensures old(input) == r.text + input
    {
      hide Scan, EndsAt, Trail;
      ghost var s := input;
      var text: seq<Byte> := [];
      var trail := new Byte[4](_ => 0);
      TrailStart(trail[..]);
      for i := 0 to RESPONSE_LIMIT
        invariant |text| == i && s == text + input
        invariant trail[..] == Trail(text) && fresh(trail)
        invariant Scan(s, i) == Scan(s, 0)
      {
        Progress(s, text, input);
        ScanStep(s, i);
        var b := ReadByte();
        if b.None? { return Cut(text); }
        ShiftTrail(trail, b.value, text);
        text := text + [b.value];
        Progress(s, text, input);
        TrailDetects(s, i + 1);
        if trail[..] == BLANK_LINE { return Response(text); }
      }
      Progress(s, text, input);
      ScanLimit(s);
      return TooLong(text);
    }

    method TakeMessage() returns (r: Reading)
      modifies this`input
      ensures r == ReadMessage(old(input)) && input == Unread(r)
    {
      hide DecodeHeader, FromLe, Range;
      var header := ReadFull(HEADER_SIZE);
      if header.None? { return ShortHeader; }
      HeaderDecodes(header.value);
      var h := DecodeHeader(header.value).value;
      if h.size == 0 { return Read(Message(h.kind, h.status, []), input); }
      if h.size > MAX_PAYLOAD { return TooLarge(h.size, input); }
      var payload := ReadFull(h.size);
      if payload.None? { return ShortPayload(h.size); }
      return Read(Message(h.kind, h.status, payload.value), input);
    }

    method HandleVideoFragment(payload: seq<Byte>)
      modifies this`frameBuf, this`shown
      ensures Video(frameBuf, shown) == Assemble(old(Video(frameBuf, shown)), payload)
    {
      hide FromLe, Range, DecodeFields;
      if |payload| < 2 { return; }
      var number := FromLe(payload[..2]);
      if number % 32768 == 0 { frameBuf := []; }
      frameBuf := frameBuf + payload[2..];
      if number / 32768 % 2 == 1 && |frameBuf| >= VIDEO_HEADER_SIZE {
        shown := shown + [Shown(VideoHeader(frameBuf).value, frameBuf[VIDEO_HEADER_SIZE..])];
      }
    }

    method SendHeader(kind: nat, size: nat, status: nat)
      modifies this`output
      ensures output == old(output) + EncodeHeader(IvtpHeader(kind, size, status))
      ensures size == 0 ==> output == old(output) + Wire(Message(kind, status, []))
    {
      hide EncodeHeader;
      output := output + EncodeHeader(IvtpHeader(kind, size, status));
    }

    method SendMessageWithPayload(kind: nat, status: nat, payload: seq<Byte>)
      modifies this`output
      ensures output == old(output) + Wire(Message(kind, status, payload))
    {
      hide EncodeHeader;
      output := output + EncodeHeader(IvtpHeader(kind, |payload| % 0x1_0000_0000, status));
      if |payload| > 0 { output := output + payload; }
    }

    method Dispatch(m: Message) returns (end: Option<End>)
      modifies this
      ensures end == EndsWith(m)
      ensures State() == if end.None? then Handle(old(State()), m) else old(State())
    {
      hide Wire, Assemble;
      WireFew(m);
      if m.kind == VIDEO_FRAGMENT {
        HandleVideoFragment(m.payload);
      } else if m.kind == VALIDATED {
        if |m.payload| > 0 && m.payload[0] == 0 { return Some(InvalidSession); }
        if |m.payload| == 0 { return Some(Panicked); }
        SendHeader(34, 0, 0);
        SendMessageWithPayload(51, 0, [2]);
        SendHeader(40, 0, 0);
      } else if m.kind == STOP_SESSION {
        return Some(StoppedByBmc(m.status));
      } else if m.kind == MAX_SESSIONS {
        return Some(TooManySessions);
      } else if m.kind == ACTIVE_CLIENTS {
        SendHeader(11, 0, 0);
      } else if !Known(m.kind) {
        controls := controls + [m];
      }
      end := None;
    }

    method ReadLoop() returns (end: End)
      modifies this
      ensures Ran(State(), end) == RunLoop(old(State()))
    {
      hide ReadMessage, EndsWith;
      while true
        invariant RunLoop(State()) == RunLoop(old(State()))
        decreases |input|
      {
        ghost var before := State();
        var r := TakeMessage();
        if !r.Read? { return Failed(r); }
        ghost var after := State();
        var e := Dispatch(r.message);
        if e.Some? { return e.value; }
        HandleKeepsInput(after, r.message);
        assert RunLoop(before) == RunLoop(State());
      }
    }

    method Run(id: Identity) returns (end: End)
      modifies this
      ensures Ran(State(), end) == RunSession(old(State()), id)
    {
      hide ReadMessage, RunLoop, Wire, Credentials;
      var r := TakeMessage();
      if !r.Read? { return Failed(r); }
      if r.message.kind != SESSION_ACCEPTED { return NotAccepted(r.message.kind); }
      WireThree(Message(21, 0, id.cookie), Message(18, 0, Credentials(id)), Message(6, 0, []));
      SendMessageWithPayload(21, 0, id.cookie);
      SendMessageWithPayload(18, 0, Credentials(id));
      SendHeader(6, 0, 0);
      assert output == old(output) + WireAll(Greeting(id));
      end := ReadLoop();
    }
  }

  /* Facts the methods use. */

  /** The last four bytes read, zeros standing for bytes before the first. */
  function Trail(text: seq<Byte>): (t: seq<Byte>)
    ensures |t| == 4
  {
    ([0, 0, 0, 0] + text)[|text|..]
  }

  method ShiftTrail(trail: array<Byte>, b: Byte, ghost text: seq<Byte>)
    requires trail.Length == 4 && trail[..] == Trail(text)
    modifies trail
    ensures trail[..] == Trail(text + [b])
  {
    hide Trail;
    trail[0] := trail[1];
    trail[1] := trail[2];
    trail[2] := trail[3];
    trail[3] := b;
    assert trail[..] == old(trail[..])[1..] + [b];
    TrailShifts(text, b);
  }

  lemma TrailStart(t: seq<Byte>)
    requires |t| == 4 && t[0] == t[1] == t[2] == t[3] == 0
    ensures t == Trail([])
  {
  }

  lemma Progress(s: seq<Byte>, text: seq<Byte>, rest: seq<Byte>)
    requires s == text + rest
    ensures |text| <= |s| && s[..|text|] == text && (rest == [] ==> |s| == |text|)
  {
  }

  lemma TrailShifts(text: seq<Byte>, b: Byte)
    ensures Trail(text + [b]) == Trail(text)[1..] + [b]
  {
  }

  lemma TrailDetects(s: seq<Byte>, n: nat)
    requires n <= |s|
    ensures Trail(s[..n]) == BLANK_LINE <==> EndsAt(s, n)
  {
    var t := Trail(s[..n]);
    if n >= 4 {
      assert t == s[n - 4..n];
    } else {
      assert t[0] == 0;
    }
  }

  lemma ScanStep(s: seq<Byte>, n: nat)
    requires n <= |s| && n < RESPONSE_LIMIT
    ensures n == |s| ==> Scan(s, n) == Cut(s[..n])
    ensures n < |s| ==> Scan(s, n) == if EndsAt(s, n + 1) then Response(s[..n + 1]) else Scan(s, n + 1)
  {
    hide EndsAt;
    assert s[..|s|] == s;
  }

  lemma ScanLimit(s: seq<Byte>)
    requires |s| >= RESPONSE_LIMIT
    ensures Scan(s, RESPONSE_LIMIT) == TooLong(s[..RESPONSE_LIMIT])
  {
  }

  lemma WireThree(a: Message, b: Message, c: Message)
    ensures WireAll([a]) == Wire(a) && WireAll([a, b, c]) == Wire(a) + Wire(b) + Wire(c)
  {
    hide Wire;
    assert [a, b, c][1..] == [b, c] && [b, c][1..] == [c] && [c][1..] == [];
    assert WireAll([c]) == Wire(c);
    assert WireAll([b, c]) == Wire(b) + WireAll([c]);
  }

  lemma WireFew(m: Message)
    ensures m.kind == VALIDATED ==>
            WireAll(Replies(m)) == Wire(Message(34, 0, [])) + Wire(Message(51, 0, [2])) + Wire(Message(40, 0, []))
    ensures m.kind == ACTIVE_CLIENTS ==> WireAll(Replies(m)) == Wire(Message(11, 0, []))
    ensures m.kind != VALIDATED && m.kind != ACTIVE_CLIENTS ==> WireAll(Replies(m)) == []
  {
    hide Wire, WireAll;
    WireThree(Message(34, 0, []), Message(51, 0, [2]), Message(40, 0, []));
    WireThree(Message(11, 0, []), m, m);
    WireNone();
  }
}
