/** Frame notification (bridge.go, vnc.go): one-slot channels between the decoder and its clients. */
module FrameNotification {

  /** A subscription is identified by its channel. */
  type Channel = nat

  /** A client greets its viewer and sends the current picture. Its sender, once it has started, waits for a token
      or, having taken one, gathers further tokens until it copies the picture. The sender is gone when it has
      returned: a write failed, or the bridge stopped. */
  datatype Stage = Greeting | Starting | Waiting | Gathering | Gone

  /** The stage of a client; the versions of the picture it copied last and sent last; the picture size its sender
      knows; and whether it has unsubscribed. Its sender goes on after that. */
  datatype Client = Client(stage: Stage, copied: nat, sent: nat, size: nat, left: bool)

  /** onVideoFrame: idle, decoded but not yet at the subscriber lock, or notifying the remaining channels.
      The picture lock is held whenever it is not idle, the subscriber lock while it notifies. */
  datatype Producer = Idle | Decoded | Notifying(remaining: set<Channel>)

  /** `version` counts the changes of the picture, `due` is the last version that subscribers are told about. `size`
      stands for the picture's size, `shown` for that of the last frame that decoded. */
  datatype State = State(version: nat, due: nat, size: nat, shown: nat, producer: Producer, subs: set<Channel>,
                         tokens: set<Channel>, closed: set<Channel>, clients: map<Channel, Client>)

  const INITIAL := State(0, 0, 0, 0, Idle, {}, {}, {}, map[])

  /** A frame that fails to decode may change the picture all the same, and notifies nobody. */
  datatype Step =
    | Subscribe(c: Channel) | Unsubscribe(c: Channel) | Close(c: Channel)
    | Decode(size: nat) | DecodeFails(changes: bool, size: nat) | LockSubscribers | Notify(c: Channel) | Finish
    | Begin(c: Channel) | Take(c: Channel) | Copy(c: Channel) | Quit(c: Channel)

  ghost predicate Is(s: State, c: Channel, stage: Stage) { c in s.clients && s.clients[c].stage == stage }

  /** The sender is between its start and its return. */
  ghost predicate Sends(s: State, c: Channel) { Is(s, c, Waiting) || Is(s, c, Gathering) }

  /** Whether a step can be taken now: locks free, channel states as the code tests them. Receiving from a
      closed channel always succeeds. */
  ghost predicate Enabled(s: State, e: Step) {
    match e
    case Subscribe(c) => !s.producer.Notifying? && c !in s.clients && c !in s.closed
    case Unsubscribe(c) => !s.producer.Notifying? && c in s.clients && !s.clients[c].left
    case Close(c) => c in s.clients && s.clients[c].left && c !in s.closed
    case Decode(_) => s.producer.Idle?
    case DecodeFails(_, _) => s.producer.Idle?
    case LockSubscribers => s.producer.Decoded?
    case Notify(c) => s.producer.Notifying? && c in s.producer.remaining
    case Finish => s.producer == Notifying({})
    case Begin(c) => Is(s, c, Starting)
    case Take(c) => (c in s.tokens || c in s.closed) && Sends(s, c)
    case Copy(c) => s.producer.Idle? && (Is(s, c, Gathering) || (Is(s, c, Greeting) && !s.clients[c].left))
    case Quit(c) => Sends(s, c)
  }

  /** A sender that copies a picture of a size it does not know tells the viewer the size instead of sending it. */
  predicate Resizes(s: State, c: Channel) {
    c in s.clients && s.clients[c].stage == Gathering && s.clients[c].size != s.size
  }

  function AfterCopy(s: State, c: Channel): Client
    requires c in s.clients
  {
    var client := s.clients[c];
    if client.stage == Greeting then client.(stage := Starting, copied := s.version, sent := s.version)
    else if Resizes(s, c) then client.(stage := Waiting, copied := s.version, size := s.size)
    else client.(stage := Waiting, copied := s.version, sent := s.version)
  }

  function Next(s: State, e: Step): State
    requires Enabled(s, e)
  {
    match e
    case Subscribe(c) => s.(subs := s.subs + {c}, clients := s.clients[c := Client(Greeting, 0, 0, 0, false)])
    case Unsubscribe(c) => s.(subs := s.subs - {c}, clients := s.clients[c := s.clients[c].(left := true)])
    case Close(c) => s.(closed := s.closed + {c})
    case Decode(size) =>
      s.(version := s.version + 1, due := s.version + 1, size := size, shown := size, producer := Decoded)
    case DecodeFails(changes, size) => if changes then s.(version := s.version + 1, size := size) else s
    case LockSubscribers => s.(producer := Notifying(s.subs))
    case Notify(c) => s.(tokens := s.tokens + {c}, producer := Notifying(s.producer.remaining - {c}))
    case Finish => s.(producer := Idle)
    case Begin(c) => s.(clients := s.clients[c := s.clients[c].(stage := Waiting, size := s.shown)])
    case Take(c) => s.(tokens := s.tokens - {c}, clients := s.clients[c := s.clients[c].(stage := Gathering)])
    case Copy(c) => s.(clients := s.clients[c := AfterCopy(s, c)])
    case Quit(c) => s.(clients := s.clients[c := s.clients[c].(stage := Gone)])
  }

  ghost predicate Runs(steps: seq<Step>, states: seq<State>) {
    && |states| == |steps| + 1 && states[0] == INITIAL
    && forall i :: 0 <= i < |steps| ==> Enabled(states[i], steps[i]) && states[i + 1] == Next(states[i], steps[i])
  }

  /** The client will look at the picture again without another frame. */
  ghost predicate Pending(s: State, c: Channel) {
    c in s.tokens || Is(s, c, Gathering) || Is(s, c, Greeting)
  }

  /** Nobody subscribed has missed a version that is due, unless the producer is just about to tell them or the
      sender has returned. */
  ghost predicate Informed(s: State, c: Channel)
    requires c in s.clients
  {
    || s.clients[c].copied >= s.due || Pending(s, c) || Is(s, c, Gone)
    || s.producer.Decoded? || (s.producer.Notifying? && c in s.producer.remaining)
  }

  ghost predicate Invariant(s: State) {
    && s.due <= s.version
    && (forall c :: c in s.clients ==> s.clients[c].sent <= s.clients[c].copied <= s.version)
    && (forall c :: c in s.subs ==> c in s.clients && !s.clients[c].left && c !in s.closed)
    && (forall c :: c in s.closed ==> c in s.clients && s.clients[c].left)
    && (s.producer.Notifying? ==> s.producer.remaining <= s.subs)
    && (forall c :: c in s.subs ==> Informed(s, c))
  }

  lemma StepKeeps(s: State, e: Step)
    requires Invariant(s) && Enabled(s, e)
    ensures Invariant(Next(s, e))
  {
    var t := Next(s, e);
    forall c | c in t.subs ensures Informed(t, c) {
      if c in s.subs { assert Informed(s, c); }
    }
  }

  lemma {:induction false} AlwaysInvariant(steps: seq<Step>, states: seq<State>, i: nat)
    requires Runs(steps, states) && i <= |steps|
    ensures Invariant(states[i])
  {
    hide Invariant, Enabled, Next;
    if i > 0 {
      AlwaysInvariant(steps, states, i - 1);
      StepKeeps(states[i - 1], steps[i - 1]);
    } else {
      Initially();
    }
  }

  lemma Initially()
    ensures Invariant(INITIAL)
  {
  }

  /** No lost wakeup: in every state of every run, when no frame is being delivered, a subscribed client whose
      copy is older than the last version announced has a token, is on its way to copy, or has returned. */
  lemma NoLostWakeup(steps: seq<Step>, states: seq<State>, i: nat, c: Channel)
    requires Runs(steps, states) && i <= |steps| && states[i].producer.Idle? && c in states[i].subs
    ensures c in states[i].clients
    ensures states[i].clients[c].copied < states[i].due ==> Pending(states[i], c) || Is(states[i], c, Gone)
  {
    AlwaysInvariant(steps, states, i);
    assert Informed(states[i], c);
  }

  /** No step sends on a closed channel, and no channel is closed twice. */
  lemma NoSendOnClosed(steps: seq<Step>, states: seq<State>, i: nat)
    requires Runs(steps, states) && i < |steps|
    ensures steps[i].Notify? ==> steps[i].c !in states[i].closed && steps[i].c in states[i].subs
    ensures steps[i].Close? ==> steps[i].c !in states[i].closed
  {
    AlwaysInvariant(steps, states, i);
  }

  /** The size that the sender knows, or will know once it has started. */
  ghost function KnownSize(s: State, c: Channel): nat
    requires c in s.clients
  {
    if s.clients[c].stage == Starting then s.shown else s.clients[c].size
  }

  /** From any such state the client alone catches up with what is due, in at most three steps of its own; and it
      sends the picture, unless its sender does not know the size. */
  lemma CatchesUp(s: State, c: Channel) returns (own: seq<Step>, t: State)
    requires Invariant(s) && s.producer.Idle? && c in s.subs && !Is(s, c, Gone)
    ensures |own| <= 3 && Follows(s, own, t) && c in t.clients && t.clients[c].copied >= t.due == s.due
    ensures own == [] || t.clients[c].copied == t.version == s.version
    ensures own != [] && (Is(s, c, Greeting) || KnownSize(s, c) == s.size) ==> t.clients[c].sent == s.version
    ensures forall e :: e in own ==> e == Begin(c) || e == Take(c) || e == Copy(c)
  {
    assert Informed(s, c);
    if s.clients[c].copied >= s.due {
      own, t := [], s;
    } else if Is(s, c, Gathering) || Is(s, c, Greeting) {
      own, t := [Copy(c)], Next(s, Copy(c));
    } else {
      var begun := if Is(s, c, Starting) then Next(s, Begin(c)) else s;
      var u := Next(begun, Take(c));
      own, t := [Take(c), Copy(c)], Next(u, Copy(c));
      assert own[1..] == [Copy(c)];
      assert Follows(begun, own, t);
      if Is(s, c, Starting) {
        assert ([Begin(c)] + own)[1..] == own;
        own := [Begin(c)] + own;
      }
    }
  }

  ghost predicate Follows(s: State, steps: seq<Step>, t: State)
    decreases |steps|
  {
    if steps == [] then t == s else Enabled(s, steps[0]) && Follows(Next(s, steps[0]), steps[1..], t)
  }

  /* Pictures nobody is told about. */

  predicate Spoils(e: Step) { e.DecodeFails? && e.changes }

  /** Step j is a failed frame that changed the picture, with no decoded frame between it and step i. */
  ghost predicate Unannounced(steps: seq<Step>, i: nat, j: nat) {
    j < i <= |steps| && Spoils(steps[j]) && forall m :: j < m < i ==> !steps[m].Decode?
  }

  ghost predicate FailedSince(steps: seq<Step>, i: nat) { exists j: nat :: Unannounced(steps, i, j) }

  /** The picture is newer than every notification exactly when a frame has failed and changed it since the last
      one that decoded. */
  lemma {:induction false} UnannouncedExactly(steps: seq<Step>, states: seq<State>, i: nat)
    requires Runs(steps, states) && i <= |steps|
    ensures states[i].version > states[i].due <==> FailedSince(steps, i)
  {
    hide FailedSince;
    if i > 0 {
      UnannouncedExactly(steps, states, i - 1);
      AlwaysInvariant(steps, states, i - 1);
      FailedSinceStep(steps, i - 1, i);
      assert states[i] == Next(states[i - 1], steps[i - 1]);
    } else {
      NeverFailed(steps);
    }
  }

  lemma NeverFailed(steps: seq<Step>)
    ensures !FailedSince(steps, 0)
  {
  }

  lemma FailedSinceStep(steps: seq<Step>, n: nat, i: nat)
    requires i == n + 1 <= |steps|
    ensures FailedSince(steps, i) <==> Spoils(steps[n]) || (!steps[n].Decode? && FailedSince(steps, n))
  {
    var e := steps[n];
    if Spoils(e) { assert Unannounced(steps, i, n); }
    if FailedSince(steps, n) && !e.Decode? {
      var j: nat :| Unannounced(steps, n, j);
      assert Unannounced(steps, i, j);
    }
    if FailedSince(steps, i) && !Spoils(e) {
      var j: nat :| Unannounced(steps, i, j);
      assert Unannounced(steps, n, j);
    }
  }

  /** So only after such a failure can a running client be behind the picture with nothing to wake it. */
  lemma BehindOnlyAfterFailure(steps: seq<Step>, states: seq<State>, i: nat, c: Channel)
    requires Runs(steps, states) && i <= |steps| && states[i].producer.Idle? && c in states[i].subs
    requires c in states[i].clients && states[i].clients[c].copied < states[i].version
    requires !Pending(states[i], c) && !Is(states[i], c, Gone)
    ensures FailedSince(steps, i)
  {
    NoLostWakeup(steps, states, i, c);
    UnannouncedExactly(steps, states, i);
  }

  /* Viewers that are behind. */

  /** Step j is the last in which client c copied the picture before step i. */
  ghost predicate LastCopy(steps: seq<Step>, i: nat, j: nat, c: Channel) {
    j < i <= |steps| && steps[j] == Copy(c) && forall m :: j < m < i ==> steps[m] != Copy(c)
  }

  /** A failed frame changed the picture between steps j and i. */
  ghost predicate SpoiledBetween(steps: seq<Step>, j: nat, i: nat) {
    exists m :: j < m < i <= |steps| && Spoils(steps[m])
  }

  /** What holds after the last copy: the client's record stays, and the picture changes only by failed frames
      unless something new is due. */
  ghost predicate SinceCopy(steps: seq<Step>, states: seq<State>, j: nat, i: nat, c: Channel)
    requires |states| == |steps| + 1 && j < i <= |steps| && c in states[j].clients
  {
    var s, client := states[i], AfterCopy(states[j], c);
    && c in s.clients && s.clients[c].copied == client.copied && s.clients[c].sent == client.sent
    && states[j].version <= s.version
    && (s.due <= states[j].version ==> (s.version > states[j].version <==> SpoiledBetween(steps, j, i)))
  }

  lemma {:induction false} CopyHolds(steps: seq<Step>, states: seq<State>, j: nat, i: nat, c: Channel)
    requires Runs(steps, states) && LastCopy(steps, i, j, c)
    ensures c in states[j].clients && SinceCopy(steps, states, j, i, c)
    decreases i
  {
    assert Enabled(states[j], steps[j]) && states[j + 1] == Next(states[j], steps[j]);
    if i == j + 1 {
      AlwaysInvariant(steps, states, j);
    } else {
      CopyHolds(steps, states, j, i - 1, c);
      AlwaysInvariant(steps, states, i - 1);
      SpoiledStep(steps, j, i - 1, i);
      StepSinceCopy(states[i - 1], steps[i - 1], c);
      assert states[i] == Next(states[i - 1], steps[i - 1]);
    }
  }

  lemma SpoiledStep(steps: seq<Step>, j: nat, n: nat, i: nat)
    requires j < n && i == n + 1 <= |steps|
    ensures SpoiledBetween(steps, j, i) <==> SpoiledBetween(steps, j, n) || Spoils(steps[n])
  {
  }

  /** A step other than a copy leaves the record of a client alone. */
  lemma StepSinceCopy(s: State, e: Step, c: Channel)
    requires Enabled(s, e) && Invariant(s) && c in s.clients && e != Copy(c)
    ensures var t := Next(s, e);
            && c in t.clients && t.clients[c].copied == s.clients[c].copied && t.clients[c].sent == s.clients[c].sent
            && t.version == s.version + (if e.Decode? || Spoils(e) then 1 else 0)
            && t.due == if e.Decode? then t.version else s.due
  {
  }

  /** A viewer is behind with nothing to wake its sender, exactly when a failed frame has changed the picture since
      the sender's last copy, or that copy was spent on telling the viewer a new size. */
  lemma BehindExactly(steps: seq<Step>, states: seq<State>, i: nat, j: nat, c: Channel)
    requires Runs(steps, states) && LastCopy(steps, i, j, c) && states[i].producer.Idle? && c in states[i].subs
    requires !Pending(states[i], c) && !Is(states[i], c, Gone)
    ensures c in states[i].clients && c in states[j].clients
    ensures states[i].clients[c].sent < states[i].version <==>
            SpoiledBetween(steps, j, i) || (Resizes(states[j], c) && states[j].clients[c].sent < states[j].version)
  {
    hide Next, SpoiledBetween;
    AlwaysInvariant(steps, states, j);
    CopyHolds(steps, states, j, i, c);
    NoLostWakeup(steps, states, i, c);
    assert Enabled(states[j], steps[j]);
  }

  /** A run goes on with any step that is enabled. */
  lemma RunOn(steps: seq<Step>, states: seq<State>, e: Step) returns (steps': seq<Step>, states': seq<State>)
    requires Runs(steps, states) && Enabled(states[|steps|], e)
    ensures Runs(steps', states') && |steps'| == |steps| + 1 && |states'| == |steps'| + 1
    ensures states'[|steps'|] == Next(states[|steps|], e)
  {
    hide Enabled, Next;
    steps', states' := steps + [e], states + [Next(states[|steps|], e)];
  }

  lemma RunStarts()
    ensures Runs([], [INITIAL])
  {
  }

  /** Each of the two happens: here a failed frame, */
  lemma FailureLeavesBehind() returns (steps: seq<Step>, states: seq<State>)
    ensures Runs(steps, states) && |states| == |steps| + 1
    ensures var s := states[|steps|];
            s.producer.Idle? && 0 in s.subs && Is(s, 0, Waiting) && s.clients[0].sent < s.version && !Pending(s, 0)
  {
    hide Runs;
    RunStarts();
    steps, states := RunOn([], [INITIAL], Subscribe(0));
    steps, states := RunOn(steps, states, Copy(0));
    steps, states := RunOn(steps, states, Begin(0));
    steps, states := RunOn(steps, states, DecodeFails(true, 0));
  }

  /** and here a frame of a new size, which every subscriber is told about. */
  lemma ResizeLeavesBehind() returns (steps: seq<Step>, states: seq<State>)
    ensures Runs(steps, states) && |states| == |steps| + 1
    ensures var s := states[|steps|];
            && s.producer.Idle? && 0 in s.subs && Is(s, 0, Waiting) && !Pending(s, 0)
            && s.due == s.version && s.clients[0].copied == s.version && s.clients[0].sent < s.version
  {
    hide Runs;
    RunStarts();
    steps, states := RunOn([], [INITIAL], Subscribe(0));
    steps, states := RunOn(steps, states, Copy(0));
    steps, states := RunOn(steps, states, Begin(0));
    steps, states := RunOn(steps, states, Decode(1));
    steps, states := RunOn(steps, states, LockSubscribers);
    assert states[|steps|].producer == Notifying({0});
    steps, states := RunOn(steps, states, Notify(0));
    assert states[|steps|].producer == Notifying({});
    steps, states := RunOn(steps, states, Finish);
    steps, states := RunOn(steps, states, Take(0));
    steps, states := RunOn(steps, states, Copy(0));
  }

  /* Senders whose client has left. */

  /** The sender outlives its client: once the channel is closed, receiving never blocks again, in any later state,
      until the sender returns. */
  lemma {:induction false} SenderNeverWaitsAgain(steps: seq<Step>, states: seq<State>, i: nat, j: nat, c: Channel)
    requires Runs(steps, states) && i <= j <= |steps| && c in states[i].closed && Sends(states[i], c)
    ensures c in states[j].closed && (Enabled(states[j], Take(c)) || Is(states[j], c, Gone))
    decreases j
  {
    hide Next, Invariant;
    if j > i {
      SenderNeverWaitsAgain(steps, states, i, j - 1, c);
      ClosedStays(states[j - 1], steps[j - 1], c);
    }
  }

  lemma ClosedStays(s: State, e: Step, c: Channel)
    requires Enabled(s, e) && c in s.closed && (Enabled(s, Take(c)) || Is(s, c, Gone))
    ensures c in Next(s, e).closed && (Enabled(Next(s, e), Take(c)) || Is(Next(s, e), c, Gone))
  {
  }

  /** A client that comes, gets its picture and leaves puts its sender there. */
  lemma SenderOutlivesClient() returns (steps: seq<Step>, states: seq<State>)
    ensures Runs(steps, states) && |states| == |steps| + 1
    ensures var s := states[|steps|]; 0 !in s.subs && 0 in s.closed && Sends(s, 0)
  {
    hide Runs;
    RunStarts();
    steps, states := RunOn([], [INITIAL], Subscribe(0));
    steps, states := RunOn(steps, states, Copy(0));
    steps, states := RunOn(steps, states, Begin(0));
    steps, states := RunOn(steps, states, Unsubscribe(0));
    steps, states := RunOn(steps, states, Close(0));
  }
}
