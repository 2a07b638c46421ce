/** Who controls a session, told from the history of its events instead of from the registry. */
module ViewerHistory {
  import opened Wrappers
  import opened Viewers

  /* Facts of a history. */

  /** The viewer has joined and not left since. */
  ghost predicate Connected(trace: seq<Event>, id: Id) {
    exists j :: JoinedLast(trace, id, j)
  }

  ghost predicate JoinedLast(trace: seq<Event>, id: Id, j: int) {
    && 0 <= j < |trace| && trace[j].Joins? && trace[j].viewer.id == id
    && forall m :: j < m < |trace| ==> trace[m] != Leaves(id)
  }

  /** A request that is not refused: by a connected viewer who does not have control. */
  ghost predicate Granted(before: seq<Event>, e: Event) {
    e.Requests? && Connected(before, e.id) && Run(EMPTY, before).controller != e.id
  }

  ghost predicate Effective(trace: seq<Event>, i: nat) { i < |trace| && Granted(trace[..i], trace[i]) }

  ghost function Effectives(trace: seq<Event>): nat {
    if trace == [] then 0
    else var n := |trace| - 1; Effectives(trace[..n]) + if Granted(trace[..n], trace[n]) then 1 else 0
  }

  /** Timer t belongs to effective request r, and has not run. */
  ghost predicate IsTimer(trace: seq<Event>, r: nat, t: nat) {
    && Effective(trace, r) && Effectives(trace[..r]) == t
    && forall m :: r < m < |trace| ==> trace[m] != Fires(t)
  }

  ghost predicate OwnedBy(trace: seq<Event>, r: nat, t: nat, id: Id) { IsTimer(trace, r, t) && trace[r].id == id }

  ghost predicate Owner(trace: seq<Event>, t: nat, id: Id) { exists r: nat :: OwnedBy(trace, r, t, id) }

  /** An event that ends a request by the given viewer. */
  ghost predicate Ends(before: seq<Event>, e: Event, id: Id) {
    e == Accepts || e == Denies || (e.Fires? && Owner(before, e.t, id))
  }

  /** Request i is the last effective one, and has not been accepted, denied or expired. */
  ghost predicate Open(trace: seq<Event>, i: nat) {
    && Effective(trace, i)
    && forall m: nat :: i < m < |trace| ==> !Effective(trace, m) && !Ends(trace[..m], trace[m], trace[i].id)
  }

  ghost predicate OpenBy(trace: seq<Event>, i: nat, id: Id) { Open(trace, i) && trace[i].id == id }

  /** Some viewer's request is open. */
  ghost predicate OpenFor(trace: seq<Event>, id: Id) { exists i: nat :: OpenBy(trace, i, id) }

  /* One more event. */

  lemma ConnectedNext(before: seq<Event>, e: Event, id: Id)
    ensures Connected(before + [e], id) <==>
            (e.Joins? && e.viewer.id == id) || (e != Leaves(id) && Connected(before, id))
  {
    var trace, n := before + [e], |before|;
    if e.Joins? && e.viewer.id == id { assert JoinedLast(trace, id, n); }
    if e != Leaves(id) && Connected(before, id) {
      var j :| JoinedLast(before, id, j);
      assert JoinedLast(trace, id, j);
    }
    if Connected(trace, id) {
      var j :| JoinedLast(trace, id, j);
      if j < n {
        assert trace[n] == e;
        assert forall m :: j < m < n ==> before[m] == trace[m];
        assert JoinedLast(before, id, j);
      }
    }
  }

  lemma EffectiveNext(before: seq<Event>, e: Event, i: nat)
    ensures Effective(before + [e], i) <==> if i == |before| then Granted(before, e) else Effective(before, i)
  {
    hide Granted;
    var trace := before + [e];
    assert trace[..|before|] == before;
    if i < |before| { assert trace[..i] == before[..i]; }
  }

  lemma EffectivesNext(before: seq<Event>, e: Event)
    ensures Effectives(before + [e]) == Effectives(before) + if Granted(before, e) then 1 else 0
  {
    hide Granted;
    assert (before + [e])[..|before|] == before;
  }

  lemma RunNext(before: seq<Event>, e: Event)
    ensures Run(EMPTY, before + [e]) == Next(Run(EMPTY, before), e)
  {
    RunSnoc(EMPTY, before, e);
  }

  lemma TimerNext(before: seq<Event>, e: Event, r: nat, t: nat)
    ensures IsTimer(before + [e], r, t) <==>
            if r == |before| then Granted(before, e) && Effectives(before) == t
            else IsTimer(before, r, t) && e != Fires(t)
  {
    hide Granted, Effectives, Effective;
    var trace, n := before + [e], |before|;
    EffectiveNext(before, e, r);
    EffectiveWithin(before, r);
    EffectiveWithin(trace, r);
    assert trace[..n] == before && trace[n] == e;
    if r < n {
      assert trace[..r] == before[..r];
      assert forall m :: r < m < n ==> trace[m] == before[m];
    }
  }

  lemma EffectiveWithin(trace: seq<Event>, i: nat)
    ensures Effective(trace, i) ==> i < |trace| && trace[i].Requests?
  {
  }

  lemma OwnedByNext(before: seq<Event>, e: Event, r: nat, t: nat, id: Id)
    ensures OwnedBy(before + [e], r, t, id) <==>
            if r == |before| then Granted(before, e) && Effectives(before) == t && e.id == id
            else OwnedBy(before, r, t, id) && e != Fires(t)
  {
    hide Effectives, Connected;
    TimerNext(before, e, r, t);
    if r < |before| { assert (before + [e])[r] == before[r]; }
  }

  lemma OwnerNext(before: seq<Event>, e: Event, t: nat, id: Id)
    ensures Owner(before + [e], t, id) <==>
            (Granted(before, e) && Effectives(before) == t && e.id == id) || (Owner(before, t, id) && e != Fires(t))
  {
    hide Effectives, OwnedBy, Connected;
    var trace, n := before + [e], |before|;
    OwnedByNext(before, e, n, t, id);
    if Granted(before, e) && Effectives(before) == t && e.id == id { assert OwnedBy(trace, n, t, id); }
    if Owner(before, t, id) && e != Fires(t) {
      var r: nat :| OwnedBy(before, r, t, id);
      OwnedWithin(before, r, t, id);
      OwnedByNext(before, e, r, t, id);
    }
    if Owner(trace, t, id) {
      var r: nat :| OwnedBy(trace, r, t, id);
      OwnedByNext(before, e, r, t, id);
    }
  }

  lemma OwnedWithin(trace: seq<Event>, r: nat, t: nat, id: Id)
    ensures OwnedBy(trace, r, t, id) ==> r < |trace|
  {
  }

  lemma OpenNext(before: seq<Event>, e: Event, i: nat)
    ensures Open(before + [e], i) <==>
            if i == |before| then Granted(before, e)
            else Open(before, i) && !Granted(before, e) && !Ends(before, e, before[i].id)
  {
    hide Granted, Effective, Ends;
    var trace, n := before + [e], |before|;
    assert trace[..n] == before && trace[n] == e;
    EffectiveNext(before, e, i);
    EffectiveNext(before, e, n);
    EffectiveWithin(before, i);
    EffectiveWithin(trace, i);
    if i < n {
      assert trace[i] == before[i];
      forall m: nat | m < n ensures Effective(trace, m) == Effective(before, m) && trace[..m] == before[..m] {
        EffectiveNext(before, e, m);
      }
    }
  }

  /* The registry agrees with the history. */

  lemma {:induction false} ConnectedExactly(trace: seq<Event>, id: Id)
    ensures id in Run(EMPTY, trace).viewers <==> Connected(trace, id)
  {
    hide Connected, WithoutFirst, FirstOther;
    if trace == [] {
      NobodyConnected(id);
    } else {
      var before, e := trace[..|trace| - 1], trace[|trace| - 1];
      assert trace == before + [e];
      ConnectedExactly(before, id);
      ConnectedNext(before, e, id);
    }
  }

  lemma NobodyConnected(id: Id)
    ensures !Connected([], id)
  {
  }

  lemma GrantedExactly(before: seq<Event>, e: Event)
    ensures Granted(before, e) <==>
            e.Requests? && e.id in Run(EMPTY, before).viewers && Run(EMPTY, before).controller != e.id
  {
    hide Connected, Run;
    if e.Requests? { ConnectedExactly(before, e.id); }
  }

  /** The outstanding timers are those of effective requests that have not run. */
  lemma {:induction false} TimersExactly(trace: seq<Event>, t: nat, id: Id)
    ensures Run(EMPTY, trace).created == Effectives(trace)
    ensures Numbered(Run(EMPTY, trace))
    ensures t in Run(EMPTY, trace).timers && Run(EMPTY, trace).timers[t] == id <==> Owner(trace, t, id)
  {
    hide Granted, Effectives, Owner, Run;
    if trace == [] {
      NothingYet(t, id);
    } else {
      var before, e := trace[..|trace| - 1], trace[|trace| - 1];
      assert trace == before + [e];
      TimersExactly(before, t, id);
      RunNext(before, e);
      GrantedExactly(before, e);
      EffectivesNext(before, e);
      OwnerNext(before, e, t, id);
      TimerStep(Run(EMPTY, before), e, t);
    }
  }

  lemma NothingYet(t: nat, id: Id)
    ensures Run(EMPTY, []) == EMPTY && Effectives([]) == 0 && !Owner([], t, id) && !OpenFor([], id)
  {
  }

  /** The part of a step that concerns timers. */
  lemma TimerStep(r: Registry, e: Event, t: nat)
    requires Numbered(r)
    ensures var q := Next(r, e);
            var granted := e.Requests? && e.id in r.viewers && r.controller != e.id;
            && Numbered(q) && q.created == r.created + (if granted then 1 else 0)
            && (t in q.timers <==> (granted && t == r.created) || (t in r.timers && e != Fires(t)))
            && (t in q.timers ==> q.timers[t] == if granted && t == r.created then e.id else r.timers[t])
  {
    hide WithoutFirst, FirstOther;
  }

  /** The pending request is the open one. */
  lemma {:induction false} PendingExactly(trace: seq<Event>, id: Id)
    ensures Run(EMPTY, trace).pending == Some(id) <==> OpenFor(trace, id)
  {
    hide Granted, Effectives, Owner, Run, OpenFor;
    if trace == [] {
      NothingYet(0, id);
    } else {
      var before, e := trace[..|trace| - 1], trace[|trace| - 1];
      assert trace == before + [e];
      PendingExactly(before, id);
      RunNext(before, e);
      GrantedExactly(before, e);
      if e.Fires? { TimersExactly(before, e.t, id); }
      PendingStep(Run(EMPTY, before), e, id);
      OpenIdNext(before, e, id);
    }
  }

  lemma OpenByNext(before: seq<Event>, e: Event, i: nat, id: Id)
    ensures OpenBy(before + [e], i, id) <==>
            if i == |before| then Granted(before, e) && e.id == id
            else OpenBy(before, i, id) && !Granted(before, e) && !Ends(before, e, id)
  {
    hide Ends, Connected;
    OpenNext(before, e, i);
    if i < |before| { assert (before + [e])[i] == before[i]; }
  }

  lemma OpenIdNext(before: seq<Event>, e: Event, id: Id)
    ensures OpenFor(before + [e], id) <==>
            if Granted(before, e) then e.id == id else OpenFor(before, id) && !Ends(before, e, id)
  {
    hide OpenBy, Ends, Connected;
    var trace, n := before + [e], |before|;
    OpenByNext(before, e, n, id);
    if Granted(before, e) && e.id == id { assert OpenBy(trace, n, id); }
    if OpenFor(before, id) && !Granted(before, e) && !Ends(before, e, id) {
      var i: nat :| OpenBy(before, i, id);
      OpenWithin(before, i, id);
      OpenByNext(before, e, i, id);
    }
    if OpenFor(trace, id) {
      var i: nat :| OpenBy(trace, i, id);
      OpenByNext(before, e, i, id);
    }
  }

  lemma OpenWithin(trace: seq<Event>, i: nat, id: Id)
    ensures OpenBy(trace, i, id) ==> i < |trace|
  {
  }

  /** The part of a step that concerns the pending request. */
  lemma PendingStep(r: Registry, e: Event, id: Id)
    ensures var granted := e.Requests? && e.id in r.viewers && r.controller != e.id;
            Next(r, e).pending == Some(id) <==>
            if granted then e.id == id
            else r.pending == Some(id) && e != Accepts && e != Denies
                 && !(e.Fires? && e.t in r.timers && r.timers[e.t] == id)
  {
    hide WithoutFirst, FirstOther;
  }

  /* Who has control after each kind of event. */

  ghost function ControllerAfter(trace: seq<Event>): Id { Run(EMPTY, trace).controller }

  /** Accepting gives control to the viewer whose request is open, if still connected; otherwise nothing changes. */
  lemma AcceptGives(trace: seq<Event>)
    ensures forall id :: OpenFor(trace, id) ==>
              ControllerAfter(trace + [Accepts]) == if Connected(trace, id) then id else ControllerAfter(trace)
    ensures (forall id :: !OpenFor(trace, id)) ==> ControllerAfter(trace + [Accepts]) == ControllerAfter(trace)
    ensures forall id :: !OpenFor(trace + [Accepts], id)
  {
    var r := Run(EMPTY, trace);
    AcceptState(r);
    hide Connected, OpenFor, Run, Ends, Next;
    RunNext(trace, Accepts);
    forall id ensures r.pending == Some(id) <==> OpenFor(trace, id) { PendingExactly(trace, id); }
    forall id ensures id in r.viewers <==> Connected(trace, id) { ConnectedExactly(trace, id); }
    forall id ensures !OpenFor(trace + [Accepts], id) { PendingExactly(trace + [Accepts], id); }
  }

  lemma AcceptState(r: Registry)
    ensures var q := Next(r, Accepts);
            && q.pending.None?
            && q.controller == if r.pending.Some? && r.pending.value in r.viewers then r.pending.value else r.controller
  {
  }

  /** A timer that runs gives control to its owner, if the owner's request is open and the owner still connected;
      otherwise nothing changes. */
  lemma ExpiryGives(trace: seq<Event>, t: nat)
    ensures forall id :: OpenFor(trace, id) && Owner(trace, t, id) ==>
              ControllerAfter(trace + [Fires(t)]) == if Connected(trace, id) then id else ControllerAfter(trace)
    ensures (forall id :: !(OpenFor(trace, id) && Owner(trace, t, id))) ==>
              ControllerAfter(trace + [Fires(t)]) == ControllerAfter(trace)
  {
    var r := Run(EMPTY, trace);
    hide Connected, OpenFor, Run, Owner;
    RunNext(trace, Fires(t));
    forall id ensures r.pending == Some(id) <==> OpenFor(trace, id) { PendingExactly(trace, id); }
    forall id ensures id in r.viewers <==> Connected(trace, id) { ConnectedExactly(trace, id); }
    forall id ensures t in r.timers && r.timers[t] == id <==> Owner(trace, t, id) { TimersExactly(trace, t, id); }
    if t in r.timers && r.pending == Some(r.timers[t]) {
      assert OpenFor(trace, r.timers[t]) && Owner(trace, t, r.timers[t]);
    }
  }

  /** Requesting and denying give control to nobody, and a viewer who joins gets it only when nobody has it. */
  lemma OthersKeep(trace: seq<Event>, e: Event)
    requires e.Requests? || e.Denies? || e.Joins?
    ensures ControllerAfter(trace + [e]) ==
            if e.Joins? && ControllerAfter(trace) == "" then e.viewer.id else ControllerAfter(trace)
  {
    hide Run;
    RunNext(trace, e);
  }

  /** next is the first in the order that is not id, or nobody if there is none. */
  ghost predicate FirstNot(s: seq<Id>, id: Id, next: Id) {
    || (next == "" && forall k :: 0 <= k < |s| ==> s[k] == id)
    || (exists k :: 0 <= k < |s| && s[k] == next != id && forall j :: 0 <= j < k ==> s[j] == id)
  }

  lemma {:induction false} FirstOtherIsFirst(s: seq<Id>, id: Id)
    ensures FirstNot(s, id, FirstOther(s, id))
  {
    if s != [] && s[0] == id {
      FirstOtherIsFirst(s[1..], id);
      var next := FirstOther(s, id);
      if k :| 0 <= k < |s[1..]| && s[1..][k] == next != id && forall j :: 0 <= j < k ==> s[1..][j] == id {
        assert s[k + 1] == next;
        assert forall j :: 1 <= j < k + 1 ==> s[j] == s[1..][j - 1];
      } else {
        assert forall j :: 1 <= j < |s| ==> s[j] == s[1..][j - 1];
      }
    }
  }

  /** A controller who releases passes control to the first other viewer present, in join order; nobody else can
      release it. */
  lemma ReleaseGives(trace: seq<Event>, id: Id)
    requires FreshJoins(trace)
    ensures ControllerAfter(trace) != id ==> ControllerAfter(trace + [Releases(id)]) == ControllerAfter(trace)
    ensures ControllerAfter(trace) == id ==> FirstNot(Present(trace, 0), id, ControllerAfter(trace + [Releases(id)]))
  {
    hide Run, FirstNot, FirstOther, Present, FreshJoins;
    RunNext(trace, Releases(id));
    AlwaysControlled(trace);
    FirstOtherIsFirst(Run(EMPTY, trace).order, id);
  }

  /** A controller who leaves passes control to the first viewer who stays, in join order. */
  lemma LeaveGives(trace: seq<Event>, id: Id)
    requires FreshJoins(trace)
    ensures ControllerAfter(trace) != id ==> ControllerAfter(trace + [Leaves(id)]) == ControllerAfter(trace)
    ensures ControllerAfter(trace) == id ==> FirstNot(Present(trace, 0), id, ControllerAfter(trace + [Leaves(id)]))
  {
    hide Run, FirstNot, FirstOther, Present, FreshJoins;
    RunNext(trace, Leaves(id));
    AlwaysControlled(trace);
    var order := Run(EMPTY, trace).order;
    OneOccurrence(order, id);
    FirstStays(order, id);
  }

  lemma {:induction false} FirstStays(s: seq<Id>, id: Id)
    ensures FirstNot(s, id, if Without(s, id) == [] then "" else Without(s, id)[0])
  {
    if s != [] && s[0] == id {
      FirstStays(s[1..], id);
      var next := if Without(s, id) == [] then "" else Without(s, id)[0];
      if k :| 0 <= k < |s[1..]| && s[1..][k] == next != id && forall j :: 0 <= j < k ==> s[1..][j] == id {
        assert s[k + 1] == next;
        assert forall j :: 1 <= j < k + 1 ==> s[j] == s[1..][j - 1];
      } else {
        assert forall j :: 1 <= j < |s| ==> s[j] == s[1..][j - 1];
      }
    }
  }

  /* The list. */

  lemma {:induction false} ListedInOrder(r: Registry, s: seq<Id>)
    requires forall id :: id in s ==> id in r.viewers
    ensures |ListFrom(r, s)| == |s|
    ensures forall i :: 0 <= i < |s| ==> ListFrom(r, s)[i] == Listed(r.viewers[s[i]], s[i] == r.controller)
  {
    if s != [] {
      ListedInOrder(r, s[1..]);
      assert s[0] in s && forall id :: id in s[1..] ==> id in s;
      forall i | 0 <= i < |s| ensures ListFrom(r, s)[i] == Listed(r.viewers[s[i]], s[i] == r.controller) {
        if i > 0 { assert s[i] == s[1..][i - 1]; }
      }
    }
  }

  ghost predicate JoinedAs(trace: seq<Event>, id: Id, viewer: Viewer) {
    exists j :: JoinedLast(trace, id, j) && trace[j].viewer == viewer
  }

  /** A connected viewer is known by what was said on joining. */
  lemma {:induction false} KnownAsJoined(trace: seq<Event>, id: Id)
    requires id in Run(EMPTY, trace).viewers
    ensures JoinedAs(trace, id, Run(EMPTY, trace).viewers[id])
  {
    hide WithoutFirst, FirstOther;
    var before, e, n := trace[..|trace| - 1], trace[|trace| - 1], |trace| - 1;
    if e.Joins? && e.viewer.id == id {
      assert JoinedLast(trace, id, n);
    } else {
      KnownAsJoined(before, id);
      var j :| JoinedLast(before, id, j) && before[j].viewer == Run(EMPTY, before).viewers[id];
      assert JoinedLast(trace, id, j);
    }
  }

  /** The list shows exactly the viewers present, in join order, as they joined, and marks the controller. */
  lemma ListExactly(trace: seq<Event>)
    requires FreshJoins(trace)
    ensures var l, present := List(Run(EMPTY, trace)), Present(trace, 0);
            && |l| == |present|
            && forall i :: 0 <= i < |l| ==>
                 && l[i].viewer.id == present[i] && (l[i].hasControl <==> present[i] == ControllerAfter(trace))
                 && JoinedAs(trace, present[i], l[i].viewer)
  {
    hide Run, FirstOther, Present, FreshJoins, JoinedAs;
    AlwaysControlled(trace);
    var r := Run(EMPTY, trace);
    ListedInOrder(r, r.order);
    forall i | 0 <= i < |r.order| ensures JoinedAs(trace, r.order[i], r.viewers[r.order[i]]) {
      KnownAsJoined(trace, r.order[i]);
    }
  }
}
