/** Viewer control of one KVM session (viewers.go): the registry object and every run of it with its timers. */
module Viewers {
  import opened Wrappers

  type Id = string

  datatype Viewer = Viewer(id: Id, name: string, ip: string)

  /** A viewer as List reports it. */
  datatype Listed = Listed(viewer: Viewer, hasControl: bool)

  /** The registry. `timers` are the auto-grant timers created so far that have not run, with the id their
      closure captured; a stopped timer may already be in flight, so stopping removes nothing. */
  datatype Registry = Registry(viewers: map<Id, Viewer>, controller: Id, order: seq<Id>, pending: Option<Id>,
                               requestTimer: Option<nat>, timers: map<nat, Id>, created: nat)

  const EMPTY := Registry(map[], "", [], None, None, map[], 0)

  /* The operations as functions. */

  function WithoutFirst(s: seq<Id>, id: Id): seq<Id> {
    if s == [] then [] else if s[0] == id then s[1..] else [s[0]] + WithoutFirst(s[1..], id)
  }

  /** The first viewer in the order that is not id, or none. */
  function FirstOther(s: seq<Id>, id: Id): Id {
    if s == [] then "" else if s[0] != id then s[0] else FirstOther(s[1..], id)
  }

  function Add(r: Registry, v: Viewer): Registry {
    r.(viewers := r.viewers[v.id := v], order := r.order + [v.id],
       controller := if r.controller == "" then v.id else r.controller)
  }

  function Remove(r: Registry, id: Id): Registry {
    var order := WithoutFirst(r.order, id);
    r.(viewers := r.viewers - {id}, order := order,
       controller := if r.controller != id then r.controller else if order == [] then "" else order[0])
  }

  function Request(r: Registry, id: Id): Registry {
    if id !in r.viewers || r.controller == id then r
    else r.(pending := Some(id), requestTimer := Some(r.created), timers := r.timers[r.created := id],
      created := r.created + 1)
  }

  function Accept(r: Registry): Registry {
    if r.pending.None? then r
    else if r.pending.value !in r.viewers then r.(pending := None)
    else r.(controller := r.pending.value, pending := None, requestTimer := None)
  }

  function Deny(r: Registry): Registry { r.(pending := None, requestTimer := None) }

  function Release(r: Registry, id: Id): Registry {
    if r.controller != id then r else r.(controller := FirstOther(r.order, id))
  }

  /** Timer t runs: it looks only at the id it captured. */
  function Fire(r: Registry, t: nat): Registry {
    if t !in r.timers then r
    else
      var id, rest := r.timers[t], r.timers - {t};
      if r.pending == Some(id) then
        r.(timers := rest, pending := None, controller := if id in r.viewers then id else r.controller)
      else r.(timers := rest)
  }

  function List(r: Registry): seq<Listed> { ListFrom(r, r.order) }

  function ListFrom(r: Registry, s: seq<Id>): seq<Listed> {
    if s == [] then []
    else if s[0] in r.viewers then [Listed(r.viewers[s[0]], s[0] == r.controller)] + ListFrom(r, s[1..])
    else ListFrom(r, s[1..])
  }

  /* The registry object. */

  class ViewerRegistry {
    var viewers: map<Id, Viewer>
    var controller: Id
    var order: seq<Id>
    var pendingRequest: Option<Id>
    var requestTimer: Option<nat>
    var timers: map<nat, Id>
    var created: nat

    ghost function Model(): Registry
      reads this
    {
      Registry(viewers, controller, order, pendingRequest, requestTimer, timers, created)
    }

    constructor ()
      ensures Model() == EMPTY
    {
      viewers, controller, order := map[], "", [];
      pendingRequest, requestTimer, timers, created := None, None, map[], 0;
    }

    method AddViewer(id: Id, name: string, ip: string)
      modifies this
      ensures Model() == Add(old(Model()), Viewer(id, name, ip))
    {
      viewers := viewers[id := Viewer(id, name, ip)];
      order := order + [id];
      if controller == "" { controller := id; }
    }

    method RemoveViewer(id: Id)
      modifies this
      ensures Model() == Remove(old(Model()), id)
    {
      hide WithoutFirst;
      viewers := viewers - {id};
      RemoveFromOrder(id);
      if controller == id {
        controller := "";
        if |order| > 0 { controller := order[0]; }
      }
    }

    method RemoveFromOrder(id: Id)
      modifies `order
      ensures order == WithoutFirst(old(order), id)
    {
      for i := 0 to |order|
        invariant order == old(order) && WithoutFirst(order, id) == order[..i] + WithoutFirst(order[i..], id)
      {
        assert order[i..][1..] == order[i + 1..];
        if order[i] == id {
          order := order[..i] + order[i + 1..];
          return;
        }
        assert order[..i] + ([order[i]] + WithoutFirst(order[i + 1..], id)) ==
          order[..i + 1] + WithoutFirst(order[i + 1..], id);
      }
      assert order[|order|..] == [] && order[..|order|] == order;
    }

    method RequestControl(id: Id) returns (ok: bool)
      modifies this
      ensures Model() == Request(old(Model()), id)
      ensures ok <==> id in old(viewers) && old(controller) != id
    {
      if id !in viewers { return false; }
      if controller == id { return false; }
      pendingRequest := Some(id);
      timers := timers[created := id];
      requestTimer := Some(created);
      created := created + 1;
      return true;
    }

    method TimerFired(t: nat)
      modifies this
      ensures Model() == Fire(old(Model()), t)
    {
      if t !in timers { return; }
      var id := timers[t];
      timers := timers - {t};
      if pendingRequest == Some(id) {
        if id in viewers { controller := id; }
        pendingRequest := None;
      }
    }

    method AcceptControlRequest() returns (ok: bool)
      modifies this
      ensures Model() == Accept(old(Model()))
      ensures ok <==> old(pendingRequest).Some? && old(pendingRequest).value in old(viewers)
    {
      if pendingRequest.None? { return false; }
      if pendingRequest.value !in viewers { pendingRequest := None; return false; }
      controller := pendingRequest.value;
      pendingRequest := None;
      requestTimer := None;
      return true;
    }

    method DenyControlRequest()
      modifies this
      ensures Model() == Deny(old(Model()))
    {
      pendingRequest := None;
      requestTimer := None;
    }

    method ReleaseControl(id: Id)
      modifies this
      ensures Model() == Release(old(Model()), id)
    {
      if controller != id { return; }
      controller := "";
      for i := 0 to |order|
        invariant controller == "" && order == old(order)
        invariant FirstOther(order, id) == FirstOther(order[i..], id)
      {
        assert order[i..][1..] == order[i + 1..];
        if order[i] != id { controller := order[i]; return; }
      }
    }

    method ListViewers() returns (result: seq<Listed>)
      ensures result == List(Model())
    {
      result := [];
      for i := 0 to |order|
        invariant List(Model()) == result + ListFrom(Model(), order[i..])
      {
        assert order[i..][1..] == order[i + 1..];
        if order[i] in viewers {
          result := result + [Listed(viewers[order[i]], order[i] == controller)];
        }
      }
    }
  }

  /* Runs: any interleaving of calls and timer firings. */

  datatype Event = Joins(viewer: Viewer) | Leaves(id: Id) | Requests(id: Id) | Accepts | Denies | Releases(id: Id)
                         | Fires(t: nat)

  function Next(r: Registry, e: Event): Registry {
    match e
    case Joins(v) => Add(r, v)
    case Leaves(id) => Remove(r, id)
    case Requests(id) => Request(r, id)
    case Accepts => Accept(r)
    case Denies => Deny(r)
    case Releases(id) => Release(r, id)
    case Fires(t) => Fire(r, t)
  }

  function Run(r: Registry, trace: seq<Event>): Registry {
    if trace == [] then r else Next(Run(r, trace[..|trace| - 1]), trace[|trace| - 1])
  }

  /* What holds for all traces. */

  ghost predicate Sound(r: Registry) {
    && (forall id :: id in r.viewers ==> id in r.order)
    && (r.controller == "" || r.controller in r.order)
  }

  lemma {:induction false} WithoutFirstKeeps(s: seq<Id>, id: Id, other: Id)
    requires other != id
    ensures other in WithoutFirst(s, id) <==> other in s
  {
    if s != [] {
      assert s == [s[0]] + s[1..];
      WithoutFirstKeeps(s[1..], id, other);
    }
  }

  lemma {:induction false} FirstOtherIn(s: seq<Id>, id: Id)
    ensures FirstOther(s, id) == "" || FirstOther(s, id) in s
  {
    if s != [] {
      assert s == [s[0]] + s[1..];
      FirstOtherIn(s[1..], id);
    }
  }

  lemma SoundStep(r: Registry, e: Event)
    requires Sound(r)
    ensures Sound(Next(r, e))
  {
    if e.Leaves? {
      forall id | id in Next(r, e).viewers ensures id in Next(r, e).order { WithoutFirstKeeps(r.order, e.id, id); }
      if r.controller != e.id { WithoutFirstKeeps(r.order, e.id, r.controller); }
    }
    if e.Releases? { FirstOtherIn(r.order, e.id); }
  }

  /** With any ids, even repeated ones: every connected viewer is in the order, and so is the controller. */
  lemma {:induction false} AlwaysSound(trace: seq<Event>)
    ensures Sound(Run(EMPTY, trace))
  {
    if trace != [] {
      AlwaysSound(trace[..|trace| - 1]);
      SoundStep(Run(EMPTY, trace[..|trace| - 1]), trace[|trace| - 1]);
    }
  }

  /* Fresh, non-empty ids. */

  ghost predicate LeavesLater(trace: seq<Event>, i: nat, id: Id) {
    exists j :: i <= j < |trace| && trace[j] == Leaves(id)
  }

  /** The ids that joined at i or later and did not leave afterwards, in join order. */
  ghost function Present(trace: seq<Event>, i: nat): seq<Id>
    requires i <= |trace|
    decreases |trace| - i
  {
    if i == |trace| then []
    else if trace[i].Joins? && !LeavesLater(trace, i + 1, trace[i].viewer.id)
      then [trace[i].viewer.id] + Present(trace, i + 1)
    else Present(trace, i + 1)
  }

  /** Nobody joins with an empty id or with the id of a viewer who is still present. */
  ghost predicate FreshJoins(trace: seq<Event>) {
    forall i :: 0 <= i < |trace| && trace[i].Joins? ==>
      trace[i].viewer.id != "" && trace[i].viewer.id !in Present(trace[..i], 0)
  }

  ghost function Without(s: seq<Id>, id: Id): seq<Id> {
    if s == [] then [] else if s[0] == id then Without(s[1..], id) else [s[0]] + Without(s[1..], id)
  }

  /** Who is present after one more event. */
  ghost function PresentNext(present: seq<Id>, e: Event): seq<Id> {
    if e.Joins? then present + [e.viewer.id] else if e.Leaves? then Without(present, e.id) else present
  }

  lemma {:induction false} PresentAfter(trace: seq<Event>, e: Event, i: nat)
    requires i <= |trace|
    ensures Present(trace + [e], i) == PresentNext(Present(trace, i), e)
    decreases |trace| - i
  {
    var longer := trace + [e];
    if i == |trace| {
      assert Present(longer, i + 1) == [];
      assert e.Joins? ==> !LeavesLater(longer, i + 1, e.viewer.id);
    } else {
      PresentAfter(trace, e, i + 1);
      if trace[i].Joins? {
        var id := trace[i].viewer.id;
        assert longer[i] == trace[i];
        LaterAfter(trace, e, i + 1, id);
      }
    }
  }

  lemma LaterAfter(trace: seq<Event>, e: Event, i: nat, id: Id)
    requires i <= |trace|
    ensures LeavesLater(trace + [e], i, id) <==> LeavesLater(trace, i, id) || e == Leaves(id)
  {
    var longer := trace + [e];
    if LeavesLater(trace, i, id) {
      var j :| i <= j < |trace| && trace[j] == Leaves(id);
      assert longer[j] == Leaves(id);
    }
    if e == Leaves(id) { assert longer[|trace|] == Leaves(id); }
  }

  ghost predicate NoRepeats(s: seq<Id>) { forall i, j :: 0 <= i < j < |s| ==> s[i] != s[j] }

  lemma {:induction false} OneOccurrence(s: seq<Id>, id: Id)
    requires NoRepeats(s)
    ensures WithoutFirst(s, id) == Without(s, id) && NoRepeats(Without(s, id)) && |Without(s, id)| <= |s|
    ensures forall x :: x in Without(s, id) <==> x in s && x != id
  {
    if s != [] {
      assert s == [s[0]] + s[1..];
      assert NoRepeats(s[1..]);
      OneOccurrence(s[1..], id);
      assert s[0] !in s[1..];
      if s[0] == id {
        Absent(s[1..], id);
      }
    }
  }

  lemma {:induction false} Absent(s: seq<Id>, id: Id)
    requires id !in s
    ensures Without(s, id) == s
  {
    if s != [] {
      assert s == [s[0]] + s[1..];
      Absent(s[1..], id);
    }
  }

  /** The control invariant. */
  ghost predicate Controlled(r: Registry, present: seq<Id>) {
    && r.order == present && NoRepeats(r.order)
    && (forall id :: id in r.viewers <==> id in r.order)
    && (forall id :: id in r.viewers ==> r.viewers[id].id == id && id != "")
    && (r.controller == "" || r.controller in r.viewers)
    && (r.controller == "" ==> |r.order| <= 1)
  }

  lemma {:induction false} OtherExists(s: seq<Id>, id: Id)
    requires NoRepeats(s) && "" !in s
    ensures FirstOther(s, id) == "" ==> |s| <= 1
    ensures FirstOther(s, id) != "" ==> FirstOther(s, id) in s
  {
    FirstOtherIn(s, id);
    if |s| >= 2 {
      assert s[0] != "" && s[1] != "" && s[1..][0] == s[1];
      assert FirstOther(s, id) == if s[0] != id then s[0] else s[1];
    }
  }

  lemma ControlledStep(r: Registry, e: Event, present: seq<Id>)
    requires Controlled(r, present)
    requires e.Joins? ==> e.viewer.id != "" && e.viewer.id !in present
    ensures Controlled(Next(r, e), PresentNext(present, e))
  {
    hide WithoutFirst, Without, FirstOther;
    match e
    case Joins(_) => JoinControlled(r, e.viewer);
    case Leaves(_) => LeaveControlled(r, e.id);
    case Releases(_) => OtherExists(r.order, e.id);
    case _ =>
  }

  lemma JoinControlled(r: Registry, v: Viewer)
    requires Controlled(r, r.order) && v.id != "" && v.id !in r.order
    ensures Controlled(Add(r, v), r.order + [v.id])
  {
  }

  lemma LeaveControlled(r: Registry, id: Id)
    requires Controlled(r, r.order)
    ensures Controlled(Remove(r, id), Without(r.order, id))
  {
    hide WithoutFirst, Without;
    OneOccurrence(r.order, id);
    var q := Remove(r, id);
    assert q.order == Without(r.order, id);
    assert forall x :: x in q.viewers <==> x in q.order;
    if r.controller == id {
      assert q.order != [] ==> q.controller == q.order[0] && q.order[0] in q.order;
    } else if r.controller != "" {
      assert r.controller in r.order && r.controller in q.order;
    }
  }

  /** In every run with fresh, non-empty ids: the order is exactly the viewers present, in join order; they
      are the keys of the map; the controller is one of them or nobody; and nobody only if at most one is present. */
  lemma {:induction false} AlwaysControlled(trace: seq<Event>)
    requires FreshJoins(trace)
    ensures Controlled(Run(EMPTY, trace), Present(trace, 0))
  {
    if trace != [] {
      var before, e := trace[..|trace| - 1], trace[|trace| - 1];
      assert forall i :: 0 <= i < |before| ==> before[..i] == trace[..i];
      AlwaysControlled(before);
      assert before + [e] == trace;
      PresentAfter(before, e, 0);
      ControlledStep(Run(EMPTY, before), e, Present(before, 0));
    }
  }

  /** The control invariant at every moment of a run. */
  ghost predicate ControlledThroughout(trace: seq<Event>) {
    forall n :: 0 <= n <= |trace| ==> Controlled(Run(EMPTY, trace[..n]), Present(trace[..n], 0))
  }

  /** Exactly the runs with fresh, non-empty ids keep it: every other run breaks it when a viewer joins under an
      empty id or one that is present. */
  lemma ControlledExactly(trace: seq<Event>)
    ensures ControlledThroughout(trace) <==> FreshJoins(trace)
  {
    hide Controlled, Present, Run;
    if FreshJoins(trace) {
      forall n | 0 <= n <= |trace| ensures Controlled(Run(EMPTY, trace[..n]), Present(trace[..n], 0)) {
        assert forall i :: 0 <= i < n ==> trace[..n][..i] == trace[..i];
        AlwaysControlled(trace[..n]);
      }
    } else {
      var i :| 0 <= i < |trace| && trace[i].Joins? &&
        !(trace[i].viewer.id != "" && trace[i].viewer.id !in Present(trace[..i], 0));
      StaleJoinBreaks(trace[..i], trace[i]);
      assert trace[..i + 1] == trace[..i] + [trace[i]];
    }
  }

  lemma StaleJoinBreaks(before: seq<Event>, e: Event)
    requires e.Joins? && (e.viewer.id == "" || e.viewer.id in Present(before, 0))
    ensures !Controlled(Run(EMPTY, before + [e]), Present(before + [e], 0))
  {
    hide Present;
    var id, present := e.viewer.id, Present(before, 0);
    PresentAfter(before, e, 0);
    assert (before + [e])[..|before|] == before;
    var r := Run(EMPTY, before + [e]);
    assert r.viewers[id] == e.viewer;
    if id in present {
      var i :| 0 <= i < |present| && present[i] == id;
      var longer := present + [id];
      assert longer[i] == longer[|present|] == id;
    }
  }

  /* What a repeated id can lead to. */

  lemma {:induction false} WithoutFirstShorter(s: seq<Id>, id: Id)
    requires id in s
    ensures |WithoutFirst(s, id)| == |s| - 1
    ensures forall i, j :: 0 <= i < j < |s| && s[i] == s[j] == id ==> id in WithoutFirst(s, id)
  {
    if s[0] != id {
      assert s == [s[0]] + s[1..];
      WithoutFirstShorter(s[1..], id);
      forall i, j | 0 <= i < j < |s| && s[i] == s[j] == id ensures id in WithoutFirst(s, id) {
        assert s[1..][i - 1] == s[1..][j - 1] == id;
      }
    } else {
      forall i, j | 0 <= i < j < |s| && s[i] == s[j] == id ensures id in WithoutFirst(s, id) {
        assert s[1..][j - 1] == id;
      }
    }
  }

  lemma RunSnoc(r: Registry, trace: seq<Event>, e: Event)
    ensures Run(r, trace + [e]) == Next(Run(r, trace), e)
  {
    assert (trace + [e])[..|trace|] == trace;
  }

  /** Everyone else leaves. */
  lemma OthersLeave(r: Registry, id: Id) returns (trace: seq<Event>, q: Registry)
    requires Sound(r) && id in r.order && id !in r.viewers
    ensures q == Run(r, trace) && Sound(q) && id in q.order && id !in q.viewers && forall x :: x in q.order ==> x == id
  {
    hide Next, Run, Sound;
    trace, q := [], r;
    assert Run(r, []) == r by { RunNone(r); }
    while exists x :: x in q.order && x != id
      invariant q == Run(r, trace) && Sound(q) && id in q.order && id !in q.viewers
      decreases |q.order|
    {
      var x :| x in q.order && x != id;
      OneLeaves(q, id, x);
      RunSnoc(r, trace, Leaves(x));
      SoundStep(q, Leaves(x));
      trace, q := trace + [Leaves(x)], Next(q, Leaves(x));
    }
  }

  lemma RunNone(r: Registry)
    ensures Run(r, []) == r
  {
  }

  lemma OneLeaves(q: Registry, id: Id, x: Id)
    requires id in q.order && id !in q.viewers && x in q.order && x != id
    ensures var n := Next(q, Leaves(x)); id in n.order && id !in n.viewers && |n.order| < |q.order|
  {
    WithoutFirstShorter(q.order, x);
    WithoutFirstKeeps(q.order, x, id);
  }

  /** Whenever the order holds an id twice, some continuation ends with that id in control and not connected:
      it leaves once, everyone else leaves, and a newcomer comes and goes. */
  lemma RepeatedIdLosesControl(r: Registry, id: Id, i: nat, j: nat) returns (trace: seq<Event>)
    requires Sound(r) && id != "" && i < j < |r.order| && r.order[i] == r.order[j] == id
    ensures var q := Run(r, trace); q.controller == id && id !in q.viewers
  {
    hide Run, Sound;
    var r1 := Next(r, Leaves(id));
    WithoutFirstShorter(r.order, id);
    SoundStep(r, Leaves(id));
    var more, q := OthersLeave(r1, id);
    var guest := Viewer(id + "+", "", "");
    GuestComesAndGoes(q, id, guest);
    RunNone(r);
    RunSnoc(r, [], Leaves(id));
    assert [] + [Leaves(id)] == [Leaves(id)];
    RunAppend(r, [Leaves(id)], more);
    trace := [Leaves(id)] + more;
    RunSnoc(r, trace, Joins(guest));
    RunSnoc(r, trace + [Joins(guest)], Leaves(guest.id));
    trace := trace + [Joins(guest)] + [Leaves(guest.id)];
  }

  lemma {:induction false} RunAppend(r: Registry, a: seq<Event>, b: seq<Event>)
    ensures Run(r, a + b) == Run(Run(r, a), b)
  {
    hide Next;
    if b == [] {
      assert a + b == a;
    } else {
      var n := |b| - 1;
      RunAppend(r, a, b[..n]);
      assert (a + b)[..|a + b| - 1] == a + b[..n];
    }
  }

  lemma GuestComesAndGoes(q: Registry, id: Id, guest: Viewer)
    requires Sound(q) && id != "" && id in q.order && id !in q.viewers && forall x :: x in q.order ==> x == id
    requires guest.id != id && guest.id != ""
    ensures var n := Next(Next(q, Joins(guest)), Leaves(guest.id)); n.controller == id && id !in n.viewers
  {
    WithoutLast(q.order, guest.id);
    assert q.order[0] in q.order;
  }

  lemma {:induction false} WithoutLast(s: seq<Id>, id: Id)
    requires id !in s
    ensures WithoutFirst(s + [id], id) == s
  {
    if s != [] {
      assert s == [s[0]] + s[1..] && (s + [id])[1..] == s[1..] + [id];
      WithoutLast(s[1..], id);
    }
  }

  function Controllers(l: seq<Listed>): nat {
    if l == [] then 0 else (if l[0].hasControl then 1 else 0) + Controllers(l[1..])
  }

  lemma {:induction false} ListControllers(r: Registry, s: seq<Id>)
    requires NoRepeats(s)
    ensures Controllers(ListFrom(r, s)) == if r.controller in s && r.controller in r.viewers then 1 else 0
  {
    if s != [] {
      assert s == [s[0]] + s[1..];
      assert NoRepeats(s[1..]);
      ListControllers(r, s[1..]);
      assert s[0] !in s[1..];
      if s[0] in r.viewers {
        assert ListFrom(r, s)[1..] == ListFrom(r, s[1..]);
      }
    }
  }

  /** List marks exactly the controller, so never more than one viewer. */
  lemma ListMarksOne(trace: seq<Event>)
    requires FreshJoins(trace)
    ensures var r := Run(EMPTY, trace); Controllers(List(r)) == if r.controller == "" then 0 else 1
  {
    AlwaysControlled(trace);
    var r := Run(EMPTY, trace);
    ListControllers(r, r.order);
  }

  const ALICE := Viewer("a", "Alice", "")
  const BOB := Viewer("b", "Bob", "")

  /** Freshness is needed: joining twice under one id leaves a controller who is not connected. */
  lemma RepeatedIdBreaksControl()
    ensures var r := Run(EMPTY, [Joins(ALICE), Joins(ALICE), Leaves("a")]);
            r.controller == "a" && "a" !in r.viewers
  {
    var t := [Joins(ALICE), Joins(ALICE), Leaves("a")];
    assert t[..2] == [t[0], t[1]] && t[..2][..1] == [t[0]] && t[..2][..1][..0] == [];
    assert [t[0]][..0] == [] && Run(EMPTY, [t[0]]) == Add(EMPTY, ALICE);
    assert [t[0], t[1]][..1] == [t[0]] && Run(EMPTY, [t[0], t[1]]) == Add(Add(EMPTY, ALICE), ALICE);
    assert Add(Add(EMPTY, ALICE), ALICE).order == ["a", "a"];
    assert WithoutFirst(["a", "a"], "a") == ["a"];
  }

  /** So are non-empty ids: an empty one can be handed control and then reads as nobody. This concerns the registry
      alone; the handler that calls it replaces an empty id by a fresh one. */
  lemma EmptyIdBreaksControl()
    ensures var r := Run(EMPTY, [Joins(ALICE), Joins(Viewer("", "", "")), Joins(BOB), Leaves("a")]);
            r.controller == "" && |r.order| == 2
  {
    var nobody := Viewer("", "", "");
    var t := [Joins(ALICE), Joins(nobody), Joins(BOB), Leaves("a")];
    assert t[..3] == [t[0], t[1], t[2]] && [t[0], t[1], t[2]][..2] == [t[0], t[1]];
    assert [t[0]][..0] == [] && Run(EMPTY, [t[0]]) == Add(EMPTY, ALICE);
    assert [t[0], t[1]][..1] == [t[0]] && Run(EMPTY, [t[0], t[1]]) == Add(Add(EMPTY, ALICE), nobody);
    var r := Run(EMPTY, t[..3]);
    assert r == Add(Add(Add(EMPTY, ALICE), nobody), BOB) && r.order == ["a", "", "b"];
    assert r.order[1..] == ["", "b"] && WithoutFirst(r.order, "a") == ["", "b"];
  }

  /* Timers. */

  /** The part of the registry that callers see. */
  ghost predicate SameView(a: Registry, b: Registry) {
    a.viewers == b.viewers && a.order == b.order && a.controller == b.controller && a.pending == b.pending
  }

  /** A timer acts exactly when the viewer it was created for owns the pending request; then it gives control
      to that viewer if still connected, and to nobody else. */
  lemma TimerActsExactly(r: Registry, t: nat)
    ensures !SameView(Fire(r, t), r) <==> t in r.timers && r.pending == Some(r.timers[t])
    ensures Fire(r, t).controller != r.controller ==>
              t in r.timers && r.pending == Some(Fire(r, t).controller) && Fire(r, t).controller in r.viewers
  {
  }

  ghost predicate NoRequest(trace: seq<Event>) { forall i :: 0 <= i < |trace| ==> !trace[i].Requests? }

  ghost function NoFires(trace: seq<Event>): seq<Event> {
    if trace == [] then []
    else if trace[|trace| - 1].Fires? then NoFires(trace[..|trace| - 1])
    else NoFires(trace[..|trace| - 1]) + [trace[|trace| - 1]]
  }

  /** With nothing pending, timers do nothing and other steps look the same from states that look the same. */
  lemma QuietStep(a: Registry, b: Registry, e: Event)
    requires a.pending.None? && SameView(a, b) && !e.Requests?
    ensures Next(a, e).pending.None? && SameView(Next(a, e), if e.Fires? then b else Next(b, e))
  {
    hide WithoutFirst, FirstOther;
  }

  /** Once nothing is pending, no timer changes anything until the next request: the same run without
      its timer firings looks the same. */
  lemma {:induction false} TimersInertWithoutRequest(r: Registry, trace: seq<Event>)
    requires r.pending.None? && NoRequest(trace)
    ensures Run(r, trace).pending.None? && SameView(Run(r, trace), Run(r, NoFires(trace)))
  {
    hide Next, SameView;
    if trace == [] {
      SameViewAsItself(r);
    } else {
      var before, e := trace[..|trace| - 1], trace[|trace| - 1];
      TimersInertWithoutRequest(r, before);
      var quiet := NoFires(before);
      QuietStep(Run(r, before), Run(r, quiet), e);
      assert (quiet + [e])[..|quiet|] == quiet;
    }
  }

  lemma SameViewAsItself(r: Registry)
    ensures SameView(r, r)
  {
  }

  /** Denying, accepting and expiring. */
  ghost predicate Answers(r: Registry, e: Event) {
    e.Denies? || e.Accepts? || (e.Fires? && e.t in r.timers && r.pending == Some(r.timers[e.t]))
  }

  /** Once a request has been denied, accepted or has expired, every run up to the next request looks the same
      without its timer firings, however many timers are still outstanding. */
  lemma AnsweredStaysAnswered(r: Registry, e: Event, trace: seq<Event>)
    requires Answers(r, e) && NoRequest(trace)
    ensures var q := Next(r, e); q.pending.None? && SameView(Run(q, trace), Run(q, NoFires(trace)))
  {
    hide Run, SameView;
    TimersInertWithoutRequest(Next(r, e), trace);
  }

  /** A timer other than the one of the current request. */
  ghost predicate Stale(r: Registry, t: nat) { t in r.timers && r.requestTimer != Some(t) }

  ghost predicate StaleInert(r: Registry) { forall t :: Stale(r, t) ==> SameView(Fire(r, t), r) }

  ghost predicate Numbered(r: Registry) { forall t :: t in r.timers ==> t < r.created }

  /** Every viewer who asks for control has no older timer outstanding. */
  ghost predicate CleanRequests(trace: seq<Event>) {
    forall i :: 0 <= i < |trace| && trace[i].Requests? ==> trace[i].id !in Run(EMPTY, trace[..i]).timers.Values
  }

  /** No stale timer belongs to the viewer whose request is pending. */
  ghost predicate Foreign(r: Registry) { forall t :: Stale(r, t) ==> r.pending != Some(r.timers[t]) }

  lemma ForeignIsInert(r: Registry)
    ensures Foreign(r) <==> StaleInert(r)
  {
    forall t | Stale(r, t) ensures SameView(Fire(r, t), r) <==>
      r.pending != Some(r.timers[t]) { TimerActsExactly(r, t); }
  }

  lemma ForeignStep(r: Registry, e: Event)
    requires Numbered(r) && Foreign(r) && (e.Requests? ==> e.id !in r.timers.Values)
    ensures Numbered(Next(r, e)) && Foreign(Next(r, e))
  {
    assert forall t :: t in r.timers ==> r.timers[t] in r.timers.Values;
    var q := Next(r, e);
    forall t | Stale(q, t) ensures q.pending != Some(q.timers[t]) {
      assert t in r.timers && q.timers[t] == r.timers[t];
      if r.requestTimer != Some(t) { assert Stale(r, t); }
    }
  }

  /** Then only a request's own timer can ever decide it, in every reachable state. */
  lemma {:induction false} StaleTimersAreInert(trace: seq<Event>)
    requires CleanRequests(trace)
    ensures Numbered(Run(EMPTY, trace)) && StaleInert(Run(EMPTY, trace))
  {
    if trace != [] {
      var before, e := trace[..|trace| - 1], trace[|trace| - 1];
      assert forall i :: 0 <= i < |before| ==> before[..i] == trace[..i];
      StaleTimersAreInert(before);
      ForeignIsInert(Run(EMPTY, before));
      ForeignStep(Run(EMPTY, before), e);
    }
    ForeignIsInert(Run(EMPTY, trace));
  }

  /** The condition is exact: a request is safe from stale timers if and only if its viewer has none outstanding. */
  lemma RequestSafeExactly(r: Registry, id: Id)
    requires Numbered(r) && id in r.viewers && r.controller != id
    ensures StaleInert(Request(r, id)) <==> id !in r.timers.Values
  {
    var q := Request(r, id);
    if id in r.timers.Values {
      var t :| t in r.timers && r.timers[t] == id;
      assert Stale(q, t) && !SameView(Fire(q, t), q);
    }
    assert forall t :: t in r.timers ==> r.timers[t] in r.timers.Values;
  }

  /** It does happen: Bob asks, is denied and asks again; his first timer, already in flight, grants him
      control although the second request's own time has not run out. */
  lemma StaleTimerGrants()
    ensures var trace := [Joins(ALICE), Joins(BOB), Requests("b"), Denies, Requests("b")];
            var r := Run(EMPTY, trace);
            r.controller == "a" && r.requestTimer == Some(1) && Fire(r, 0).controller == "b"
  {
    var t := [Joins(ALICE), Joins(BOB), Requests("b"), Denies, Requests("b")];
    assert t[..4] == [t[0], t[1], t[2], t[3]] && t[..4][..3] == [t[0], t[1], t[2]];
    assert t[..4][..3][..2] == [t[0], t[1]] && t[..4][..3][..2][..1] == [t[0]];
    var r2 := Run(EMPTY, [t[0], t[1]]);
    assert [t[0], t[1]][..1] == [t[0]] && Run(EMPTY, [t[0]]) == Add(EMPTY, ALICE);
    assert r2 == Add(Add(EMPTY, ALICE), BOB) && r2.controller == "a" && "b" in r2.viewers;
    var r3 := Run(EMPTY, [t[0], t[1], t[2]]);
    assert [t[0], t[1], t[2]][..2] == [t[0], t[1]] && r3 == Request(r2, "b") && r3.timers == map[0 := "b"];
    var r4 := Run(EMPTY, [t[0], t[1], t[2], t[3]]);
    assert [t[0], t[1], t[2], t[3]][..3] == [t[0], t[1], t[2]] && r4 == Deny(r3);
    assert Run(EMPTY, t) == Request(r4, "b");
  }
}
