/** What becomes of a waiting packet: the server decides it once, and passes it on to the peer it
    names unless it connects the two. */
module WaitingPackets {
  import opened Basics
  import opened StunIntroductions

  /** `y` is the first peer with the key. */
  predicate IsTarget(peers: seq<PeerState>, key: string, y: nat) {
    y < |peers| && peers[y].key == key && forall j :: 0 <= j < y ==> peers[j].key != key
  }

  predicate DecidesWait(s: State, a: Action) {
    a.Perform? && a.i < |s.tasks| && s.tasks[a.i].Decide? && !s.tasks[a.i].accept
  }

  /** Deciding a waiting packet for an attached peer either connects its sender with the first peer
      of that key or sends it on to that peer, once, with its own sender and address; it sends it on
      exactly when that peer has no tunnel under its own key. */
  lemma WaitIsPassedOnExactly(s: State, i: nat, y: nat)
    requires WellFormed(s) && DecidesWait(s, Perform(i)) && IsTarget(s.peers, s.tasks[i].target, y)
    ensures var Decide(_, from, _, addr) := s.tasks[i]; var s', rest := Do(s, Perform(i)), s.tasks[..i] + s.tasks[i + 1..];
      && s'.peers == s.peers
      && if s.peers[y].key in s.peers[y].tunnels
         then s'.trace == s.trace && s'.tasks == rest + [FirstIntro(from, y)]
         else s'.trace == s.trace + [Relayed(y, from, addr)] && s'.tasks == rest
  {
    assert Find(s.peers, s.tasks[i].target) == Some(y);
  }

  lemma UnknownTargetIsDropped(s: State, i: nat)
    requires WellFormed(s) && DecidesWait(s, Perform(i))
    requires forall j :: 0 <= j < |s.peers| ==> s.peers[j].key != s.tasks[i].target
    ensures var s' := Do(s, Perform(i));
      s'.peers == s.peers && s'.trace == s.trace && s'.tasks == s.tasks[..i] + s.tasks[i + 1..]
  {
  }

  /** Nothing else relays. */
  lemma OthersRelayNothing(s: State, a: Action, e: Event)
    requires WellFormed(s) && Enabled(s, a) && !DecidesWait(s, a) && e in Added(s, a)
    ensures !e.Relayed?
  {
  }

  /** The step passes on a waiting packet: its target, attached as peer `y`, has no tunnel under
      its own key. */
  ghost predicate PassesOn(s: State, a: Action, y: nat) {
    && DecidesWait(s, a) && IsTarget(s.peers, s.tasks[a.i].target, y)
    && s.peers[y].key !in s.peers[y].tunnels
  }

  /** What a run passes on, step by step. */
  ghost function PassedOn(s: State, actions: seq<Action>): seq<Event>
    decreases |actions|
  {
    if actions == [] || !WellFormed(s) || !Enabled(s, actions[0]) then []
    else
      var rest := PassedOn(Do(s, actions[0]), actions[1..]);
      if exists y: nat :: PassesOn(s, actions[0], y) then
        var y: nat :| PassesOn(s, actions[0], y);
        [Relayed(y, s.tasks[actions[0].i].from, s.tasks[actions[0].i].addr)] + rest
      else rest
  }

  function RelayedIn(trace: seq<Event>): seq<Event> {
    if trace == [] then []
    else RelayedIn(trace[..|trace| - 1]) + if trace[|trace| - 1].Relayed? then [trace[|trace| - 1]] else []
  }

  lemma RelayedAfter(trace: seq<Event>, added: seq<Event>)
    requires |added| <= 1
    ensures RelayedIn(trace + added) == RelayedIn(trace) + if added != [] && added[0].Relayed? then added else []
  {
    if added == [] {
      assert trace + added == trace;
    } else {
      assert (trace + added)[..|trace|] == trace;
    }
  }

  lemma StepRelays(s: State, a: Action)
    requires WellFormed(s) && Enabled(s, a)
    ensures forall y: nat :: PassesOn(s, a, y) ==>
      RelayedIn(Do(s, a).trace) == RelayedIn(s.trace) + [Relayed(y, s.tasks[a.i].from, s.tasks[a.i].addr)]
    ensures (forall y: nat :: !PassesOn(s, a, y)) ==> RelayedIn(Do(s, a).trace) == RelayedIn(s.trace)
  {
    if DecidesWait(s, a) {
      match Find(s.peers, s.tasks[a.i].target)
      case Some(y) =>
        WaitIsPassedOnExactly(s, a.i, y);
        RelayedAfter(s.trace, [Relayed(y, s.tasks[a.i].from, s.tasks[a.i].addr)]);
        OneTarget(s.peers, s.tasks[a.i].target, y);
        assert s.peers[y].key !in s.peers[y].tunnels ==> PassesOn(s, a, y);
      case None => UnknownTargetIsDropped(s, a.i);
    } else {
      RelayedAfter(s.trace, Added(s, a));
      if Added(s, a) != [] {
        OthersRelayNothing(s, a, Added(s, a)[0]);
      }
    }
  }

  lemma OneTarget(peers: seq<PeerState>, key: string, y: nat)
    requires IsTarget(peers, key, y)
    ensures forall y': nat :: IsTarget(peers, key, y') ==> y' == y
  {
  }

  /** In every run exactly these packets are passed on, in this order. */
  lemma {:induction false} RunRelaysExactly(s: State, actions: seq<Action>, end: State)
    requires Run(s, actions, end)
    ensures RelayedIn(end.trace) == RelayedIn(s.trace) + PassedOn(s, actions)
    decreases |actions|
  {
    if actions != [] {
      StepRelays(s, actions[0]);
      RunRelaysExactly(Do(s, actions[0]), actions[1..], end);
    }
  }

  /** The undecided waiting packets. */
  function Undecided(tasks: seq<Task>): multiset<Task> {
    if tasks == [] then multiset{}
    else
      var last := tasks[|tasks| - 1];
      Undecided(tasks[..|tasks| - 1]) + if last.Decide? && !last.accept then multiset{last} else multiset{}
  }

  /** The waiting packets a run receives. */
  function WaitsReceived(actions: seq<Action>): multiset<Task> {
    if actions == [] then multiset{}
    else
      (if actions[0].Receive? && !actions[0].accept
       then multiset{Decide(false, actions[0].from, actions[0].target, actions[0].addr)} else multiset{})
      + WaitsReceived(actions[1..])
  }

  /** The waiting packets a run decides. */
  ghost function WaitsDecided(s: State, actions: seq<Action>): multiset<Task>
    decreases |actions|
  {
    if actions == [] || !WellFormed(s) || !Enabled(s, actions[0]) then multiset{}
    else
      (if DecidesWait(s, actions[0]) then multiset{s.tasks[actions[0].i]} else multiset{})
      + WaitsDecided(Do(s, actions[0]), actions[1..])
  }

  lemma {:induction false} UndecidedJoin(a: seq<Task>, b: seq<Task>)
    ensures Undecided(a + b) == Undecided(a) + Undecided(b)
    decreases |b|
  {
    if b == [] {
      assert a + b == a;
    } else {
      assert (a + b)[..|a + b| - 1] == a + b[..|b| - 1];
      UndecidedJoin(a, b[..|b| - 1]);
    }
  }

  lemma {:induction false} NoneUndecided(tasks: seq<Task>)
    requires forall i :: 0 <= i < |tasks| ==> !tasks[i].Decide?
    ensures Undecided(tasks) == multiset{}
  {
    if tasks != [] {
      NoneUndecided(tasks[..|tasks| - 1]);
    }
  }

  lemma UndecidedMiddle(a: seq<Task>, t: seq<Task>, b: seq<Task>, more: seq<Task>)
    requires Undecided(more) == multiset{}
    ensures Undecided(a + b + more) + Undecided(t) == Undecided(a + t + b)
  {
    UndecidedJoin(a + t, b);
    UndecidedJoin(a, t);
    UndecidedJoin(a + b, more);
    UndecidedJoin(a, b);
  }

  lemma UndecidedWithout(tasks: seq<Task>, i: nat, more: seq<Task>)
    requires i < |tasks| && forall k :: 0 <= k < |more| ==> !more[k].Decide?
    ensures Undecided(tasks[..i] + tasks[i + 1..] + more) + Undecided([tasks[i]]) == Undecided(tasks)
  {
    NoneUndecided(more);
    UndecidedMiddle(tasks[..i], [tasks[i]], tasks[i + 1..], more);
    Parts(tasks, i);
  }

  lemma Parts(tasks: seq<Task>, i: nat)
    requires i < |tasks|
    ensures tasks[..i] + [tasks[i]] + tasks[i + 1..] == tasks
  {
  }

  lemma Balance<T>(u: multiset<T>, received: multiset<T>, decided: multiset<T>, u': multiset<T>,
                   moreReceived: multiset<T>, moreDecided: multiset<T>, left: multiset<T>)
    requires u + received == u' + decided && u' + moreReceived == moreDecided + left
    ensures u + (received + moreReceived) == (decided + moreDecided) + left
  {
    forall t: T ensures (u + (received + moreReceived))[t] == ((decided + moreDecided) + left)[t] {
      assert (u + received)[t] == (u' + decided)[t] && (u' + moreReceived)[t] == (moreDecided + left)[t];
    }
  }

  lemma StepDecides(s: State, a: Action)
    requires WellFormed(s) && Enabled(s, a)
    ensures Undecided(s.tasks) + WaitsReceived([a])
      == Undecided(Do(s, a).tasks) + if DecidesWait(s, a) then multiset{s.tasks[a.i]} else multiset{}
  {
    match a
    case Receive(from, _, accept, target, addr) =>
      UndecidedJoin(s.tasks, [Decide(accept, from, target, addr)]);
    case Perform(i) =>
      var more := Do(s, a).tasks[|s.tasks| - 1..];
      assert Do(s, a).tasks == s.tasks[..i] + s.tasks[i + 1..] + more;
      UndecidedWithout(s.tasks, i, more);
      assert [s.tasks[i]][..0] == [];
  }

  lemma FirstReceived(actions: seq<Action>)
    requires actions != []
    ensures WaitsReceived(actions) == WaitsReceived([actions[0]]) + WaitsReceived(actions[1..])
  {
    assert [actions[0]][1..] == [];
  }

  /** Every waiting packet received is decided exactly once, unless it is still undecided. */
  lemma {:induction false} WaitsAreDecidedOnce(s: State, actions: seq<Action>, end: State)
    requires Run(s, actions, end)
    ensures Undecided(s.tasks) + WaitsReceived(actions) == WaitsDecided(s, actions) + Undecided(end.tasks)
    decreases |actions|
  {
    if actions != [] {
      var s', rest := Do(s, actions[0]), actions[1..];
      var decided := if DecidesWait(s, actions[0]) then multiset{s.tasks[actions[0].i]} else multiset{};
      StepDecides(s, actions[0]);
      WaitsAreDecidedOnce(s', rest, end);
      Balance(Undecided(s.tasks), WaitsReceived([actions[0]]), decided, Undecided(s'.tasks),
              WaitsReceived(rest), WaitsDecided(s', rest), Undecided(end.tasks));
      FirstReceived(actions);
    }
  }

  /** So whoever waits for an attached peer that never names itself is made known to it. */
  lemma WaitReachesTarget(start: State, actions: seq<Action>, end: State, k: nat, y: nat)
    requires Initial(start) && Run(start, actions, end) && end.tasks == []
    requires k < |actions| && actions[k].Receive? && !actions[k].accept && IsTarget(start.peers, actions[k].target, y)
    requires forall i :: 0 <= i < |actions| && actions[i].Receive? && actions[i].from == y ==> actions[i].target != start.peers[y].key
    ensures Relayed(y, actions[k].from, actions[k].addr) in end.trace
  {
    ReceivedIsRelayed(start, actions, end, k, y);
  }

  lemma {:induction false} ReceivedIsRelayed(s: State, actions: seq<Action>, end: State, k: nat, y: nat)
    requires Run(s, actions, end) && end.tasks == []
    requires k < |actions| && actions[k].Receive? && !actions[k].accept && IsTarget(s.peers, actions[k].target, y)
    requires s.peers[y].key !in s.peers[y].tunnels
    requires forall i :: 0 <= i < |actions| && actions[i].Receive? && actions[i].from == y ==> actions[i].target != s.peers[y].key
    ensures Relayed(y, actions[k].from, actions[k].addr) in end.trace
    decreases |actions|
  {
    var s' := Do(s, actions[0]);
    StaysWellFormed(s, actions[0]);
    TunnelsChange(s, actions[0], y);
    if k == 0 {
      var t := Decide(false, actions[0].from, actions[0].target, actions[0].addr);
      assert s'.tasks[|s.tasks|] == t;
      PendingIsRelayed(s', actions[1..], end, t, y);
    } else {
      ReceivedIsRelayed(s', actions[1..], end, k - 1, y);
    }
  }

  lemma {:induction false} PendingIsRelayed(s: State, actions: seq<Action>, end: State, t: Task, y: nat)
    requires Run(s, actions, end) && end.tasks == [] && t in s.tasks && t.Decide? && !t.accept
    requires IsTarget(s.peers, t.target, y) && s.peers[y].key !in s.peers[y].tunnels
    requires forall i :: 0 <= i < |actions| && actions[i].Receive? && actions[i].from == y ==> actions[i].target != s.peers[y].key
    ensures Relayed(y, t.from, t.addr) in end.trace
    decreases |actions|
  {
    if actions != [] {
      var a := actions[0];
      var s' := Do(s, a);
      StaysWellFormed(s, a);
      TunnelsChange(s, a, y);
      if a.Perform? && s.tasks[a.i] == t {
        WaitIsPassedOnExactly(s, a.i, y);
        TraceGrows(s', actions[1..], end);
        assert end.trace[|s.trace|] == s'.trace[|s.trace|] == Relayed(y, t.from, t.addr);
      } else {
        TaskStays(s, a, t);
        PendingIsRelayed(s', actions[1..], end, t, y);
      }
    }
  }

  lemma {:induction false} TraceGrows(s: State, actions: seq<Action>, end: State)
    requires Run(s, actions, end)
    ensures s.trace <= end.trace
    decreases |actions|
  {
    if actions != [] {
      assert Do(s, actions[0]).trace == s.trace + Added(s, actions[0]);
      TraceGrows(Do(s, actions[0]), actions[1..], end);
    }
  }
}
