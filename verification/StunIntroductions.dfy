/** How a signal server introduces two peers to each other. Each STUN packet first registers
    an open tunnel, then decides, and a started connection sends two introductions; the
    handlers of different packets interleave between those steps. */
module StunIntroductions {
  import opened Basics

  datatype Addr = Addr(ip: string, port: nat)

  /** A peer as the server knows it; `tunnels` holds the address it opened for each key. */
  datatype PeerState = PeerState(key: string, waiting: bool, tunnels: map<string, Addr>)

  /** What a packet's handler, or a started connection, still has to do. Peers are numbered
      by their place in the server's list. */
  datatype Task =
    | Decide(accept: bool, from: nat, target: string, addr: Addr)
    | FirstIntro(first: nat, second: nat)
    | SecondIntro(first: nat, second: nat)

  datatype Event =
    | Registered(peer: nat, target: string, addr: Addr, accept: bool)
    | Relayed(to: nat, from: nat, addr: Addr)
    | Introduced(to: nat, about: nat, addr: Addr)

  datatype State = State(peers: seq<PeerState>, tasks: seq<Task>, trace: seq<Event>)

  // --- The steps ----------------------------------------------------------

  function FindFrom(peers: seq<PeerState>, key: string, from: nat): (r: Option<nat>)
    ensures match r
      case Some(i) => from <= i < |peers| && peers[i].key == key && forall j :: from <= j < i ==> peers[j].key != key
      case None => forall j :: from <= j < |peers| ==> peers[j].key != key
    decreases |peers| - from
  {
    if from >= |peers| then None
    else if peers[from].key == key then Some(from)
    else FindFrom(peers, key, from + 1)
  }

  function Find(peers: seq<PeerState>, key: string): Option<nat> {
    FindFrom(peers, key, 0)
  }

  /** A packet names its sender, marks it waiting and files its address. */
  function Register(peers: seq<PeerState>, from: nat, key: string, target: string, addr: Addr): seq<PeerState>
    requires from < |peers|
  {
    peers[from := PeerState(key, true, peers[from].tunnels[target := addr])]
  }

  /** Whom a waiting packet connects its sender with: the first peer of that key, if it has a
      tunnel under its own key. */
  function WaitStarts(peers: seq<PeerState>, target: string): (r: seq<nat>)
    ensures forall i :: 0 <= i < |r| ==> r[i] < |peers|
  {
    match Find(peers, target)
    case Some(t) => if target in peers[t].tunnels then [t] else []
    case None => []
  }

  /** An accepting packet connects its sender with a peer of that key if each side has a tunnel
      for the other. */
  predicate BothOpen(from: PeerState, target: string, to: PeerState) {
    to.key == target && target in from.tunnels && from.key in to.tunnels
  }

  /** Whom an accepting packet connects its sender with, among the first `n` peers. */
  function AcceptStarts(peers: seq<PeerState>, from: nat, target: string, n: nat): (r: seq<nat>)
    requires from < |peers| && n <= |peers|
    ensures forall i :: 0 <= i < |r| ==> r[i] < |peers|
    ensures forall t: nat :: t in r <==> t < n && BothOpen(peers[from], target, peers[t])
  {
    if n == 0 then []
    else AcceptStarts(peers, from, target, n - 1) + if BothOpen(peers[from], target, peers[n - 1]) then [n - 1] else []
  }

  lemma NextStart(peers: seq<PeerState>, from: nat, target: string, n: nat, starts: seq<nat>)
    requires from < |peers| && n < |peers| && starts == AcceptStarts(peers, from, target, n)
    ensures BothOpen(peers[from], target, peers[n]) ==> AcceptStarts(peers, from, target, n + 1) == starts + [n]
    ensures !BothOpen(peers[from], target, peers[n]) ==> AcceptStarts(peers, from, target, n + 1) == starts
  {
  }

  function Starts(peers: seq<PeerState>, accept: bool, from: nat, target: string): (r: seq<nat>)
    requires from < |peers|
    ensures forall i :: 0 <= i < |r| ==> r[i] < |peers|
  {
    if accept then AcceptStarts(peers, from, target, |peers|) else WaitStarts(peers, target)
  }

  /** A waiting packet that connects nobody is passed on to its target. */
  function Relays(peers: seq<PeerState>, accept: bool, from: nat, target: string, addr: Addr): seq<Event>
    requires from < |peers|
  {
    match Find(peers, target)
    case Some(t) => if !accept && WaitStarts(peers, target) == [] then [Relayed(t, from, addr)] else []
    case None => []
  }

  /** `send_peer_info`: sends only if the one peer opened a tunnel for the other. */
  function Introduction(peers: seq<PeerState>, to: nat, about: nat): seq<Event>
    requires to < |peers| && about < |peers|
  {
    if peers[to].key in peers[about].tunnels then [Introduced(to, about, peers[about].tunnels[peers[to].key])] else []
  }

  function StopWaiting(peers: seq<PeerState>, p: nat): seq<PeerState>
    requires p < |peers|
  {
    peers[p := peers[p].(waiting := false)]
  }

  class Peer {
    var key: string
    var waitConnection: bool
    var openTunnels: map<string, Addr>

    ghost function Now(): PeerState
      reads this
    {
      PeerState(key, waitConnection, openTunnels)
    }

    constructor (key: string)
      ensures Now() == PeerState(key, false, map[])
    {
      this.key := key;
      waitConnection, openTunnels := false, map[];
    }

    method SetPeerKey(key: string)
      modifies this`key
      ensures this.key == key
    {
      this.key := key;
    }

    method AddOpenTunnel(peerId: string, ip: string, port: nat)
      modifies this`openTunnels
      ensures openTunnels == old(openTunnels)[peerId := Addr(ip, port)]
    {
      openTunnels := openTunnels[peerId := Addr(ip, port)];
    }

    method GetOpenTunnel(peerId: string) returns (r: Option<Addr>)
      ensures r == if peerId in openTunnels then Some(openTunnels[peerId]) else None
    {
      return if peerId in openTunnels then Some(openTunnels[peerId]) else None;
    }

    method SetWaitConnection(wait: bool)
      modifies this`waitConnection
      ensures waitConnection == wait
    {
      waitConnection := wait;
    }
  }

  class SignalServer {
    var peers: seq<Peer>
    /** The packets written to peers, in order. */
    var sent: seq<Event>

    ghost predicate Valid()
      reads this
    {
      forall i, j :: 0 <= i < j < |peers| ==> peers[i] != peers[j]
    }

    ghost function Now(): (r: seq<PeerState>)
      reads this, peers
      ensures |r| == |peers| && forall i :: 0 <= i < |r| ==> r[i] == peers[i].Now()
    {
      seq(|peers|, i requires 0 <= i < |peers| reads this, peers => peers[i].Now())
    }

    /** The part of `handle_message` before the protocol is looked at. */
    method RegisterTunnel(from: nat, key: string, target: string, addr: Addr)
      requires Valid() && from < |peers|
      modifies peers[from]
      ensures Valid() && Now() == Register(old(Now()), from, key, target, addr)
    {
      peers[from].SetWaitConnection(true);
      peers[from].SetPeerKey(key);
      peers[from].AddOpenTunnel(target, addr.ip, addr.port);
      assert Now()[from] == Register(old(Now()), from, key, target, addr)[from];
    }

    /** The `wait_connection` branch; `start` is the peer to connect with. */
    method DecideWait(from: nat, target: string, addr: Addr) returns (starts: seq<nat>)
      requires Valid() && from < |peers|
      modifies this`sent
      ensures Valid() && starts == WaitStarts(Now(), target)
      ensures sent == old(sent) + Relays(Now(), false, from, target, addr)
    {
      var i := 0;
      while i < |peers|
        invariant 0 <= i <= |peers|
        invariant Find(Now(), target) == FindFrom(Now(), target, i)
        invariant sent == old(sent)
      {
        if peers[i].key == target {
          var openTunnel := peers[i].GetOpenTunnel(target);
          if openTunnel.Some? {
            return [i];
          }
          sent := sent + [Relayed(i, from, addr)];
          return [];
        }
        i := i + 1;
      }
      return [];
    }

    /** Whether the two peers have tunnels for each other. */
    method HasBothTunnels(from: nat, target: string, i: nat) returns (r: bool)
      requires from < |peers| && i < |peers|
      ensures r == BothOpen(Now()[from], target, Now()[i])
    {
      if peers[i].key != target {
        return false;
      }
      var openTunnelA := peers[from].GetOpenTunnel(target);
      var openTunnelB := peers[i].GetOpenTunnel(peers[from].key);
      return openTunnelA.Some? && openTunnelB.Some?;
    }

    /** The `accept_connection` branch, which goes through the whole list. */
    method DecideAccept(from: nat, target: string) returns (starts: seq<nat>)
      requires Valid() && from < |peers|
      ensures starts == AcceptStarts(Now(), from, target, |peers|)
    {
      starts := [];
      ghost var now := Now();
      var i := 0;
      while i < |peers|
        invariant 0 <= i <= |peers| && now == Now()
        invariant starts == AcceptStarts(now, from, target, i)
      {
        var bothOpen := HasBothTunnels(from, target, i);
        NextStart(now, from, target, i, starts);
        if bothOpen {
          starts := starts + [i];
        }
        i := i + 1;
      }
    }

    method SendPeerInfo(to: nat, about: nat)
      requires to < |peers| && about < |peers|
      modifies this`sent
      ensures sent == old(sent) + Introduction(Now(), to, about)
    {
      var openTunnel := peers[about].GetOpenTunnel(peers[to].key);
      if openTunnel.Some? {
        sent := sent + [Introduced(to, about, openTunnel.value)];
      }
    }

    /** `connect_peers` up to its pause. */
    method ConnectFirst(first: nat, second: nat)
      requires Valid() && first < |peers| && second < |peers|
      modifies this`sent, peers[second]
      ensures Valid() && Now() == StopWaiting(old(Now()), second)
      ensures sent == old(sent) + Introduction(old(Now()), second, first)
    {
      SendPeerInfo(second, first);
      peers[second].SetWaitConnection(false);
      assert Now()[second] == StopWaiting(old(Now()), second)[second];
    }

    /** `connect_peers` after its pause. */
    method ConnectSecond(first: nat, second: nat)
      requires Valid() && first < |peers| && second < |peers|
      modifies this`sent, peers[first]
      ensures Valid() && Now() == StopWaiting(old(Now()), first)
      ensures sent == old(sent) + Introduction(old(Now()), first, second)
    {
      SendPeerInfo(first, second);
      peers[first].SetWaitConnection(false);
      assert Now()[first] == StopWaiting(old(Now()), first)[first];
    }
  }

  // --- Interleavings ------------------------------------------------------

  datatype Action =
    | Receive(from: nat, key: string, accept: bool, target: string, addr: Addr)
    | Perform(i: nat)

  predicate WellFormed(s: State) {
    forall i :: 0 <= i < |s.tasks| ==>
      match s.tasks[i]
      case Decide(_, from, _, _) => from < |s.peers|
      case FirstIntro(a, b) => a < |s.peers| && b < |s.peers|
      case SecondIntro(a, b) => a < |s.peers| && b < |s.peers|
  }

  predicate Possible(s: State, a: Action) {
    match a
    case Receive(from, _, _, _, _) => from < |s.peers|
    case Perform(i) => i < |s.tasks|
  }

  /** Each peer keeps sending under the same key. */
  predicate Enabled(s: State, a: Action) {
    Possible(s, a) && (a.Receive? ==> a.key == s.peers[a.from].key)
  }

  /** The connections a decision starts, in list order. */
  function Connections(from: nat, starts: seq<nat>): seq<Task> {
    seq(|starts|, i requires 0 <= i < |starts| => FirstIntro(from, starts[i]))
  }

  function Do(s: State, a: Action): State
    requires WellFormed(s) && Possible(s, a)
  {
    match a
    case Receive(from, key, accept, target, addr) =>
      State(Register(s.peers, from, key, target, addr), s.tasks + [Decide(accept, from, target, addr)],
            s.trace + [Registered(from, target, addr, accept)])
    case Perform(i) =>
      var rest := s.tasks[..i] + s.tasks[i + 1..];
      match s.tasks[i]
      case Decide(accept, from, target, addr) =>
        State(s.peers, rest + Connections(from, Starts(s.peers, accept, from, target)),
              s.trace + Relays(s.peers, accept, from, target, addr))
      case FirstIntro(a, b) =>
        State(StopWaiting(s.peers, b), rest + [SecondIntro(a, b)], s.trace + Introduction(s.peers, b, a))
      case SecondIntro(a, b) =>
        State(StopWaiting(s.peers, a), rest, s.trace + Introduction(s.peers, a, b))
  }

  predicate Initial(s: State) {
    && s.tasks == [] && s.trace == []
    && forall i :: 0 <= i < |s.peers| ==> s.peers[i].tunnels == map[]
  }

  lemma StaysWellFormed(s: State, a: Action)
    requires WellFormed(s) && Enabled(s, a)
    ensures WellFormed(Do(s, a))
    ensures |Do(s, a).peers| == |s.peers| && forall i :: 0 <= i < |s.peers| ==> Do(s, a).peers[i].key == s.peers[i].key
  {
  }

  ghost predicate Run(s: State, actions: seq<Action>, end: State)
    decreases |actions|
  {
    if actions == [] then s == end
    else WellFormed(s) && Enabled(s, actions[0]) && Run(Do(s, actions[0]), actions[1..], end)
  }

  // --- Introductions are current ------------------------------------------

  /** The address `peer` registered last for `key`. */
  function Latest(trace: seq<Event>, peer: nat, key: string): Option<Addr> {
    if trace == [] then None
    else
      var last := trace[|trace| - 1];
      if last.Registered? && last.peer == peer && last.target == key then Some(last.addr)
      else Latest(trace[..|trace| - 1], peer, key)
  }

  function TunnelOf(s: State, peer: nat, key: string): Option<Addr>
    requires peer < |s.peers|
  {
    if key in s.peers[peer].tunnels then Some(s.peers[peer].tunnels[key]) else None
  }

  /** The event at `i` introduces with the address its subject had registered last by then. */
  ghost predicate CurrentAt(s: State, i: nat)
    requires i < |s.trace|
  {
    match s.trace[i]
    case Introduced(to, about, addr) =>
      to < |s.peers| && Latest(s.trace[..i], about, s.peers[to].key) == Some(addr)
    case _ => true
  }

  ghost predicate AllCurrent(s: State) {
    && (forall p, key :: 0 <= p < |s.peers| ==> TunnelOf(s, p, key) == Latest(s.trace, p, key))
    && (forall i :: 0 <= i < |s.trace| ==> CurrentAt(s, i))
  }

  predicate Registers(e: Event, peer: nat, key: string) {
    e.Registered? && e.peer == peer && e.target == key
  }

  lemma LatestAfter(trace: seq<Event>, added: seq<Event>, peer: nat, key: string)
    requires |added| <= 1
    ensures Latest(trace + added, peer, key)
      == if added != [] && Registers(added[0], peer, key) then Some(added[0].addr) else Latest(trace, peer, key)
  {
    if added == [] {
      assert trace + added == trace;
    } else {
      assert (trace + added)[..|trace|] == trace;
    }
  }

  /** The event of a step, if any. */
  function Added(s: State, a: Action): (r: seq<Event>)
    requires WellFormed(s) && Enabled(s, a)
    ensures |r| <= 1 && Do(s, a).trace == s.trace + r
  {
    match a
    case Receive(from, key, accept, target, addr) => [Registered(from, target, addr, accept)]
    case Perform(i) =>
      match s.tasks[i]
      case Decide(accept, from, target, addr) => Relays(s.peers, accept, from, target, addr)
      case FirstIntro(a, b) => Introduction(s.peers, b, a)
      case SecondIntro(a, b) => Introduction(s.peers, a, b)
  }

  /** Only receiving a packet changes a tunnel, and only that packet's. */
  lemma TunnelsChange(s: State, a: Action, p: nat)
    requires WellFormed(s) && Enabled(s, a) && p < |s.peers|
    ensures a.Perform? ==> Do(s, a).peers[p].tunnels == s.peers[p].tunnels
    ensures a.Receive? && a.from != p ==> Do(s, a).peers[p].tunnels == s.peers[p].tunnels
    ensures a.Receive? && a.from == p ==> Do(s, a).peers[p].tunnels == s.peers[p].tunnels[a.target := a.addr]
  {
  }

  lemma TunnelsFollowTrace(s: State, a: Action, p: nat, key: string)
    requires WellFormed(s) && Enabled(s, a) && p < |s.peers|
    requires TunnelOf(s, p, key) == Latest(s.trace, p, key)
    ensures p < |Do(s, a).peers| && TunnelOf(Do(s, a), p, key) == Latest(Do(s, a).trace, p, key)
  {
    LatestAfter(s.trace, Added(s, a), p, key);
    TunnelsChange(s, a, p);
    StaysWellFormed(s, a);
    if a.Perform? {
      PerformRegistersNothing(s, a.i, p, key);
    }
  }

  lemma PerformRegistersNothing(s: State, i: nat, p: nat, key: string)
    requires WellFormed(s) && Enabled(s, Perform(i))
    ensures forall e :: e in Added(s, Perform(i)) ==> !Registers(e, p, key)
  {
  }

  lemma StaysCurrent(s: State, a: Action)
    requires WellFormed(s) && Enabled(s, a) && AllCurrent(s)
    ensures AllCurrent(Do(s, a))
  {
    var s' := Do(s, a);
    var n := |s.trace|;
    var added := Added(s, a);
    assert s'.trace == s.trace + added;
    StaysWellFormed(s, a);
    forall p, key | 0 <= p < |s'.peers| ensures TunnelOf(s', p, key) == Latest(s'.trace, p, key) {
      TunnelsFollowTrace(s, a, p, key);
    }
    forall i | 0 <= i < |s'.trace| ensures CurrentAt(s', i) {
      if i < n {
        assert CurrentAt(s, i);
        assert s'.trace[..i] == s.trace[..i];
      } else {
        assert s'.trace[..i] == s.trace;
        NewEventIsCurrent(s, a);
      }
    }
  }

  lemma NewEventIsCurrent(s: State, a: Action)
    requires WellFormed(s) && Enabled(s, a) && AllCurrent(s)
    ensures forall e :: e in Added(s, a) && e.Introduced? ==>
      e.to < |s.peers| && Latest(s.trace, e.about, s.peers[e.to].key) == Some(e.addr)
  {
  }

  lemma {:induction false} RunIsCurrent(s: State, actions: seq<Action>, end: State)
    requires Run(s, actions, end) && AllCurrent(s)
    ensures AllCurrent(end)
    decreases |actions|
  {
    if actions != [] {
      StaysCurrent(s, actions[0]);
      RunIsCurrent(Do(s, actions[0]), actions[1..], end);
    }
  }

  /** In every interleaving, an introduction sent to one peer about another carries the address
      the other had registered last for the first at that moment. */
  lemma IntroductionsAreCurrent(start: State, actions: seq<Action>, end: State, i: nat)
    requires Initial(start) && Run(start, actions, end)
    requires i < |end.trace| && end.trace[i].Introduced?
    ensures CurrentAt(end, i)
  {
    RunIsCurrent(start, actions, end);
  }

  // --- Accepting peers are introduced to each other -----------------------

  ghost predicate IntroducedTo(s: State, to: nat, about: nat) {
    exists addr :: Introduced(to, about, addr) in s.trace
  }

  /** `from` sent an accepting packet for `target`. */
  ghost predicate Accepted(s: State, from: nat, target: string) {
    exists addr :: Registered(from, target, addr, true) in s.trace
  }

  ghost predicate Open(s: State, a: nat, b: nat) {
    a < |s.peers| && b < |s.peers| && s.peers[b].key in s.peers[a].tunnels
  }

  /** A connection between two accepting peers that is under way or done. */
  ghost predicate Connecting(s: State, a: nat, b: nat) {
    && Open(s, a, b) && Open(s, b, a)
    && (FirstIntro(a, b) in s.tasks || IntroducedTo(s, b, a))
    && (FirstIntro(a, b) in s.tasks || SecondIntro(a, b) in s.tasks || IntroducedTo(s, a, b))
  }

  ghost predicate Pending(s: State, from: nat, target: string) {
    exists addr :: Decide(true, from, target, addr) in s.tasks
  }

  /** Of two peers that accepted each other, one is still to decide or they are connecting. */
  ghost predicate Matched(s: State, a: nat, b: nat) {
    a < |s.peers| && b < |s.peers| && Accepted(s, a, s.peers[b].key) && Accepted(s, b, s.peers[a].key) ==>
      || Pending(s, a, s.peers[b].key) || Pending(s, b, s.peers[a].key)
      || Connecting(s, a, b) || Connecting(s, b, a)
  }

  lemma TaskStays(s: State, a: Action, t: Task)
    requires WellFormed(s) && Enabled(s, a) && t in s.tasks
    requires a.Perform? ==> t != s.tasks[a.i]
    ensures t in Do(s, a).tasks
  {
  }

  lemma OpenStays(s: State, a: Action, x: nat, y: nat)
    requires WellFormed(s) && Enabled(s, a) && Open(s, x, y)
    ensures Open(Do(s, a), x, y)
  {
  }

  lemma IntroducedStays(s: State, a: Action, to: nat, about: nat)
    requires WellFormed(s) && Enabled(s, a) && IntroducedTo(s, to, about)
    ensures IntroducedTo(Do(s, a), to, about)
  {
  }

  /** Performing the first introduction of an open pair sends it. */
  lemma FirstIsSent(s: State, i: nat, x: nat, y: nat)
    requires WellFormed(s) && i < |s.tasks| && s.tasks[i] == FirstIntro(x, y) && Open(s, x, y)
    ensures var s' := Do(s, Perform(i)); IntroducedTo(s', y, x) && SecondIntro(x, y) in s'.tasks
  {
  }

  lemma SecondIsSent(s: State, i: nat, x: nat, y: nat)
    requires WellFormed(s) && i < |s.tasks| && s.tasks[i] == SecondIntro(x, y) && Open(s, y, x)
    ensures IntroducedTo(Do(s, Perform(i)), x, y)
  {
  }

  /** Tunnel entries are never removed, so a started connection goes through. */
  lemma ConnectingStays(s: State, a: Action, x: nat, y: nat)
    requires WellFormed(s) && Enabled(s, a) && Connecting(s, x, y)
    ensures Connecting(Do(s, a), x, y)
  {
    var s' := Do(s, a);
    OpenStays(s, a, x, y);
    OpenStays(s, a, y, x);
    if FirstIntro(x, y) in s.tasks {
      if a.Perform? && s.tasks[a.i] == FirstIntro(x, y) {
        FirstIsSent(s, a.i, x, y);
      } else {
        TaskStays(s, a, FirstIntro(x, y));
      }
    } else {
      IntroducedStays(s, a, y, x);
      if SecondIntro(x, y) !in s.tasks {
        IntroducedStays(s, a, x, y);
      } else if a.Perform? && s.tasks[a.i] == SecondIntro(x, y) {
        SecondIsSent(s, a.i, x, y);
      } else {
        TaskStays(s, a, SecondIntro(x, y));
      }
    }
  }

  lemma {:induction false} RegisteredIsLatest(trace: seq<Event>, e: Event)
    requires e in trace && e.Registered?
    ensures Latest(trace, e.peer, e.target).Some?
    decreases |trace|
  {
    var front := trace[..|trace| - 1];
    if trace[|trace| - 1] != e {
      assert trace == front + [trace[|trace| - 1]];
      RegisteredIsLatest(front, e);
    }
  }

  lemma AcceptedIsOpen(s: State, x: nat, y: nat)
    requires AllCurrent(s) && x < |s.peers| && y < |s.peers| && Accepted(s, x, s.peers[y].key)
    ensures Open(s, x, y)
  {
    var addr :| Registered(x, s.peers[y].key, addr, true) in s.trace;
    RegisteredIsLatest(s.trace, Registered(x, s.peers[y].key, addr, true));
    assert TunnelOf(s, x, s.peers[y].key) == Latest(s.trace, x, s.peers[y].key);
  }

  /** Deciding an accepting packet of `x` for `y` when both have accepted starts a connection. */
  lemma DecisionConnects(s: State, i: nat, x: nat, y: nat)
    requires WellFormed(s) && AllCurrent(s) && y < |s.peers| && i < |s.tasks|
    requires s.tasks[i].Decide? && s.tasks[i].accept && s.tasks[i].from == x && s.tasks[i].target == s.peers[y].key
    requires Accepted(s, x, s.peers[y].key) && Accepted(s, y, s.peers[x].key)
    ensures Connecting(Do(s, Perform(i)), x, y)
  {
    var s' := Do(s, Perform(i));
    AcceptedIsOpen(s, x, y);
    AcceptedIsOpen(s, y, x);
    var starts := AcceptStarts(s.peers, x, s.peers[y].key, |s.peers|);
    assert y in starts;
    var k :| 0 <= k < |starts| && starts[k] == y;
    assert s'.tasks[|s.tasks| - 1 + k] == FirstIntro(x, y);
  }

  lemma PendingStays(s: State, a: Action, x: nat, key: string)
    requires WellFormed(s) && Enabled(s, a) && Pending(s, x, key)
    ensures Pending(Do(s, a), x, key)
      || (a.Perform? && s.tasks[a.i].Decide? && s.tasks[a.i].accept && s.tasks[a.i].from == x && s.tasks[a.i].target == key)
  {
  }

  /** An accepting packet is either old or was just received and is pending. */
  lemma AcceptedBefore(s: State, a: Action, x: nat, key: string)
    requires WellFormed(s) && Enabled(s, a) && Accepted(Do(s, a), x, key)
    ensures Accepted(s, x, key) || Pending(Do(s, a), x, key)
  {
  }

  lemma StaysMatched(s: State, a: Action, x: nat, y: nat)
    requires WellFormed(s) && Enabled(s, a) && AllCurrent(s)
    requires x < |s.peers| && y < |s.peers| && Matched(s, x, y)
    ensures Matched(Do(s, a), x, y)
  {
    var s' := Do(s, a);
    var kx, ky := s.peers[x].key, s.peers[y].key;
    StaysWellFormed(s, a);
    if Accepted(s', x, ky) && Accepted(s', y, kx) {
      AcceptedBefore(s, a, x, ky);
      AcceptedBefore(s, a, y, kx);
      if Accepted(s, x, ky) && Accepted(s, y, kx) {
        MatchGoesOn(s, a, x, y);
      }
    }
  }

  lemma MatchGoesOn(s: State, a: Action, x: nat, y: nat)
    requires WellFormed(s) && Enabled(s, a) && AllCurrent(s)
    requires x < |s.peers| && y < |s.peers| && Matched(s, x, y)
    requires Accepted(s, x, s.peers[y].key) && Accepted(s, y, s.peers[x].key)
    ensures var s' := Do(s, a);
      || Pending(s', x, s.peers[y].key) || Pending(s', y, s.peers[x].key)
      || Connecting(s', x, y) || Connecting(s', y, x)
  {
    if Connecting(s, x, y) {
      ConnectingStays(s, a, x, y);
    } else if Connecting(s, y, x) {
      ConnectingStays(s, a, y, x);
    } else if Pending(s, x, s.peers[y].key) {
      PendingStays(s, a, x, s.peers[y].key);
      if !Pending(Do(s, a), x, s.peers[y].key) {
        DecisionConnects(s, a.i, x, y);
      }
    } else {
      PendingStays(s, a, y, s.peers[x].key);
      if !Pending(Do(s, a), y, s.peers[x].key) {
        DecisionConnects(s, a.i, y, x);
      }
    }
  }

  lemma {:induction false} RunIsMatched(s: State, actions: seq<Action>, end: State, x: nat, y: nat)
    requires Run(s, actions, end) && AllCurrent(s)
    requires x < |s.peers| && y < |s.peers| && Matched(s, x, y)
    ensures |end.peers| == |s.peers| && end.peers[x].key == s.peers[x].key && end.peers[y].key == s.peers[y].key
    ensures Matched(end, x, y)
    decreases |actions|
  {
    if actions != [] {
      StaysCurrent(s, actions[0]);
      StaysMatched(s, actions[0], x, y);
      StaysWellFormed(s, actions[0]);
      RunIsMatched(Do(s, actions[0]), actions[1..], end, x, y);
    }
  }

  /** Whenever two peers have each sent an accepting packet for the other and the server has
      worked off its tasks, it has introduced each to the other, however the handlers of
      these and any other packets interleaved. */
  lemma AcceptingPeersMeet(start: State, actions: seq<Action>, end: State, x: nat, y: nat)
    requires Initial(start) && Run(start, actions, end) && end.tasks == []
    requires x < |start.peers| && y < |start.peers|
    requires Accepted(end, x, start.peers[y].key) && Accepted(end, y, start.peers[x].key)
    ensures IntroducedTo(end, x, y) && IntroducedTo(end, y, x)
  {
    assert !Accepted(start, x, start.peers[y].key);
    RunIsMatched(start, actions, end, x, y);
  }

  // --- Whom an accepting packet connects -----------------------------------

  predicate Filed(trace: seq<Event>, peer: nat, key: string) {
    exists i :: 0 <= i < |trace| && Registers(trace[i], peer, key)
  }

  lemma {:induction false} FiledIsLatest(trace: seq<Event>, peer: nat, key: string)
    ensures Filed(trace, peer, key) <==> Latest(trace, peer, key).Some?
    decreases |trace|
  {
    if trace != [] {
      var n := |trace| - 1;
      FiledIsLatest(trace[..n], peer, key);
      if Filed(trace, peer, key) && !Registers(trace[n], peer, key) {
        var i :| 0 <= i < |trace| && Registers(trace[i], peer, key);
        assert Registers(trace[..n][i], peer, key);
      }
      if Filed(trace[..n], peer, key) {
        var i :| 0 <= i < n && Registers(trace[..n][i], peer, key);
        assert Registers(trace[i], peer, key);
      }
    }
  }

  predicate Ascends(starts: seq<nat>) {
    forall j, k :: 0 <= j < k < |starts| ==> starts[j] < starts[k]
  }

  lemma AscendsOn(starts: seq<nat>, n: nat)
    requires Ascends(starts) && forall j :: 0 <= j < |starts| ==> starts[j] < n
    ensures Ascends(starts + [n])
  {
  }

  lemma {:induction false} StartsAscend(peers: seq<PeerState>, from: nat, target: string, n: nat)
    requires from < |peers| && n <= |peers|
    ensures Ascends(AcceptStarts(peers, from, target, n))
  {
    if n > 0 {
      var starts := AcceptStarts(peers, from, target, n - 1);
      StartsAscend(peers, from, target, n - 1);
      forall j | 0 <= j < |starts| ensures starts[j] < n - 1 {
        assert starts[j] in starts;
      }
      AscendsOn(starts, n - 1);
      NextStart(peers, from, target, n - 1, starts);
    }
  }

  /** One connection for each, in list order. */
  lemma ConnectionsAre(from: nat, starts: seq<nat>, t: nat)
    requires Ascends(starts)
    ensures var added := Connections(from, starts);
      && (FirstIntro(from, t) in added <==> t in starts)
      && (forall j :: 0 <= j < |added| ==> added[j].FirstIntro? && added[j].first == from)
      && (forall j, k :: 0 <= j < k < |added| ==> added[j].second < added[k].second)
  {
    if t in starts {
      var k :| 0 <= k < |starts| && starts[k] == t;
      assert Connections(from, starts)[k] == FirstIntro(from, t);
    }
  }

  /** The tunnel is open exactly when the peer has filed an address for the key. */
  lemma FiledIsOpen(start: State, actions: seq<Action>, s: State, p: nat, key: string)
    requires Initial(start) && Run(start, actions, s) && p < |s.peers|
    ensures Filed(s.trace, p, key) <==> key in s.peers[p].tunnels
  {
    RunIsCurrent(start, actions, s);
    FiledIsLatest(s.trace, p, key);
    assert TunnelOf(s, p, key) == Latest(s.trace, p, key);
  }

  /** The tasks a decision adds. */
  function NewTasks(s: State, i: nat): (r: seq<Task>)
    requires WellFormed(s) && i < |s.tasks|
    ensures Do(s, Perform(i)).tasks == s.tasks[..i] + s.tasks[i + 1..] + r
  {
    Do(s, Perform(i)).tasks[|s.tasks| - 1..]
  }

  /** In every run, deciding an accepting packet connects its sender with exactly those peers of the
      key that have filed an address for the sender, once each, if the sender has filed one for the
      key; it sends nothing and changes no peer. */
  lemma AcceptConnectsExactly(start: State, actions: seq<Action>, s: State, i: nat, t: nat)
    requires Initial(start) && Run(start, actions, s) && WellFormed(s)
    requires i < |s.tasks| && s.tasks[i].Decide? && s.tasks[i].accept && t < |s.peers|
    ensures var Decide(_, from, target, _) := s.tasks[i]; var added, s' := NewTasks(s, i), Do(s, Perform(i));
      && s'.trace == s.trace && s'.peers == s.peers
      && (FirstIntro(from, t) in added <==>
            s.peers[t].key == target && Filed(s.trace, from, target) && Filed(s.trace, t, s.peers[from].key))
      && (forall j :: 0 <= j < |added| ==> added[j].FirstIntro? && added[j].first == from)
      && (forall j, k :: 0 <= j < k < |added| ==> added[j].second < added[k].second)
  {
    var Decide(_, from, target, _) := s.tasks[i];
    var starts := AcceptStarts(s.peers, from, target, |s.peers|);
    FiledIsOpen(start, actions, s, from, target);
    FiledIsOpen(start, actions, s, t, s.peers[from].key);
    StartsAscend(s.peers, from, target, |s.peers|);
    ConnectionsAre(from, starts, t);
    assert NewTasks(s, i) == Connections(from, starts);
  }

  // --- Keys and waiting, whatever keys peers send under ---------------------

  lemma AlwaysWellFormed(s: State, a: Action)
    requires WellFormed(s) && Possible(s, a)
    ensures WellFormed(Do(s, a)) && |Do(s, a).peers| == |s.peers|
  {
  }

  ghost predicate AnyRun(s: State, actions: seq<Action>, end: State)
    decreases |actions|
  {
    if actions == [] then s == end
    else WellFormed(s) && Possible(s, actions[0]) && AnyRun(Do(s, actions[0]), actions[1..], end)
  }

  /** The key of the peer's last packet. */
  function LastKey(actions: seq<Action>, p: nat, key: string): string {
    if actions == [] then key
    else
      var last := actions[|actions| - 1];
      if last.Receive? && last.from == p then last.key else LastKey(actions[..|actions| - 1], p, key)
  }

  lemma {:induction false} LastKeyJoins(first: Action, actions: seq<Action>, p: nat, key: string)
    ensures LastKey([first] + actions, p, key) == LastKey(actions, p, if first.Receive? && first.from == p then first.key else key)
  {
    if actions == [] {
      assert [first] + actions == [first] && [first][..0] == [];
    } else {
      assert ([first] + actions)[..|actions|] == [first] + actions[..|actions| - 1];
      LastKeyJoins(first, actions[..|actions| - 1], p, key);
    }
  }

  /** The task introduces somebody to the peer. */
  predicate IntroducesTo(t: Task, p: nat) {
    match t
    case Decide(_, _, _, _) => false
    case FirstIntro(_, second) => second == p
    case SecondIntro(first, _) => first == p
  }

  /** Whether a peer waits after a run: since its last packet no introduction step was for it. */
  function WaitsAfter(s: State, actions: seq<Action>, p: nat, waiting: bool): bool
    decreases |actions|
  {
    if actions == [] || !WellFormed(s) || !Possible(s, actions[0]) then waiting
    else
      WaitsAfter(Do(s, actions[0]), actions[1..], p, match actions[0]
        case Receive(from, _, _, _, _) => waiting || from == p
        case Perform(i) => waiting && !IntroducesTo(s.tasks[i], p))
  }

  /** In every run, with keys changing or not, a peer is known under the key of its last packet, and
      waits exactly if none has been introduced to it since. */
  lemma {:induction false} KeyAndWaitingExactly(s: State, actions: seq<Action>, end: State, p: nat)
    requires AnyRun(s, actions, end) && p < |s.peers|
    ensures p < |end.peers| && end.peers[p].key == LastKey(actions, p, s.peers[p].key)
    ensures end.peers[p].waiting == WaitsAfter(s, actions, p, s.peers[p].waiting)
    decreases |actions|
  {
    if actions != [] {
      AlwaysWellFormed(s, actions[0]);
      KeyAndWaitingExactly(Do(s, actions[0]), actions[1..], end, p);
      LastKeyJoins(actions[0], actions[1..], p, s.peers[p].key);
      assert actions == [actions[0]] + actions[1..];
    }
  }

  // --- What waiting packets can do ----------------------------------------

  /** No accepting packets. */
  predicate OnlyWaits(actions: seq<Action>) {
    forall i :: 0 <= i < |actions| && actions[i].Receive? ==> !actions[i].accept
  }

  /** The step decides a waiting packet whose target, the first peer of that key, has filed an
      address under its own key. */
  ghost predicate MeetsSelfNamed(s: State, a: Action) {
    && a.Perform? && a.i < |s.tasks| && s.tasks[a.i].Decide? && !s.tasks[a.i].accept
    && var t := Find(s.peers, s.tasks[a.i].target);
       t.Some? && Open(s, t.value, t.value)
  }

  /** Some step of the run does. */
  ghost predicate SelfNamedMet(s: State, actions: seq<Action>)
    decreases |actions|
  {
    actions != [] && WellFormed(s) && Enabled(s, actions[0]) &&
    (MeetsSelfNamed(s, actions[0]) || SelfNamedMet(Do(s, actions[0]), actions[1..]))
  }

  ghost predicate AnyIntroduced(s: State) {
    exists i :: 0 <= i < |s.trace| && s.trace[i].Introduced?
  }

  /** Only waiting packets are undecided, each with its sender's tunnel filed. */
  ghost predicate WaitsOnly(s: State) {
    forall i :: 0 <= i < |s.tasks| && s.tasks[i].Decide? ==>
      !s.tasks[i].accept && s.tasks[i].from < |s.peers| && s.tasks[i].target in s.peers[s.tasks[i].from].tunnels
  }

  /** A connection has been started and its first introduction is sent or will be. */
  ghost predicate Begun(s: State) {
    AnyIntroduced(s) || exists x: nat, y: nat :: FirstIntro(x, y) in s.tasks && Open(s, x, y)
  }

  ghost predicate Quiet(s: State) {
    !AnyIntroduced(s) && forall i :: 0 <= i < |s.tasks| ==> s.tasks[i].Decide?
  }

  lemma WaitsOnlyStays(s: State, a: Action)
    requires WellFormed(s) && Enabled(s, a) && WaitsOnly(s) && (a.Receive? ==> !a.accept)
    ensures WaitsOnly(Do(s, a))
  {
    var s' := Do(s, a);
    forall i | 0 <= i < |s'.tasks| && s'.tasks[i].Decide?
      ensures !s'.tasks[i].accept && s'.tasks[i].from < |s'.peers| && s'.tasks[i].target in s'.peers[s'.tasks[i].from].tunnels
    {
      var t := s'.tasks[i];
      if t in s.tasks && t.from < |s.peers| {
        TunnelsChange(s, a, t.from);
      }
    }
  }

  lemma QuietStays(s: State, a: Action)
    requires WellFormed(s) && Enabled(s, a) && WaitsOnly(s) && Quiet(s) && !MeetsSelfNamed(s, a)
    ensures Quiet(Do(s, a))
  {
    assert Do(s, a).trace == s.trace + Added(s, a);
  }

  lemma MeetingBegins(s: State, a: Action)
    requires WellFormed(s) && Enabled(s, a) && WaitsOnly(s) && MeetsSelfNamed(s, a)
    ensures Begun(Do(s, a))
  {
    var Decide(_, x, target, _) := s.tasks[a.i];
    var y := Find(s.peers, target).value;
    var s' := Do(s, a);
    assert s'.tasks[|s.tasks| - 1] == FirstIntro(x, y);
    assert Open(s', x, y);
  }

  lemma BegunStays(s: State, a: Action)
    requires WellFormed(s) && Enabled(s, a) && Begun(s)
    ensures Begun(Do(s, a))
  {
    var s' := Do(s, a);
    if AnyIntroduced(s) {
      var i :| 0 <= i < |s.trace| && s.trace[i].Introduced?;
      assert s'.trace == s.trace + Added(s, a) && s'.trace[i] == s.trace[i];
    } else {
      var x: nat, y: nat :| FirstIntro(x, y) in s.tasks && Open(s, x, y);
      if a.Perform? && s.tasks[a.i] == FirstIntro(x, y) {
        FirstIsSent(s, a.i, x, y);
        var addr :| Introduced(y, x, addr) in s'.trace;
      } else {
        TaskStays(s, a, FirstIntro(x, y));
        OpenStays(s, a, x, y);
      }
    }
  }

  lemma {:induction false} RunBegins(s: State, actions: seq<Action>, end: State)
    requires Run(s, actions, end) && OnlyWaits(actions) && WaitsOnly(s) && (Quiet(s) || Begun(s))
    ensures if Begun(s) || SelfNamedMet(s, actions) then Begun(end) else Quiet(end)
    decreases |actions|
  {
    if actions != [] {
      var s' := Do(s, actions[0]);
      WaitsOnlyStays(s, actions[0]);
      if Begun(s) {
        BegunStays(s, actions[0]);
      } else if MeetsSelfNamed(s, actions[0]) {
        MeetingBegins(s, actions[0]);
      } else {
        QuietStays(s, actions[0]);
      }
      RunBegins(s', actions[1..], end);
    }
  }

  /** The waiting branch looks for a tunnel under the target's own key. So in a run without
      accepting packets that the server has worked off, somebody was introduced exactly when
      some waiting packet was decided after its target had filed an address for itself. */
  lemma WaitingPeersMeetExactly(start: State, actions: seq<Action>, end: State)
    requires Initial(start) && Run(start, actions, end) && OnlyWaits(actions) && end.tasks == []
    ensures AnyIntroduced(end) <==> SelfNamedMet(start, actions)
  {
    RunBegins(start, actions, end);
  }

  /** In particular nobody is, if no peer ever names itself. */
  lemma WaitingPeersNeverMeet(start: State, actions: seq<Action>, end: State)
    requires Initial(start) && Run(start, actions, end) && OnlyWaits(actions)
    requires forall i :: 0 <= i < |actions| && actions[i].Receive? ==> actions[i].target != actions[i].key
    ensures !AnyIntroduced(end)
  {
    NobodySelfNamed(start, actions, end);
    RunBegins(start, actions, end);
  }

  lemma {:induction false} NobodySelfNamed(s: State, actions: seq<Action>, end: State)
    requires Run(s, actions, end)
    requires forall i :: 0 <= i < |s.peers| ==> s.peers[i].key !in s.peers[i].tunnels
    requires forall i :: 0 <= i < |actions| && actions[i].Receive? ==> actions[i].target != actions[i].key
    ensures !SelfNamedMet(s, actions)
    decreases |actions|
  {
    if actions != [] {
      NobodySelfNamed(Do(s, actions[0]), actions[1..], end);
    }
  }
}
