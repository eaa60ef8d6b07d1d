/** The peer search as a run of a whole network: servers connected in any way, cycles
    included, clients that search, and packets delivered in any order or lost. */
module SearchNetwork {
  import opened Basics
  import opened PeerSearch

  /** The hop limit `search_peer` starts with. */
  const HOPS: u32 := 3

  /** A request on its way to a server over one of that server's connections. */
  datatype InFlight = InFlight(to: string, connection: nat, request: Request)

  /** A connection of a server carried the key `id` at `time`, when it handled a search. */
  datatype Sighting = Sighting(server: string, id: string, time: nat)

  /** A response that was sent, the server that made it, the connection it went out on, and when
      that server began and ended handling the request. */
  datatype Answered = Answered(server: string, via: nat, began: nat, ended: nat, response: Response)

  datatype Network = Network(servers: map<string, Server>, clock: nat,
                             requests: seq<InFlight>, answers: seq<Answered>,
                             sightings: set<Sighting>, searches: nat, deliveries: nat)

  datatype Step =
    | Search(client: Node, server: string, connection: nat, target: string)
    | DeliverRequest(i: nat, pause: nat)
    | LoseRequest(i: nat)
    | SetPeers(server: string, peers: seq<Peer>)
    | Connect(server: string, link: Link)
    | Tick(time: nat)

  /** Only clients search, never under a server's key, and a server opens at most `degree`
      connections. Everything else is free: `SetPeers` stands for peers that come, go, or are
      relabelled by other packets. */
  predicate Enabled(degree: nat, n: Network, step: Step) {
    match step
    case Search(client, server, _, _) => server in n.servers && client.uuid !in n.servers
    case DeliverRequest(i, _) => Deliverable(n, i)
    case LoseRequest(i) => i < |n.requests|
    case SetPeers(server, _) => server in n.servers
    case Connect(server, _) => server in n.servers && |n.servers[server].links| < degree
    case Tick(_) => true
  }

  predicate Deliverable(n: Network, i: nat) {
    i < |n.requests| && n.requests[i].to in n.servers
  }

  function Launch(link: Link, r: Request): InFlight {
    InFlight(link.to, link.connection, r)
  }

  /** The requests a server put on its connections. */
  function Launched(s: Server, out: seq<Outgoing>): seq<InFlight>
    requires forall k :: 0 <= k < |out| ==> out[k].ToServer? && out[k].link < |s.links|
  {
    seq(|out|, k requires 0 <= k < |out| => Launch(s.links[out[k].link], out[k].request))
  }

  function Without<T>(s: seq<T>, i: nat): seq<T>
    requires i < |s|
  {
    s[..i] + s[i + 1..]
  }

  /** The receiving server once it has relabelled the connection the request came over. */
  function Receiver(n: Network, i: nat): Server
    requires Deliverable(n, i)
  {
    var InFlight(to, connection, r) := n.requests[i];
    Renamed(n.servers[to], connection, r.peerId)
  }

  function Deliver(n: Network, i: nat, pause: nat): Network
    requires Deliverable(n, i)
  {
    var InFlight(to, connection, r) := n.requests[i];
    var s := Receiver(n, i);
    var later := n.clock + pause;
    var out := Sent(s, r, n.clock);
    var rest := Without(n.requests, i);
    var n' := n.(servers := n.servers[to := ServerAfter(s, r, n.clock, later)], clock := later,
      sightings := n.sightings + (set id | id in {r.searchId, r.peerId} && Labelled(s, id) :: Sighting(to, id, later)),
      deliveries := n.deliveries + 1);
    if out != [] && out[0].ToPeer? then
      n'.(requests := rest,
          answers := n.answers + [Answered(to, s.peers[out[0].peer].connection, n.clock, later, out[0].response)])
    else n'.(requests := rest + Launched(s, out))
  }

  function Do(degree: nat, n: Network, step: Step): Network
    requires Enabled(degree, n, step)
  {
    match step
    case Search(client, server, connection, target) =>
      n.(requests := n.requests + [InFlight(server, connection, Request(target, client.uuid, HOPS, [client]))], searches := n.searches + 1)
    case DeliverRequest(i, pause) => Deliver(n, i, pause)
    case LoseRequest(i) => n.(requests := Without(n.requests, i))
    case SetPeers(server, peers) => n.(servers := n.servers[server := n.servers[server].(peers := peers)])
    case Connect(server, link) =>
      n.(servers := n.servers[server := n.servers[server].(links := n.servers[server].links + [link])])
    case Tick(time) => n.(clock := n.clock + time)
  }

  /** Servers under their own keys, with nothing connected, cached or under way. */
  ghost predicate Initial(n: Network) {
    && (forall key :: key in n.servers ==>
          n.servers[key].me.uuid == key && n.servers[key].links == [] && n.servers[key].cache == map[])
    && n.requests == [] && n.answers == [] && n.sightings == {} && n.searches == 0 && n.deliveries == 0
  }

  ghost predicate Run(degree: nat, n: Network, steps: seq<Step>, end: Network)
    decreases |steps|
  {
    if steps == [] then n == end
    else Enabled(degree, n, steps[0]) && Run(degree, Do(degree, n, steps[0]), steps[1..], end)
  }

  // --- Termination --------------------------------------------------------

  /** Deliveries one request with `hops` left can cause: 1 + d + ... + d^hops. */
  function Weight(degree: nat, hops: nat): nat {
    if hops == 0 then 1 else 1 + degree * Weight(degree, hops - 1)
  }

  function Potential(degree: nat, requests: seq<InFlight>): nat {
    if requests == [] then 0 else Weight(degree, requests[0].request.maxHops) + Potential(degree, requests[1..])
  }

  lemma {:induction false} PotentialJoin(degree: nat, a: seq<InFlight>, b: seq<InFlight>)
    ensures Potential(degree, a + b) == Potential(degree, a) + Potential(degree, b)
  {
    if a == [] {
      assert a + b == b;
    } else {
      assert (a + b)[1..] == a[1..] + b;
      PotentialJoin(degree, a[1..], b);
    }
  }

  lemma PotentialWithout(degree: nat, requests: seq<InFlight>, i: nat)
    requires i < |requests|
    ensures Potential(degree, Without(requests, i)) + Weight(degree, requests[i].request.maxHops) == Potential(degree, requests)
  {
    PotentialJoin(degree, requests[..i], requests[i + 1..]);
    PotentialJoin(degree, requests[..i], requests[i..]);
    assert requests[..i] + requests[i..] == requests;
  }

  lemma {:induction false} PotentialOfCopies(degree: nat, requests: seq<InFlight>, hops: nat)
    requires forall k :: 0 <= k < |requests| ==> requests[k].request.maxHops == hops
    ensures Potential(degree, requests) == |requests| * Weight(degree, hops)
  {
    if requests != [] {
      PotentialOfCopies(degree, requests[1..], hops);
    }
  }

  ghost predicate DegreeAtMost(degree: nat, n: Network) {
    forall key :: key in n.servers ==> |n.servers[key].links| <= degree
  }

  lemma AtMostTimes(a: nat, b: nat, w: nat)
    requires a <= b
    ensures a * w <= b * w
  {
  }

  lemma LaunchedWeighLess(degree: nat, launched: seq<InFlight>, hops: nat)
    requires |launched| <= degree && (hops == 0 ==> launched == [])
    requires forall k :: 0 <= k < |launched| ==> launched[k].request.maxHops == hops - 1
    ensures Potential(degree, launched) < Weight(degree, hops)
  {
    if hops > 0 {
      PotentialOfCopies(degree, launched, hops - 1);
      AtMostTimes(|launched|, degree, Weight(degree, hops - 1));
    }
  }

  /** A delivery uses up at least one unit of potential. */
  lemma DeliveryDescends(degree: nat, n: Network, i: nat, pause: nat)
    requires DegreeAtMost(degree, n) && Deliverable(n, i)
    ensures Potential(degree, Deliver(n, i, pause).requests) < Potential(degree, n.requests)
  {
    var r := n.requests[i].request;
    var s := Receiver(n, i);
    var out := Sent(s, r, n.clock);
    PotentialWithout(degree, n.requests, i);
    if !(out != [] && out[0].ToPeer?) {
      var launched := Launched(s, out);
      PotentialJoin(degree, Without(n.requests, i), launched);
      LaunchedWeighLess(degree, launched, r.maxHops);
    }
  }

  ghost predicate Paid(degree: nat, n: Network) {
    && DegreeAtMost(degree, n)
    && n.deliveries + Potential(degree, n.requests) <= n.searches * Weight(degree, HOPS)
  }

  lemma SearchPays(degree: nat, n: Network, f: InFlight)
    requires f.request.maxHops == HOPS
    ensures Potential(degree, n.requests + [f]) == Potential(degree, n.requests) + Weight(degree, HOPS)
  {
    PotentialJoin(degree, n.requests, [f]);
    PotentialOfCopies(degree, [f], HOPS);
  }

  lemma PaidStep(degree: nat, n: Network, step: Step)
    requires Paid(degree, n) && Enabled(degree, n, step)
    ensures Paid(degree, Do(degree, n, step))
  {
    match step
    case Search(client, server, connection, target) =>
      SearchPays(degree, n, InFlight(server, connection, Request(target, client.uuid, HOPS, [client])));
      OneMoreTime(n.searches, Weight(degree, HOPS));
    case DeliverRequest(i, pause) => DeliveryDescends(degree, n, i, pause);
    case LoseRequest(i) => PotentialWithout(degree, n.requests, i);
    case _ =>
  }

  lemma OneMoreTime(a: nat, w: nat)
    ensures (a + 1) * w == a * w + w
  {
  }

  lemma {:induction false} PaidRun(degree: nat, n: Network, steps: seq<Step>, end: Network)
    requires Paid(degree, n) && Run(degree, n, steps, end)
    ensures Paid(degree, end)
    decreases |steps|
  {
    if steps != [] {
      PaidStep(degree, n, steps[0]);
      PaidRun(degree, Do(degree, n, steps[0]), steps[1..], end);
    }
  }

  /** The flood dies out on every graph of servers: `searches` searches cost at most
      1 + d + d^2 + d^3 deliveries each, in whatever order packets arrive. */
  lemma FloodTerminates(degree: nat, start: Network, steps: seq<Step>, end: Network)
    requires Initial(start) && Run(degree, start, steps, end)
    ensures end.deliveries <= end.searches * (1 + degree + degree * degree + degree * degree * degree)
  {
    PaidRun(degree, start, steps, end);
    assert Weight(degree, 0) == 1;
    assert Weight(degree, 1) == 1 + degree * Weight(degree, 0);
    assert Weight(degree, 2) == 1 + degree * Weight(degree, 1);
    assert Weight(degree, 3) == 1 + degree * Weight(degree, 2);
    Expand(degree);
  }

  lemma Expand(d: nat)
    ensures 1 + d * (1 + d * (1 + d)) == 1 + d + d * d + d * d * d
  {
  }

  // --- Paths and answers --------------------------------------------------

  /** The servers a server opened connections to. */
  function Targets(s: Server): set<string> {
    set l | l in s.links :: l.to
  }

  /** After the initiator every node of a path is a server as it describes itself, connected
      to the node behind it. */
  ghost predicate PathOk(n: Network, path: seq<Node>) {
    && path != [] && path[0].uuid !in n.servers
    && (forall i :: 1 <= i < |path| ==> path[i].uuid in n.servers && path[i] == n.servers[path[i].uuid].me)
    && (forall i :: 2 <= i < |path| ==> path[i].uuid in Targets(n.servers[path[i - 1].uuid]))
  }

  /** The hops used and left add up, the initiator leads the path, and the request came over
      a connection of the path's last server. */
  ghost predicate RequestOk(n: Network, f: InFlight) {
    var path := f.request.path;
    && PathOk(n, path)
    && |path| + f.request.maxHops == HOPS + 1
    && path[0].uuid == f.request.peerId
    && (|path| > 1 ==> f.to in Targets(n.servers[path[|path| - 1].uuid]))
  }

  ghost predicate SeenWithin(n: Network, server: string, id: string, from: int, to: int) {
    exists t: nat :: Sighting(server, id, t) in n.sightings && from <= t <= to
  }

  /** What a response can be relied on to say: the peer found is the one sought, the last node
      is the server that answered, with its address, and the initiator leads the path. While that
      server handled the request a connection carried the initiator's key, and then or less than
      five minutes before one carried the target's. */
  ghost predicate AnswerOk(n: Network, a: Answered) {
    var r := a.response;
    && PathOk(n, r.path)
    && 2 <= |r.path| <= HOPS + 2
    && r.foundPeerId == r.searchId && r.hops == 0
    && r.path[0].uuid == r.peerId
    && r.path[|r.path| - 1] == Node(a.server, r.publicIp, r.publicPort)
    && SeenWithin(n, a.server, r.peerId, a.began, a.ended)
    && SeenWithin(n, a.server, r.searchId, a.began - CACHE_TIME + 1, a.ended)
  }

  /** A cache entry maps a peer to itself at this server, and was made when a connection
      carried its key, five minutes before it expires. */
  ghost predicate EntryOk(n: Network, me: Node, id: string, e: CacheEntry) {
    && e.foundPeerId == id && e.publicIp == me.publicIp && e.publicPort == me.publicPort
    && CACHE_TIME <= e.expiresAt <= n.clock + CACHE_TIME
    && Sighting(me.uuid, id, e.expiresAt - CACHE_TIME) in n.sightings
  }

  ghost predicate CacheOk(n: Network, s: Server) {
    forall id :: id in s.cache ==> EntryOk(n, s.me, id, s.cache[id])
  }

  ghost predicate Inv(n: Network) {
    && (forall key :: key in n.servers ==> n.servers[key].me.uuid == key && CacheOk(n, n.servers[key]))
    && (forall i :: 0 <= i < |n.requests| ==> RequestOk(n, n.requests[i]))
    && (forall i :: 0 <= i < |n.answers| ==> AnswerOk(n, n.answers[i]))
  }

  /** Servers keep their identity and their connections, what was seen stays seen, and time
      does not run backwards. */
  ghost predicate Grows(n: Network, n': Network) {
    && n.servers.Keys == n'.servers.Keys
    && (forall key :: key in n.servers ==> n'.servers[key].me == n.servers[key].me)
    && (forall key, to :: key in n.servers && to in Targets(n.servers[key]) ==> to in Targets(n'.servers[key]))
    && n.sightings <= n'.sightings && n.clock <= n'.clock
  }

  lemma PathStays(n: Network, n': Network, path: seq<Node>)
    requires Grows(n, n') && PathOk(n, path)
    ensures PathOk(n', path)
  {
  }

  lemma RequestStays(n: Network, n': Network, f: InFlight)
    requires Grows(n, n') && RequestOk(n, f)
    ensures RequestOk(n', f)
  {
  }

  lemma AnswerStays(n: Network, n': Network, a: Answered)
    requires Grows(n, n') && AnswerOk(n, a)
    ensures AnswerOk(n', a)
  {
  }

  lemma CacheStays(n: Network, n': Network, s: Server)
    requires Grows(n, n') && CacheOk(n, s)
    ensures CacheOk(n', s)
  {
  }

  /** The extended path a server sends on, whether forward or back. */
  lemma PathExtends(n: Network, f: InFlight)
    requires RequestOk(n, f) && f.to in n.servers && n.servers[f.to].me.uuid == f.to
    ensures PathOk(n, f.request.path + [n.servers[f.to].me])
  {
  }

  lemma DeliveryGrows(n: Network, i: nat, pause: nat)
    requires Deliverable(n, i)
    ensures Grows(n, Deliver(n, i, pause))
  {
  }

  lemma NewEntryOk(n: Network, i: nat, pause: nat)
    requires Inv(n) && Deliverable(n, i) && Labelled(Receiver(n, i), n.requests[i].request.searchId)
    ensures var InFlight(to, _, r) := n.requests[i]; var me, later := n.servers[to].me, n.clock + pause;
      EntryOk(Deliver(n, i, pause), me, r.searchId, CacheEntry(r.searchId, me.publicIp, me.publicPort, later + CACHE_TIME))
  {
  }

  lemma DeliveryCaches(n: Network, i: nat, pause: nat)
    requires Inv(n) && Deliverable(n, i)
    ensures var n' := Deliver(n, i, pause); CacheOk(n', n'.servers[n.requests[i].to])
  {
    var n' := Deliver(n, i, pause);
    var InFlight(to, connection, r) := n.requests[i];
    DeliveryGrows(n, i, pause);
    CacheStays(n, n', n.servers[to]);
    if Labelled(Receiver(n, i), r.searchId) {
      NewEntryOk(n, i, pause);
    }
  }

  lemma DeliveryForwards(n: Network, i: nat, f: InFlight)
    requires Inv(n) && Deliverable(n, i)
    requires var s := Receiver(n, i); var out := Sent(s, n.requests[i].request, n.clock);
      !(out != [] && out[0].ToPeer?) && f in Launched(s, out)
    ensures RequestOk(n, f)
  {
  }

  /** Target and initiator are seen while a request is answered, or the target was. */
  lemma AnswerSees(n: Network, i: nat, pause: nat)
    requires Inv(n) && Deliverable(n, i)
    requires var out := Sent(Receiver(n, i), n.requests[i].request, n.clock); out != [] && out[0].ToPeer?
    ensures var InFlight(to, _, r) := n.requests[i]; var n' := Deliver(n, i, pause);
      && SeenWithin(n', to, r.peerId, n.clock, n'.clock)
      && SeenWithin(n', to, r.searchId, n.clock - CACHE_TIME + 1, n'.clock)
  {
    var InFlight(to, connection, r) := n.requests[i];
    var s := Receiver(n, i);
    var n' := Deliver(n, i, pause);
    assert Sighting(to, r.peerId, n'.clock) in n'.sightings;
    if Fresh(s, r.searchId, n.clock) {
      assert EntryOk(n, s.me, r.searchId, s.cache[r.searchId]);
      assert Sighting(to, r.searchId, s.cache[r.searchId].expiresAt - CACHE_TIME) in n'.sightings;
    } else {
      assert Sighting(to, r.searchId, n'.clock) in n'.sightings;
    }
  }

  lemma DeliveryAnswers(n: Network, i: nat, pause: nat)
    requires Inv(n) && Deliverable(n, i)
    requires var out := Sent(Receiver(n, i), n.requests[i].request, n.clock); out != [] && out[0].ToPeer?
    ensures var n' := Deliver(n, i, pause); AnswerOk(n', n'.answers[|n.answers|])
  {
    var s := Receiver(n, i);
    assert RequestOk(n, n.requests[i]);
    PathExtends(n, n.requests[i]);
    DeliveryGrows(n, i, pause);
    PathStays(n, Deliver(n, i, pause), n.requests[i].request.path + [s.me]);
    AnswerSees(n, i, pause);
  }

  lemma DeliveryRequest(n: Network, i: nat, pause: nat, f: InFlight)
    requires Inv(n) && Deliverable(n, i) && f in Deliver(n, i, pause).requests
    ensures RequestOk(n, f)
  {
    var out := Sent(Receiver(n, i), n.requests[i].request, n.clock);
    if f !in Without(n.requests, i) {
      assert f in Launched(Receiver(n, i), out);
      DeliveryForwards(n, i, f);
    }
  }

  lemma DeliveryRequests(n: Network, i: nat, pause: nat)
    requires Inv(n) && Deliverable(n, i)
    ensures var n' := Deliver(n, i, pause);
      forall j :: 0 <= j < |n'.requests| ==> RequestOk(n', n'.requests[j])
  {
    var n' := Deliver(n, i, pause);
    DeliveryGrows(n, i, pause);
    forall j | 0 <= j < |n'.requests| ensures RequestOk(n', n'.requests[j]) {
      DeliveryRequest(n, i, pause, n'.requests[j]);
      RequestStays(n, n', n'.requests[j]);
    }
  }

  lemma DeliveryKeeps(n: Network, i: nat, pause: nat)
    requires Inv(n) && Deliverable(n, i)
    ensures Inv(Deliver(n, i, pause))
  {
    var n' := Deliver(n, i, pause);
    var to := n.requests[i].to;
    DeliveryGrows(n, i, pause);
    forall key | key in n'.servers ensures n'.servers[key].me.uuid == key && CacheOk(n', n'.servers[key]) {
      if key == to {
        DeliveryCaches(n, i, pause);
      } else {
        CacheStays(n, n', n.servers[key]);
      }
    }
    DeliveryRequests(n, i, pause);
    forall j | 0 <= j < |n'.answers| ensures AnswerOk(n', n'.answers[j]) {
      if j == |n.answers| {
        DeliveryAnswers(n, i, pause);
      } else {
        AnswerStays(n, n', n.answers[j]);
      }
    }
  }

  /** A step that delivers nothing and keeps the caches and all but some of the requests. */
  lemma QuietStepKeeps(n: Network, n': Network)
    requires Inv(n) && Grows(n, n') && n'.answers == n.answers
    requires forall key :: key in n.servers ==> n'.servers[key].cache == n.servers[key].cache
    requires forall f :: f in n'.requests ==> f in n.requests || RequestOk(n, f)
    ensures Inv(n')
  {
    forall key | key in n'.servers ensures CacheOk(n', n'.servers[key]) {
      CacheStays(n, n', n.servers[key]);
    }
    forall j | 0 <= j < |n'.requests| ensures RequestOk(n', n'.requests[j]) {
      assert n'.requests[j] in n'.requests;
      RequestStays(n, n', n'.requests[j]);
    }
    forall j | 0 <= j < |n'.answers| ensures AnswerOk(n', n'.answers[j]) {
      AnswerStays(n, n', n.answers[j]);
    }
  }

  lemma StepKeeps(degree: nat, n: Network, step: Step)
    requires Inv(n) && Enabled(degree, n, step)
    ensures Inv(Do(degree, n, step))
  {
    if step.DeliverRequest? {
      DeliveryKeeps(n, step.i, step.pause);
    } else {
      QuietStepKeeps(n, Do(degree, n, step));
    }
  }

  lemma {:induction false} RunKeeps(degree: nat, n: Network, steps: seq<Step>, end: Network)
    requires Inv(n) && Run(degree, n, steps, end)
    ensures Inv(end)
    decreases |steps|
  {
    if steps != [] {
      StepKeeps(degree, n, steps[0]);
      RunKeeps(degree, Do(degree, n, steps[0]), steps[1..], end);
    }
  }

  /** Every request under way carries an honest path: hops used plus hops left are constant,
      the initiator comes first, and the rest is a walk along real connections. */
  lemma RequestPaths(degree: nat, start: Network, steps: seq<Step>, end: Network)
    requires Initial(start) && Run(degree, start, steps, end)
    ensures forall i :: 0 <= i < |end.requests| ==> RequestOk(end, end.requests[i])
  {
    RunKeeps(degree, start, steps, end);
  }

  /** Every answer is honest about whom it was asked for, about the server that gives it, and
      about the initiator, and rests on a connection label less than five minutes old. */
  lemma AnswerProvenance(degree: nat, start: Network, steps: seq<Step>, end: Network)
    requires Initial(start) && Run(degree, start, steps, end)
    ensures forall i :: 0 <= i < |end.answers| ==> AnswerOk(end, end.answers[i])
  {
    RunKeeps(degree, start, steps, end);
  }

  /** No server of the network underflows its path index on any answer, wherever it is relayed. */
  lemma RelaysNeverUnderflow(degree: nat, start: Network, steps: seq<Step>, end: Network, i: nat, key: string, up: seq<bool>)
    requires Initial(start) && Run(degree, start, steps, end)
    requires i < |end.answers| && key in end.servers
    ensures RelayOf(end.servers[key], end.answers[i].response, up) != Underflow
  {
    RunKeeps(degree, start, steps, end);
    assert AnswerOk(end, end.answers[i]);
    UnderflowsExactly(end.servers[key], end.answers[i].response, up);
  }

  /** While connections carry the keys of target and initiator, a cache hit sends what the scan would. */
  lemma CacheIsTransparent(degree: nat, start: Network, steps: seq<Step>, end: Network, key: string, r: Request, now: nat)
    requires Initial(start) && Run(degree, start, steps, end)
    requires key in end.servers
    requires Labelled(end.servers[key], r.peerId) && Labelled(end.servers[key], r.searchId)
    ensures var s := end.servers[key]; Sent(s, r, now) == Sent(s.(cache := map[]), r, now)
  {
    RunKeeps(degree, start, steps, end);
    assert CacheOk(end, end.servers[key]);
  }

  // --- Who is found -------------------------------------------------------

  /** What the server knows of the target when the request reaches it. */
  predicate Knows(n: Network, i: nat)
    requires Deliverable(n, i)
  {
    var InFlight(to, connection, r) := n.requests[i];
    var s := n.servers[to];
    Fresh(s, r.searchId, n.clock) || r.searchId == r.peerId || LabelledElsewhere(s, connection, r.searchId)
  }

  /** The request a server sends on. */
  function Onward(s: Server, r: Request): Request
    requires r.maxHops > 0
  {
    Request(r.searchId, r.peerId, r.maxHops - 1, r.path + [s.me])
  }

  /** A request that arrives over an open connection is answered exactly when the server knows
      the target, from a live cache entry or another connection; the answer goes back on a
      connection with the initiator's key. If not, it goes on to every server connected. */
  lemma DeliveryAnswersExactly(n: Network, i: nat, pause: nat)
    requires Deliverable(n, i) && Open(n.servers[n.requests[i].to], n.requests[i].connection)
    ensures var InFlight(to, connection, r) := n.requests[i]; var n' := Deliver(n, i, pause);
      if Knows(n, i) then
        && n'.requests == Without(n.requests, i)
        && |n'.answers| == |n.answers| + 1
        && var a := n'.answers[|n.answers|];
        && a.server == to && a.response.path == r.path + [n.servers[to].me]
        && Peer(a.via, Some(r.peerId)) in n'.servers[to].peers
      else
        && n'.answers == n.answers
        && |n'.requests| == |n.requests| - 1 + (if r.maxHops == 0 then 0 else |n.servers[to].links|)
        && n'.requests[..|n.requests| - 1] == Without(n.requests, i)
        && forall l :: 0 <= l < |n'.requests| - (|n.requests| - 1) ==>
          n'.requests[|n.requests| - 1 + l] == Launch(n.servers[to].links[l], Onward(n.servers[to], r))
  {
    var InFlight(to, connection, r) := n.requests[i];
    var s := n.servers[to];
    LabelledAfter(s, connection, r.peerId, r.searchId);
    LabelledAfter(s, connection, r.peerId, r.peerId);
    if Knows(n, i) {
      var out := Sent(Receiver(n, i), r, n.clock);
      assert Receiver(n, i).peers[out[0].peer].key == Some(r.peerId);
    }
  }

  /** The step leaves the connection under the key. */
  predicate KeepsLabel(n: Network, step: Step, server: string, connection: nat, key: string) {
    match step
    case DeliverRequest(i, _) =>
      i < |n.requests| && n.requests[i].to == server && n.requests[i].connection == connection ==>
        n.requests[i].request.peerId == key
    case SetPeers(at, peers) => at == server ==> Peer(connection, Some(key)) in peers
    case _ => true
  }

  ghost predicate LabelKept(degree: nat, n: Network, steps: seq<Step>, server: string, connection: nat, key: string)
    decreases |steps|
  {
    steps == [] ||
    (KeepsLabel(n, steps[0], server, connection, key) && Enabled(degree, n, steps[0])
     && LabelKept(degree, Do(degree, n, steps[0]), steps[1..], server, connection, key))
  }

  lemma StepKeepsLabel(degree: nat, n: Network, step: Step, server: string, connection: nat, key: string)
    requires Enabled(degree, n, step) && KeepsLabel(n, step, server, connection, key)
    requires server in n.servers && Peer(connection, Some(key)) in n.servers[server].peers
    ensures var n' := Do(degree, n, step);
      server in n'.servers && Peer(connection, Some(key)) in n'.servers[server].peers
  {
    if step.DeliverRequest? && n.requests[step.i].to == server {
      var k :| 0 <= k < |n.servers[server].peers| && n.servers[server].peers[k] == Peer(connection, Some(key));
      assert Receiver(n, step.i).peers[k] == Peer(connection, Some(key));
    }
  }

  lemma {:induction false} RunKeepsLabel(degree: nat, n: Network, steps: seq<Step>, end: Network,
                                         server: string, connection: nat, key: string)
    requires Run(degree, n, steps, end) && LabelKept(degree, n, steps, server, connection, key)
    requires server in n.servers && Peer(connection, Some(key)) in n.servers[server].peers
    ensures server in end.servers && Peer(connection, Some(key)) in end.servers[server].peers
    decreases |steps|
  {
    if steps != [] {
      StepKeepsLabel(degree, n, steps[0], server, connection, key);
      RunKeepsLabel(degree, Do(degree, n, steps[0]), steps[1..], end, server, connection, key);
    }
  }

  /** Labels say who searched over a connection, not who is attached: once a search of `A` came to
      a server, then as long as nothing gives that connection another key, the server answers
      every search for `A` over another open connection. */
  lemma SearchersAreFound(degree: nat, n: Network, i: nat, pause: nat, steps: seq<Step>, later: Network, j: nat, pause': nat)
    requires Deliverable(n, i) && Open(n.servers[n.requests[i].to], n.requests[i].connection)
    requires var InFlight(to, connection, r) := n.requests[i]; var n' := Deliver(n, i, pause);
      Run(degree, n', steps, later) && LabelKept(degree, n', steps, to, connection, r.peerId)
    requires Deliverable(later, j) && Open(later.servers[later.requests[j].to], later.requests[j].connection)
    requires var f, g := n.requests[i], later.requests[j];
      g.to == f.to && g.request.searchId == f.request.peerId && g.connection != f.connection
    ensures var end := Deliver(later, j, pause');
      |end.answers| == |later.answers| + 1 && end.answers[|later.answers|].server == n.requests[i].to
  {
    var n' := Deliver(n, i, pause);
    var InFlight(to, connection, r) := n.requests[i];
    var k :| 0 <= k < |n.servers[to].peers| && n.servers[to].peers[k].connection == connection;
    assert n'.servers[to].peers[k] == Peer(connection, Some(r.peerId));
    RunKeepsLabel(degree, n', steps, later, to, connection, r.peerId);
    DeliveryAnswersExactly(later, j, pause');
  }

  // --- Whether the answer comes back --------------------------------------

  predicate Distinct(s: Server) {
    forall j, k :: 0 <= j < k < |s.peers| ==> s.peers[j].connection != s.peers[k].connection
  }

  /** A connection before place `k` last carried a packet under the key. */
  predicate LabelledBefore(s: Server, k: nat, id: string) {
    exists j :: 0 <= j < k && j < |s.peers| && s.peers[j].key == Some(id)
  }

  lemma FirstIsAt(s: Server, k: nat, id: string)
    requires k < |s.peers| && s.peers[k].key == Some(id)
    ensures First(Keys(s.peers), Some(id)) == Some(k) <==> !LabelledBefore(s, k, id)
    ensures First(Keys(s.peers), Some(id)).Some? && First(Keys(s.peers), Some(id)).value <= k
  {
    var m := First(Keys(s.peers), Some(id)).value;
    if LabelledBefore(s, k, id) {
      var j :| 0 <= j < k && s.peers[j].key == Some(id);
      assert Keys(s.peers)[j] == Some(id);
    } else {
      assert s.peers[m].key == Some(id);
    }
  }

  /** The answer goes back over the connection the request came by exactly when no connection
      before it in the server's list carries the initiator's key. */
  lemma AnswersBackExactly(n: Network, i: nat, k: nat, pause: nat)
    requires Deliverable(n, i) && Knows(n, i)
    requires var s := n.servers[n.requests[i].to];
      Distinct(s) && k < |s.peers| && s.peers[k].connection == n.requests[i].connection
    ensures var InFlight(to, connection, r) := n.requests[i]; var n' := Deliver(n, i, pause);
      && |n'.answers| == |n.answers| + 1
      && (n'.answers[|n.answers|].via == connection <==> !LabelledBefore(n.servers[to], k, r.peerId))
  {
    var InFlight(to, connection, r) := n.requests[i];
    var s := Receiver(n, i);
    DeliveryAnswersExactly(n, i, pause);
    FirstIsAt(s, k, r.peerId);
    assert forall j :: 0 <= j < |s.peers| && j != k ==> s.peers[j] == n.servers[to].peers[j];
    assert LabelledBefore(s, k, r.peerId) <==> LabelledBefore(n.servers[to], k, r.peerId);
  }

  /** What a server next to the client's own, that knows the target, does for the client. The
      request comes from `a`, over one of the connections `a` opened, and `a` still has the client's
      key on connection `k`. The answer comes back over that connection, and `a` hands it to that
      client's connection, exactly when at neither server an earlier connection carries the key. */
  lemma NeighbourIsFound(n: Network, i: nat, m: nat, pause: nat, a: Server, k: nat, up: seq<bool>)
    requires Deliverable(n, i) && Knows(n, i)
    requires var InFlight(to, connection, r) := n.requests[i]; var b := n.servers[to];
      && Distinct(b) && m < |b.peers| && b.peers[m].connection == connection
      && Link(to, connection) in a.links
      && |r.path| == 2 && r.path[0].uuid == r.peerId && r.path[1] == a.me
      && a.me.uuid != r.peerId && b.me.uuid != a.me.uuid
      && k < |a.peers| && a.peers[k].key == Some(r.peerId)
    ensures var InFlight(to, connection, r) := n.requests[i]; var n' := Deliver(n, i, pause);
      && |n'.answers| == |n.answers| + 1
      && var answer := n'.answers[|n.answers|]; var relay := RelayOf(a, answer.response, up);
      && relay.HandOver? && relay.to == r.peerId
      && ((answer.via == connection && relay.peer == k)
          <==> !LabelledBefore(n.servers[to], m, r.peerId) && !LabelledBefore(a, k, r.peerId))
  {
    var InFlight(to, connection, r) := n.requests[i];
    AnswersBackExactly(n, i, m, pause);
    DeliveryAnswersExactly(n, i, pause);
    FirstIsAt(a, k, r.peerId);
    var response := Deliver(n, i, pause).answers[|n.answers|].response;
    assert Uuids(response.path)[1] == a.me.uuid && Uuids(response.path)[0] == r.peerId;
    FirstIsUnique(Uuids(response.path), a.me.uuid, Some(1));
  }

  /** Farther away it does not come back that way: a relay between two servers looks for the key of
      the server before it, and the request has put the initiator's key on that server's connection.
      Only another connection with the server's own key, or the first server it opened a
      connection to itself, can take the response. */
  lemma RelayLeavesTheWay(s: Server, k: nat, r: Response, up: seq<bool>)
    requires k < |s.peers| && s.peers[k].key == Some(r.peerId)
    requires var index := First(Uuids(r.path), s.me.uuid);
      index.Some? && 2 <= index.value < |r.path| - 1 && r.path[index.value - 1].uuid != r.peerId
    ensures var previous, relay := r.path[First(Uuids(r.path), s.me.uuid).value - 1].uuid, RelayOf(s, r, up);
      && (relay.HandOver? ==> relay.to == previous && relay.peer != k)
      && (relay.HandOver? <==> exists j :: 0 <= j < |s.peers| && j != k && s.peers[j].key == Some(previous))
      && (relay.PassOn? <==> !relay.HandOver? && true in up)
      && (relay.PassOn? ==> relay.to == previous && forall l :: 0 <= l < relay.link ==> !up[l])
  {
    var previous := r.path[First(Uuids(r.path), s.me.uuid).value - 1].uuid;
    if exists j :: 0 <= j < |s.peers| && j != k && s.peers[j].key == Some(previous) {
      var j :| 0 <= j < |s.peers| && j != k && s.peers[j].key == Some(previous);
      assert Keys(s.peers)[j] == Some(previous);
    }
  }

  // --- The flood is complete ----------------------------------------------

  /** The server does not know the target. */
  predicate Silent(s: Server, target: string, now: nat) {
    !Fresh(s, target, now) && !Labelled(s, target)
  }

  /** Servers `walk[0]`, `walk[1]`, ... each connected to the next, none of which knows the target. */
  ghost predicate SilentWalk(n: Network, target: string, walk: seq<string>) {
    && walk != []
    && (forall i :: 0 <= i < |walk| - 1 ==> walk[i] in n.servers && walk[i + 1] in Targets(n.servers[walk[i]]))
    && (forall key :: key in walk[..|walk| - 1] ==> key in n.servers && Silent(n.servers[key], target, n.clock))
  }

  function Nodes(n: Network, walk: seq<string>): seq<Node>
    requires forall i :: 0 <= i < |walk| ==> walk[i] in n.servers
  {
    seq(|walk|, i requires 0 <= i < |walk| => n.servers[walk[i]].me)
  }

  lemma SilentAfter(s: Server, connection: nat, key: string, target: string, now: nat)
    requires Silent(s, target, now) && target != key
    ensures Silent(Renamed(s, connection, key), target, now)
  {
    var s' := Renamed(s, connection, key);
    forall k | 0 <= k < |s'.peers| ensures s'.peers[k].key != Some(target) {
      assert Keys(s.peers)[k] != Some(target);
    }
  }

  /** A silent server forwards to each of its connections. */
  lemma ForwardReaches(n: Network, i: nat, to: string) returns (j: nat)
    requires Deliverable(n, i)
    requires var r, s := n.requests[i].request, n.servers[n.requests[i].to];
      to in Targets(s) && Silent(s, r.searchId, n.clock) && r.searchId != r.peerId && r.maxHops > 0
    ensures var r, s := n.requests[i].request, n.servers[n.requests[i].to]; var n' := Deliver(n, i, 0);
      && j < |n'.requests| && n'.requests[j].to == to
      && n'.requests[j].request == Request(r.searchId, r.peerId, r.maxHops - 1, r.path + [s.me])
      && Link(to, n'.requests[j].connection) in s.links
  {
    var s := n.servers[n.requests[i].to];
    var r := n.requests[i].request;
    SilentAfter(s, n.requests[i].connection, r.peerId, r.searchId, n.clock);
    var k :| 0 <= k < |s.links| && s.links[k].to == to;
    var n' := Deliver(n, i, 0);
    j := |n.requests| - 1 + k;
    assert n'.requests[j] == Launched(Receiver(n, i), Sent(Receiver(n, i), r, n.clock))[k];
  }

  lemma StaysSilent(n: Network, i: nat, key: string)
    requires Deliverable(n, i) && key in n.servers
    requires n.requests[i].request.searchId != n.requests[i].request.peerId
    requires Silent(n.servers[key], n.requests[i].request.searchId, n.clock)
    ensures Silent(Deliver(n, i, 0).servers[key], n.requests[i].request.searchId, Deliver(n, i, 0).clock)
  {
    var InFlight(to, connection, r) := n.requests[i];
    if key == to {
      SilentAfter(n.servers[to], connection, r.peerId, r.searchId, n.clock);
    }
  }

  lemma WalkGoesOn(n: Network, i: nat, walk: seq<string>)
    requires i < |n.requests| && n.requests[i].request.searchId != n.requests[i].request.peerId
    requires |walk| > 1 && SilentWalk(n, n.requests[i].request.searchId, walk) && n.requests[i].to == walk[0]
    ensures walk[0] in n.servers && SilentWalk(Deliver(n, i, 0), n.requests[i].request.searchId, walk[1..])
  {
    var rest := walk[1..];
    var target := n.requests[i].request.searchId;
    assert walk[0] in walk[..|walk| - 1];
    var n' := Deliver(n, i, 0);
    DeliveryGrows(n, i, 0);
    forall l | 0 <= l < |rest| - 1 ensures rest[l] in n'.servers && rest[l + 1] in Targets(n'.servers[rest[l]]) {
      assert rest[l] == walk[l + 1] && rest[l + 1] == walk[l + 2];
    }
    forall key | key in rest[..|rest| - 1] ensures key in n'.servers && Silent(n'.servers[key], target, n'.clock) {
      assert key in walk[..|walk| - 1];
      StaysSilent(n, i, key);
    }
  }

  lemma NodesJoin(n: Network, n': Network, walk: seq<string>)
    requires Grows(n, n') && walk != [] && forall l :: 0 <= l < |walk| ==> walk[l] in n.servers
    ensures [n.servers[walk[0]].me] + Nodes(n', walk[1..]) == Nodes(n, walk)
  {
  }

  /** Request `j` of `end` is request `i` of `n` come to the end of the walk. */
  ghost predicate Arrives(n: Network, i: nat, walk: seq<string>, end: Network, j: nat)
    requires i < |n.requests| && walk != []
  {
    && j < |end.requests|
    && (forall l :: 0 <= l < |walk| - 1 ==> walk[l] in n.servers)
    && end.requests[j].to == walk[|walk| - 1]
    && var r, r' := n.requests[i].request, end.requests[j].request;
    && r'.searchId == r.searchId && r'.peerId == r.peerId && r'.maxHops == r.maxHops - (|walk| - 1)
    && r'.path == r.path + Nodes(n, walk[..|walk| - 1])
  }

  lemma ArrivesFromHere(n: Network, i: nat, n': Network, i': nat, walk: seq<string>, end: Network, j: nat)
    requires i < |n.requests| && |walk| > 1 && n.requests[i].to == walk[0] && walk[0] in n.servers && Grows(n, n')
    requires var r := n.requests[i].request;
      && i' < |n'.requests| && r.maxHops > 0
      && n'.requests[i'].request == Request(r.searchId, r.peerId, r.maxHops - 1, r.path + [n.servers[walk[0]].me])
      && Arrives(n', i', walk[1..], end, j)
    ensures Arrives(n, i, walk, end, j)
  {
    var front := walk[..|walk| - 1];
    forall l | 0 <= l < |walk| - 1 ensures walk[l] in n.servers {
      assert l > 0 ==> walk[1..][l - 1] == walk[l];
    }
    NodesJoin(n, n', front);
    assert front[1..] == walk[1..][..|walk| - 2];
  }

  lemma Prepend(degree: nat, n: Network, i: nat, steps: seq<Step>, end: Network)
    requires Deliverable(n, i) && Run(degree, Deliver(n, i, 0), steps, end)
    ensures Run(degree, n, [DeliverRequest(i, 0)] + steps, end)
  {
    assert ([DeliverRequest(i, 0)] + steps)[1..] == steps;
  }

  /** Every walk of servers that do not know the target, no longer than the hop limit, can be
      followed to its end: some order of deliveries brings the search there, with the walk as
      its path. (A search for oneself is answered by the first server.) */
  lemma {:induction false} FloodReaches(degree: nat, n: Network, i: nat, walk: seq<string>)
    returns (steps: seq<Step>, end: Network, j: nat)
    requires i < |n.requests| && n.requests[i].request.searchId != n.requests[i].request.peerId
    requires SilentWalk(n, n.requests[i].request.searchId, walk) && n.requests[i].to == walk[0]
    requires |walk| - 1 <= n.requests[i].request.maxHops
    ensures Run(degree, n, steps, end) && Arrives(n, i, walk, end, j)
    decreases |walk|
  {
    if |walk| == 1 {
      steps, end, j := [], n, i;
    } else {
      assert walk[0] in walk[..|walk| - 1];
      var i' := ForwardReaches(n, i, walk[1]);
      var n' := Deliver(n, i, 0);
      WalkGoesOn(n, i, walk);
      steps, end, j := FloodReaches(degree, n', i', walk[1..]);
      DeliveryGrows(n, i, 0);
      ArrivesFromHere(n, i, n', i', walk, end, j);
      Prepend(degree, n, i, steps, end);
      steps := [DeliverRequest(i, 0)] + steps;
    }
  }
}
