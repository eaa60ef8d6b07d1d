/** A search whose target is known next door and whose answer never arrives: a concrete run. */
module StrayAnswer {
  import opened Basics
  import opened PeerSearch
  import opened SearchNetwork

  /** The server opened the connection the answer went out on, and so receives it. */
  predicate Reads(s: Server, answer: Answered) {
    Link(answer.server, answer.via) in s.links
  }

  lemma {:induction false} OneMoreStep(degree: nat, start: Network, steps: seq<Step>, n: Network, step: Step)
    returns (steps': seq<Step>, n': Network)
    requires Run(degree, start, steps, n) && Enabled(degree, n, step)
    ensures Run(degree, start, steps', n') && n' == Do(degree, n, step)
    decreases |steps|
  {
    steps', n' := steps + [step], Do(degree, n, step);
    if steps == [] {
      assert steps' == [step] && [step][1..] == [];
    } else {
      var rest, _ := OneMoreStep(degree, Do(degree, start, steps[0]), steps[1..], n, step);
      steps' := [steps[0]] + rest;
      assert steps'[1..] == rest;
    }
  }

  function At(uuid: string): Node {
    Node(uuid, "", 0)
  }

  /** `A` and `D`, each perhaps connected to `B`, where the target `T` is attached; and the keys of
      their first connections. */
  ghost predicate Three(n: Network, a: Option<string>, fromA: seq<Link>, d: Option<string>, fromD: seq<Link>, b: Option<string>) {
    && n.servers.Keys == {"A", "B", "D"}
    && n.servers["A"] == Server(At("A"), [Peer(1, a)], fromA, map[])
    && n.servers["B"] == Server(At("B"), [Peer(1, b), Peer(2, None), Peer(3, Some("T"))], [], map[])
    && n.servers["D"] == Server(At("D"), [Peer(1, d)], fromD, map[])
  }

  /** The only request under way reaches a server that knows nobody. */
  lemma OneForwards(n: Network)
    requires |n.requests| == 1 && Deliverable(n, 0)
    requires var InFlight(to, connection, r) := n.requests[0]; var s := n.servers[to];
      && s.cache == map[] && Open(s, connection) && !Knows(n, 0) && r.maxHops > 0 && |s.links| <= 1
    ensures var InFlight(to, _, r) := n.requests[0]; var s := n.servers[to]; var n' := SearchNetwork.Deliver(n, 0, 0);
      && n'.servers == n.servers[to := Receiver(n, 0)] && n'.answers == n.answers
      && n'.requests == if s.links == [] then [] else [Launch(s.links[0], Onward(s, r))]
  {
    var InFlight(to, connection, r) := n.requests[0];
    DeliveryAnswersExactly(n, 0, 0);
    LabelledAfter(n.servers[to], connection, r.peerId, r.searchId);
  }

  lemma OpenAt(s: Server, k: nat)
    requires k < |s.peers|
    ensures Open(s, s.peers[k].connection)
  {
  }

  lemma SearchAtD(n: Network, found: Network)
    requires Three(n, None, [Link("B", 2)], None, [Link("B", 1)], None)
    requires n.requests == [InFlight("D", 1, Request("X", "C", HOPS, [At("C")]))] && found == SearchNetwork.Deliver(n, 0, 0)
    ensures Three(found, None, [Link("B", 2)], Some("C"), [Link("B", 1)], None) && found.answers == n.answers
    ensures found.requests == [InFlight("B", 1, Request("X", "C", HOPS - 1, [At("C"), At("D")]))]
  {
    OpenAt(n.servers["D"], 0);
    OneForwards(n);
    assert Receiver(n, 0).peers == [Peer(1, Some("C"))];
    assert [At("C")] + [n.servers[n.requests[0].to].me] == [At("C"), n.servers[n.requests[0].to].me];
  }

  lemma SearchAtB(n: Network, found: Network)
    requires Three(n, None, [Link("B", 2)], Some("C"), [Link("B", 1)], None)
    requires n.requests == [InFlight("B", 1, Request("X", "C", HOPS - 1, [At("C"), At("D")]))] && found == SearchNetwork.Deliver(n, 0, 0)
    ensures Three(found, None, [Link("B", 2)], Some("C"), [Link("B", 1)], Some("C"))
    ensures found.requests == [] && found.answers == n.answers
  {
    OpenAt(n.servers["B"], 0);
    OneForwards(n);
    assert Receiver(n, 0).peers == [Peer(1, Some("C")), Peer(2, None), Peer(3, Some("T"))];
  }

  lemma SearchAtA(n: Network, found: Network)
    requires Three(n, None, [Link("B", 2)], Some("C"), [Link("B", 1)], Some("C"))
    requires n.requests == [InFlight("A", 1, Request("T", "C", HOPS, [At("C")]))] && found == SearchNetwork.Deliver(n, 0, 0)
    ensures Three(found, Some("C"), [Link("B", 2)], Some("C"), [Link("B", 1)], Some("C")) && found.answers == n.answers
    ensures found.requests == [InFlight("B", 2, Request("T", "C", HOPS - 1, [At("C"), At("A")]))]
  {
    OpenAt(n.servers["A"], 0);
    OneForwards(n);
    assert Receiver(n, 0).peers == [Peer(1, Some("C"))];
    assert [At("C")] + [n.servers[n.requests[0].to].me] == [At("C"), n.servers[n.requests[0].to].me];
  }

  lemma LinksStay(n: Network)
    requires Deliverable(n, 0)
    ensures var n' := SearchNetwork.Deliver(n, 0, 0);
      && n'.servers.Keys == n.servers.Keys
      && forall key :: key in n.servers ==> n'.servers[key].me == n.servers[key].me && n'.servers[key].links == n.servers[key].links
  {
  }

  /** An answer to the first request under way, when connection `k` is the first of its key. */
  lemma AnswerIs(n: Network, k: nat)
    requires Deliverable(n, 0) && n.answers == []
    requires var InFlight(to, connection, r) := n.requests[0]; var s := n.servers[to];
      && Open(s, connection) && Knows(n, 0) && k < |s.peers| && s.peers[k].key == Some(r.peerId) && !LabelledBefore(s, k, r.peerId)
      && s.peers[k].connection != connection && forall j :: 0 <= j < k ==> s.peers[j].connection != connection
    ensures var InFlight(to, _, r) := n.requests[0]; var s := n.servers[to]; var n' := SearchNetwork.Deliver(n, 0, 0);
      && n'.requests == Without(n.requests, 0) && |n'.answers| == 1
      && var answer := n'.answers[0];
      && answer.server == to && answer.via == s.peers[k].connection
      && answer.response.peerId == r.peerId && answer.response.searchId == r.searchId
      && answer.response.path == r.path + [s.me]
  {
    var InFlight(to, connection, r) := n.requests[0];
    var s := Receiver(n, 0);
    DeliveryAnswersExactly(n, 0, 0);
    assert !LabelledBefore(s, k, r.peerId) by {
      assert forall j :: 0 <= j < k ==> s.peers[j] == n.servers[to].peers[j];
    }
    FirstIsAt(s, k, r.peerId);
  }

  /** The answer has gone to `D`, and nothing else is under way. */
  ghost predicate Stray(n: Network) {
    && n.servers.Keys == {"A", "B", "D"} && n.requests == [] && |n.answers| == 1
    && n.servers["A"].links == [Link("B", 2)] && n.servers["B"].links == []
    && n.servers["D"].links == [Link("B", 1)] && n.servers["D"].me == At("D")
    && var answer := n.answers[0];
    && answer.server == "B" && answer.via == 1
    && answer.response.peerId == "C" && answer.response.searchId == "T"
    && answer.response.path == [At("C"), At("A"), At("B")]
  }

  lemma AnswerAtB(n: Network, found: Network)
    requires Three(n, Some("C"), [Link("B", 2)], Some("C"), [Link("B", 1)], Some("C")) && n.answers == []
    requires n.requests == [InFlight("B", 2, Request("T", "C", HOPS - 1, [At("C"), At("A")]))]
    requires found == SearchNetwork.Deliver(n, 0, 0)
    ensures Stray(found)
  {
    var b := n.servers["B"];
    OpenAt(b, 1);
    assert b.peers[2].key == Some("T") && b.peers[0].key == Some("C");
    AnswerIs(n, 0);
    LinksStay(n);
    assert [At("C"), At("A")] + [At("B")] == [At("C"), At("A"), At("B")];
  }

  lemma Searches(start: Network, steps: seq<Step>, n: Network, server: string, target: string)
    returns (steps': seq<Step>, n': Network)
    requires Run(1, start, steps, n) && server in n.servers && "C" !in n.servers && n.requests == []
    ensures Run(1, start, steps', n') && n'.servers == n.servers && n'.answers == n.answers
    ensures n'.requests == [InFlight(server, 1, Request(target, "C", HOPS, [At("C")]))]
  {
    steps', n' := OneMoreStep(1, start, steps, n, Search(At("C"), server, 1, target));
  }

  lemma Delivers(start: Network, steps: seq<Step>, n: Network) returns (steps': seq<Step>, n': Network)
    requires Run(1, start, steps, n) && Deliverable(n, 0)
    ensures Run(1, start, steps', n') && n' == SearchNetwork.Deliver(n, 0, 0)
  {
    steps', n' := OneMoreStep(1, start, steps, n, DeliverRequest(0, 0));
  }

  lemma Connects(start: Network) returns (steps: seq<Step>, n: Network)
    requires Three(start, None, [], None, [], None) && start.requests == [] && start.answers == []
    ensures Run(1, start, steps, n) && n.requests == [] && n.answers == []
    ensures Three(n, None, [Link("B", 2)], None, [Link("B", 1)], None)
  {
    steps, n := OneMoreStep(1, start, [], start, Connect("D", Link("B", 1)));
    steps, n := OneMoreStep(1, start, steps, n, Connect("A", Link("B", 2)));
  }

  lemma FirstSearch(start: Network) returns (steps: seq<Step>, end: Network)
    requires Three(start, None, [], None, [], None) && start.requests == [] && start.answers == []
    ensures Run(1, start, steps, end) && end.requests == [] && end.answers == []
    ensures Three(end, None, [Link("B", 2)], Some("C"), [Link("B", 1)], Some("C"))
  {
    var n;
    steps, n := Connects(start);
    steps, n := Searches(start, steps, n, "D", "X");
    steps, end := Delivers(start, steps, n);
    SearchAtD(n, end);
    n := end;
    steps, end := Delivers(start, steps, n);
    SearchAtB(n, end);
  }

  lemma SecondSearch(start: Network, before: seq<Step>, n: Network) returns (steps: seq<Step>, end: Network)
    requires Run(1, start, before, n) && n.requests == [] && n.answers == []
    requires Three(n, None, [Link("B", 2)], Some("C"), [Link("B", 1)], Some("C"))
    ensures Run(1, start, steps, end) && Stray(end)
  {
    var asked, forwarded;
    steps, asked := Searches(start, before, n, "A", "T");
    steps, forwarded := Delivers(start, steps, asked);
    SearchAtA(asked, forwarded);
    steps, end := Delivers(start, steps, forwarded);
    AnswerAtB(forwarded, end);
  }

  lemma NobodyRelays(n: Network, key: string, up: seq<bool>)
    requires Stray(n) && key in n.servers && Reads(n.servers[key], n.answers[0])
    ensures RelayOf(n.servers[key], n.answers[0].response, up) == Ignored
  {
    assert key == "D";
    assert "D" !in Uuids(n.answers[0].response.path);
  }

  /** It does go astray: the client first searches for something else through `D`, so that `D`'s
      connection to `B` carries its key; then it searches for `T` through `A`. `B` answers, to `D`,
      which ignores the answer, and nobody else reads it. */
  lemma AnswerGoesAstray() returns (start: Network, steps: seq<Step>, end: Network)
    ensures Initial(start) && Run(1, start, steps, end) && end.requests == []
    ensures |end.answers| == 1 && end.answers[0].server == "B"
    ensures end.answers[0].response.peerId == "C" && end.answers[0].response.searchId == "T"
    ensures "D" in end.servers && Reads(end.servers["D"], end.answers[0])
    ensures forall key, up :: key in end.servers && Reads(end.servers[key], end.answers[0]) ==>
      RelayOf(end.servers[key], end.answers[0].response, up) == Ignored
  {
    var b := Server(At("B"), [Peer(1, None), Peer(2, None), Peer(3, Some("T"))], [], map[]);
    start := Network(map["A" := Server(At("A"), [Peer(1, None)], [], map[]), "B" := b,
                         "D" := Server(At("D"), [Peer(1, None)], [], map[])], 0, [], [], {}, 0, 0);
    steps, end := FirstSearch(start);
    steps, end := SecondSearch(start, steps, end);
    forall key, up | key in end.servers && Reads(end.servers[key], end.answers[0])
      ensures RelayOf(end.servers[key], end.answers[0].response, up) == Ignored
    {
      NobodyRelays(end, key, up);
    }
  }
}
