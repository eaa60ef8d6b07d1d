/** What the search cache is for: a server that has found a peer on a connection goes on answering
    for it during five minutes, whether the connection is still there or not. */
module SearchMemory {
  import opened Basics
  import opened PeerSearch
  import opened SearchNetwork

  /** Five minutes, in milliseconds. */
  const MEMORY: nat := 300_000

  /** When, if ever, the server last looked through its connections and found the target there. */
  type Finding = Option<nat>

  predicate Remembered(found: Finding, now: nat) {
    found.Some? && now < found.value + MEMORY
  }

  /** A delivered search has the server look through its connections unless it can answer from
      memory; if it finds the target, that is what it remembers. */
  function Recall(n: Network, step: Step, server: string, target: string, found: Finding): Finding {
    if step.DeliverRequest? && Deliverable(n, step.i)
       && n.requests[step.i].to == server && n.requests[step.i].request.searchId == target
       && Labelled(Receiver(n, step.i), target)
       && !(Remembered(found, n.clock) && Labelled(Receiver(n, step.i), n.requests[step.i].request.peerId))
    then Some(n.clock + step.pause)
    else found
  }

  /** The same after a run. */
  function Findings(degree: nat, n: Network, steps: seq<Step>, server: string, target: string, found: Finding): Finding
    decreases |steps|
  {
    if steps == [] || !Enabled(degree, n, steps[0]) then found
    else Findings(degree, Do(degree, n, steps[0]), steps[1..], server, target, Recall(n, steps[0], server, target, found))
  }

  /** The cache agrees with the finding. */
  ghost predicate Keeps(n: Network, server: string, target: string, found: Finding) {
    server in n.servers ==>
      match found
      case None => target !in n.servers[server].cache
      case Some(t) => target in n.servers[server].cache && n.servers[server].cache[target].expiresAt == t + MEMORY
  }

  lemma DeliveryRecalls(n: Network, i: nat, pause: nat, server: string, target: string, found: Finding)
    requires Deliverable(n, i) && Keeps(n, server, target, found)
    ensures Keeps(SearchNetwork.Deliver(n, i, pause), server, target, Recall(n, DeliverRequest(i, pause), server, target, found))
  {
  }

  lemma StepRecalls(degree: nat, n: Network, step: Step, server: string, target: string, found: Finding)
    requires Enabled(degree, n, step) && Keeps(n, server, target, found)
    ensures Keeps(Do(degree, n, step), server, target, Recall(n, step, server, target, found))
  {
    if step.DeliverRequest? {
      DeliveryRecalls(n, step.i, step.pause, server, target, found);
    }
  }

  lemma {:induction false} RunRecalls(degree: nat, n: Network, steps: seq<Step>, end: Network,
                                      server: string, target: string, found: Finding)
    requires Run(degree, n, steps, end) && Keeps(n, server, target, found)
    ensures Keeps(end, server, target, Findings(degree, n, steps, server, target, found))
    decreases |steps|
  {
    if steps != [] {
      StepRecalls(degree, n, steps[0], server, target, found);
      RunRecalls(degree, Do(degree, n, steps[0]), steps[1..], end, server, target,
                 Recall(n, steps[0], server, target, found));
    }
  }

  /** The delivery sends an answer. */
  predicate AnswersOn(n: Network, i: nat, pause: nat)
    requires Deliverable(n, i)
  {
    |SearchNetwork.Deliver(n, i, pause).answers| > |n.answers|
  }

  lemma AnsweredWhenKnown(n: Network, i: nat, pause: nat, server: string, found: Finding)
    requires Deliverable(n, i) && Open(n.servers[n.requests[i].to], n.requests[i].connection)
    requires Keeps(n, n.requests[i].to, n.requests[i].request.searchId, found)
    ensures var InFlight(to, connection, r) := n.requests[i];
      AnswersOn(n, i, pause) <==>
        r.searchId == r.peerId || LabelledElsewhere(n.servers[to], connection, r.searchId) || Remembered(found, n.clock)
  {
    DeliveryAnswersExactly(n, i, pause);
  }

  /** In every run a search that arrives over an open connection is answered exactly when its
      initiator searches for itself, another connection carries the target's key, or the server
      found the target less than five minutes ago. */
  lemma AnsweredFromMemoryExactly(degree: nat, start: Network, steps: seq<Step>, end: Network, i: nat, pause: nat)
    requires Initial(start) && Run(degree, start, steps, end)
    requires Deliverable(end, i) && Open(end.servers[end.requests[i].to], end.requests[i].connection)
    ensures var InFlight(to, connection, r) := end.requests[i];
      AnswersOn(end, i, pause) <==>
        || r.searchId == r.peerId
        || LabelledElsewhere(end.servers[to], connection, r.searchId)
        || Remembered(Findings(degree, start, steps, to, r.searchId, None), end.clock)
  {
    var InFlight(to, _, r) := end.requests[i];
    RunRecalls(degree, start, steps, end, to, r.searchId, None);
    AnsweredWhenKnown(end, i, pause, to, Findings(degree, start, steps, to, r.searchId, None));
  }

  /** No delivery of the run finds the target at the server on a connection. */
  ghost predicate NotFoundAgain(degree: nat, n: Network, steps: seq<Step>, server: string, target: string)
    decreases |steps|
  {
    steps == [] ||
    (Enabled(degree, n, steps[0])
     && (steps[0].DeliverRequest? && n.requests[steps[0].i].to == server && n.requests[steps[0].i].request.searchId == target ==>
           !Labelled(Receiver(n, steps[0].i), target))
     && NotFoundAgain(degree, Do(degree, n, steps[0]), steps[1..], server, target))
  }

  lemma {:induction false} FindingStays(degree: nat, n: Network, steps: seq<Step>, server: string, target: string, found: Finding)
    requires NotFoundAgain(degree, n, steps, server, target)
    ensures Findings(degree, n, steps, server, target, found) == found
    decreases |steps|
  {
    if steps != [] {
      FindingStays(degree, Do(degree, n, steps[0]), steps[1..], server, target, found);
    }
  }

  /** A delivery that finds the target on a connection, with nothing cached that is still valid, and
      ends at time `t`: until the target is found again, and once no other connection carries its
      key, a search by somebody else is answered exactly before `t` + 300000 milliseconds. */
  lemma FoundForFiveMinutes(degree: nat, n: Network, i: nat, pause: nat, steps: seq<Step>, later: Network, j: nat, pause': nat)
    requires Deliverable(n, i)
    requires var InFlight(to, _, r) := n.requests[i]; var cache := n.servers[to].cache;
      && Labelled(Receiver(n, i), r.searchId)
      && (r.searchId in cache ==> cache[r.searchId].expiresAt <= n.clock)
      && Run(degree, SearchNetwork.Deliver(n, i, pause), steps, later)
      && NotFoundAgain(degree, SearchNetwork.Deliver(n, i, pause), steps, to, r.searchId)
    requires Deliverable(later, j) && Open(later.servers[later.requests[j].to], later.requests[j].connection)
    requires var f, g := n.requests[i], later.requests[j];
      && g.to == f.to && g.request.searchId == f.request.searchId && g.request.peerId != g.request.searchId
      && !LabelledElsewhere(later.servers[g.to], g.connection, g.request.searchId)
    ensures AnswersOn(later, j, pause') <==> later.clock < n.clock + pause + 300_000
  {
    var InFlight(to, _, r) := n.requests[i];
    var n' := SearchNetwork.Deliver(n, i, pause);
    var found := Some(n.clock + pause);
    FreshlyFound(n, i, pause);
    FindingStays(degree, n', steps, to, r.searchId, found);
    RunRecalls(degree, n', steps, later, to, r.searchId, found);
    AnsweredWhenKnown(later, j, pause', to, found);
  }

  lemma FreshlyFound(n: Network, i: nat, pause: nat)
    requires Deliverable(n, i)
    requires var InFlight(to, _, r) := n.requests[i]; var cache := n.servers[to].cache;
      Labelled(Receiver(n, i), r.searchId) && (r.searchId in cache ==> cache[r.searchId].expiresAt <= n.clock)
    ensures Keeps(SearchNetwork.Deliver(n, i, pause), n.requests[i].to, n.requests[i].request.searchId, Some(n.clock + pause))
  {
  }
}
