/** One signal server's part in the peer search: answer from the cache, answer from the
    attached peers, or forward with one hop fewer; and relay answers back along a path. */
module PeerSearch {
  import opened Basics

  /** Five minutes, in milliseconds. */
  const CACHE_TIME: nat := 300_000

  datatype Node = Node(uuid: string, publicIp: string, publicPort: int)

  datatype Request = Request(searchId: string, peerId: string, maxHops: u32, path: seq<Node>)

  datatype Response = Response(searchId: string, peerId: string, foundPeerId: string,
                               publicIp: string, publicPort: int, hops: u32, path: seq<Node>)

  datatype CacheEntry = CacheEntry(foundPeerId: string, publicIp: string, publicPort: int, expiresAt: nat)

  /** A connection to this server and the key of the last packet that came over it, if any.
      Clients and servers that connected to it are peers alike. */
  datatype Peer = Peer(connection: nat, key: Option<string>)

  /** A connection this server opened: the server it leads to, and its number over there. */
  datatype Link = Link(to: string, connection: nat)

  datatype Server = Server(me: Node, peers: seq<Peer>, links: seq<Link>, cache: map<string, CacheEntry>)

  datatype Outgoing =
    | ToPeer(peer: nat, response: Response)
    | ToServer(link: nat, request: Request)

  /** `r` is the first place in `s` where `x` stands. */
  ghost predicate IsFirst<T>(s: seq<T>, x: T, r: Option<nat>) {
    match r
    case None => x !in s
    case Some(i) => i < |s| && s[i] == x && forall j :: 0 <= j < i ==> s[j] != x
  }

  function First<T(==)>(s: seq<T>, x: T): (r: Option<nat>)
    ensures IsFirst(s, x, r)
  {
    if s == [] then None
    else if s[0] == x then Some(0)
    else
      match First(s[1..], x)
      case None => None
      case Some(i) => Some(i + 1)
  }

  lemma FirstIsUnique<T>(s: seq<T>, x: T, r: Option<nat>)
    requires IsFirst(s, x, r)
    ensures First(s, x) == r
  {
  }

  // --- Requests -----------------------------------------------------------

  predicate Fresh(s: Server, id: string, now: nat) {
    id in s.cache && s.cache[id].expiresAt > now
  }

  function Keys(peers: seq<Peer>): (r: seq<Option<string>>)
    ensures |r| == |peers|
    ensures forall i :: 0 <= i < |peers| ==> r[i] == peers[i].key
  {
    seq(|peers|, i requires 0 <= i < |peers| => peers[i].key)
  }

  /** Some connection last carried a packet under this key. */
  predicate Labelled(s: Server, id: string) {
    Some(id) in Keys(s.peers)
  }

  /** Every packet names the connection it came over anew. */
  function Relabel(peers: seq<Peer>, connection: nat, key: string): (r: seq<Peer>)
    ensures |r| == |peers|
    ensures forall i :: 0 <= i < |peers| ==>
      r[i] == if peers[i].connection == connection then Peer(connection, Some(key)) else peers[i]
  {
    seq(|peers|, i requires 0 <= i < |peers| =>
      if peers[i].connection == connection then Peer(connection, Some(key)) else peers[i])
  }

  function Renamed(s: Server, connection: nat, key: string): Server {
    s.(peers := Relabel(s.peers, connection, key))
  }

  function Answer(s: Server, r: Request, found: string): Response {
    Response(r.searchId, r.peerId, found, s.me.publicIp, s.me.publicPort, 0, r.path + [s.me])
  }

  function ToEachServer(links: nat, r: Request): seq<Outgoing> {
    seq(links, i requires 0 <= i < links => ToServer(i, r))
  }

  function Forwarded(s: Server, r: Request): seq<Outgoing> {
    if r.maxHops == 0 then []
    else
      var next := Request(r.searchId, r.peerId, r.maxHops - 1, r.path + [s.me]);
      ToEachServer(|s.links|, next)
  }

  function Remember(s: Server, id: string, later: nat): Server {
    s.(cache := s.cache[id := CacheEntry(id, s.me.publicIp, s.me.publicPort, later + CACHE_TIME)])
  }

  /** `now` is the reading that checks the cache, `later` the one that dates a new entry. */
  function ServerAfter(s: Server, r: Request, now: nat, later: nat): Server {
    if Fresh(s, r.searchId, now) && Labelled(s, r.peerId) then s
    else if Labelled(s, r.searchId) then Remember(s, r.searchId, later)
    else s
  }

  function Sent(s: Server, r: Request, now: nat): seq<Outgoing> {
    if Labelled(s, r.peerId) && (Fresh(s, r.searchId, now) || Labelled(s, r.searchId)) then
      var found := if Fresh(s, r.searchId, now) then s.cache[r.searchId].foundPeerId else r.searchId;
      [ToPeer(First(Keys(s.peers), Some(r.peerId)).value, Answer(s, r, found))]
    else Forwarded(s, r)
  }

  // --- Responses ----------------------------------------------------------

  function Uuids(path: seq<Node>): (r: seq<string>)
    ensures |r| == |path|
    ensures forall i :: 0 <= i < |path| ==> r[i] == path[i].uuid
  {
    seq(|path|, i requires 0 <= i < |path| => path[i].uuid)
  }

  /** Where a response goes next; `Underflow` is the index `0 - 1`. */
  datatype Relay =
    | Ignored
    | Underflow
    | Deliver(peer: nat)
    | HandOver(to: string, peer: nat)
    | PassOn(to: string, link: nat)
    | Lost

  /** `up[i]` tells whether connection `i` to another server takes the packet. */
  function RelayOf(s: Server, r: Response, up: seq<bool>): Relay {
    match First(Uuids(r.path), s.me.uuid)
    case None => Ignored
    case Some(index) =>
      if index == |r.path| - 1 then
        match First(Keys(s.peers), Some(r.peerId))
        case None => Lost
        case Some(p) => Deliver(p)
      else if index == 0 then Underflow
      else
        var to := r.path[index - 1].uuid;
        match First(Keys(s.peers), Some(to))
        case Some(p) => HandOver(to, p)
        case None =>
          match First(up, true)
          case None => Lost
          case Some(link) => PassOn(to, link)
  }

  class PeerSearchManager {
    const me: Node
    var peers: seq<Peer>
    var connectedServers: seq<Link>
    var searchCache: map<string, CacheEntry>

    ghost function Now(): Server
      reads this
    {
      Server(me, peers, connectedServers, searchCache)
    }

    constructor (me: Node)
      ensures Now() == Server(me, [], [], map[])
    {
      this.me := me;
      peers, connectedServers, searchCache := [], [], map[];
    }

    /** The scan over the attached peers that every branch repeats. */
    method FindPeer(id: string) returns (r: Option<nat>)
      ensures r == First(Keys(peers), Some(id))
    {
      r := None;
      var i := 0;
      while i < |peers|
        invariant 0 <= i <= |peers|
        invariant r == None && forall j :: 0 <= j < i ==> peers[j].key != Some(id)
      {
        if peers[i].key == Some(id) {
          r := Some(i);
          break;
        }
        i := i + 1;
      }
      FirstIsUnique(Keys(peers), Some(id), r);
    }

    method SetPeerKey(connection: nat, key: string)
      modifies this`peers
      ensures Now() == Renamed(old(Now()), connection, key)
    {
      peers := Relabel(peers, connection, key);
    }

    /** A search packet arrives: `handle_message` relabels its connection, then searches. */
    method HandleMessage(connection: nat, request: Request, now: nat, later: nat) returns (out: seq<Outgoing>)
      modifies this`peers, this`searchCache
      ensures var s := Renamed(old(Now()), connection, request.peerId);
        Now() == ServerAfter(s, request, now, later) && out == Sent(s, request, now)
    {
      SetPeerKey(connection, request.peerId);
      out := HandleSearchRequest(request, now, later);
    }

    method HandleSearchRequest(request: Request, now: nat, later: nat) returns (out: seq<Outgoing>)
      modifies this`searchCache
      ensures Now() == ServerAfter(old(Now()), request, now, later)
      ensures out == Sent(old(Now()), request, now)
    {
      ghost var before := Now();
      var Request(searchId, peerId, maxHops, path) := request;
      var extended := path + [me];
      if searchId in searchCache && searchCache[searchId].expiresAt > now {
        var response := Response(searchId, peerId, searchCache[searchId].foundPeerId, me.publicIp, me.publicPort, 0, extended);
        var initiator := FindPeer(peerId);
        if initiator.Some? {
          return [ToPeer(initiator.value, response)];
        }
      }
      var target := FindPeer(searchId);
      if target.Some? {
        var response := Response(searchId, peerId, searchId, me.publicIp, me.publicPort, 0, extended);
        searchCache := searchCache[searchId := CacheEntry(searchId, me.publicIp, me.publicPort, later + CACHE_TIME)];
        var initiator := FindPeer(peerId);
        if initiator.Some? {
          return [ToPeer(initiator.value, response)];
        }
      }
      out := [];
      if maxHops > 0 {
        var newRequest := Request(searchId, peerId, maxHops - 1, extended);
        var i := 0;
        while i < |connectedServers|
          invariant 0 <= i <= |connectedServers|
          invariant out == ToEachServer(i, newRequest)
        {
          out := out + [ToServer(i, newRequest)];
          i := i + 1;
        }
      }
    }

    method HandleSearchResponse(response: Response, up: seq<bool>) returns (relay: Relay)
      requires |up| == |connectedServers|
      ensures relay == RelayOf(Now(), response, up)
    {
      var index := 0;
      while index < |response.path| && response.path[index].uuid != me.uuid
        invariant 0 <= index <= |response.path|
        invariant forall j :: 0 <= j < index ==> response.path[j].uuid != me.uuid
      {
        index := index + 1;
      }
      FirstIsUnique(Uuids(response.path), me.uuid, if index < |response.path| then Some(index) else None);
      if index == |response.path| {
        return Ignored;
      }
      if index == |response.path| - 1 {
        var initiator := FindPeer(response.peerId);
        return if initiator.Some? then Deliver(initiator.value) else Lost;
      }
      if index == 0 {
        return Underflow;
      }
      var next := response.path[index - 1].uuid;
      var local := FindPeer(next);
      if local.Some? {
        return HandOver(next, local.value);
      }
      var i := 0;
      while i < |connectedServers| && !up[i]
        invariant 0 <= i <= |connectedServers|
        invariant forall j :: 0 <= j < i ==> !up[j]
      {
        i := i + 1;
      }
      FirstIsUnique(up, true, if i < |up| then Some(i) else None);
      return if i < |up| then PassOn(next, i) else Lost;
    }
  }

  // --- One server ---------------------------------------------------------

  ghost predicate Answers(s: Server, r: Request, now: nat) {
    exists i, response :: ToPeer(i, response) in Sent(s, r, now)
  }

  /** A searching server answers exactly when a connection carries the initiator's key and it
      knows the target from a connection or a live cache entry. */
  lemma AnswersExactly(s: Server, r: Request, now: nat)
    ensures Answers(s, r, now) <==> Labelled(s, r.peerId) && (Fresh(s, r.searchId, now) || Labelled(s, r.searchId))
  {
    var out := Sent(s, r, now);
    if Labelled(s, r.peerId) && (Fresh(s, r.searchId, now) || Labelled(s, r.searchId)) {
      assert out[0] in out && ToPeer(out[0].peer, out[0].response) == out[0];
    }
  }

  predicate Open(s: Server, connection: nat) {
    exists k :: 0 <= k < |s.peers| && s.peers[k].connection == connection
  }

  /** Some other connection last carried a packet under the key. */
  predicate LabelledElsewhere(s: Server, connection: nat, id: string) {
    exists k :: 0 <= k < |s.peers| && s.peers[k].connection != connection && s.peers[k].key == Some(id)
  }

  lemma LabelledAfter(s: Server, connection: nat, key: string, id: string)
    requires Open(s, connection)
    ensures Labelled(Renamed(s, connection, key), id) <==> id == key || LabelledElsewhere(s, connection, id)
  {
    var s' := Renamed(s, connection, key);
    if id == key {
      var k :| 0 <= k < |s.peers| && s.peers[k].connection == connection;
      assert Keys(s'.peers)[k] == Some(id);
    } else if LabelledElsewhere(s, connection, id) {
      var k :| 0 <= k < |s.peers| && s.peers[k].connection != connection && s.peers[k].key == Some(id);
      assert Keys(s'.peers)[k] == Some(id);
    }
  }

  /** `my_index - 1` underflows exactly at the server named first in a longer path. */
  lemma UnderflowsExactly(s: Server, r: Response, up: seq<bool>)
    ensures RelayOf(s, r, up) == Underflow <==> |r.path| > 1 && r.path[0].uuid == s.me.uuid
  {
  }

  /** Where a response goes depends on where this server first stands on its path: nowhere, at
      the end, at the front, or between. At the end it is handed to the first connection with the
      initiator's key; between, to the first with the key of the node before, or else
      over the first connection to a server that takes it. */
  lemma RelaysExactly(s: Server, r: Response, up: seq<bool>, k: nat)
    requires k < |r.path| && IsFirst(Uuids(r.path), s.me.uuid, Some(k))
    ensures var relay := RelayOf(s, r, up);
      if k == |r.path| - 1 then
        && (forall p: nat :: relay == Deliver(p) <==> IsFirst(Keys(s.peers), Some(r.peerId), Some(p)))
        && (relay == Lost <==> Some(r.peerId) !in Keys(s.peers))
      else if k == 0 then relay == Underflow
      else
        var to := r.path[k - 1].uuid;
        && (forall p: nat :: relay == HandOver(to, p) <==> IsFirst(Keys(s.peers), Some(to), Some(p)))
        && (forall l: nat :: relay == PassOn(to, l) <==> Some(to) !in Keys(s.peers) && IsFirst(up, true, Some(l)))
        && (relay == Lost <==> Some(to) !in Keys(s.peers) && true !in up)
  {
    FirstIsUnique(Uuids(r.path), s.me.uuid, Some(k));
  }

  lemma IgnoredExactly(s: Server, r: Response, up: seq<bool>)
    ensures RelayOf(s, r, up) == Ignored <==> s.me.uuid !in Uuids(r.path)
  {
  }

  // --- The way back -------------------------------------------------------

  /** Whom a relay addresses: the predecessor of its own first occurrence. */
  function Hop(path: seq<Node>, uuid: string): string
    requires uuid in Uuids(path) && uuid != path[0].uuid
  {
    path[First(Uuids(path), uuid).value - 1].uuid
  }

  lemma HopDescends(path: seq<Node>, uuid: string)
    requires uuid in Uuids(path) && uuid != path[0].uuid
    ensures Hop(path, uuid) in Uuids(path)
    ensures First(Uuids(path), Hop(path, uuid)).value < First(Uuids(path), uuid).value
  {
  }

  /** The nodes a response passes from `uuid` back to the initiator. */
  function Route(path: seq<Node>, uuid: string): seq<string>
    requires uuid in Uuids(path)
    decreases First(Uuids(path), uuid).value
  {
    if uuid == path[0].uuid then [uuid]
    else
      HopDescends(path, uuid);
      [uuid] + Route(path, Hop(path, uuid))
  }

  /** However often the search visited a server, the way back from any node of the path
      visits no node twice and reaches the initiator in fewer than |path| hops. */
  lemma {:induction false} RouteReturns(path: seq<Node>, uuid: string)
    requires uuid in Uuids(path)
    ensures var route := Route(path, uuid);
      && 1 <= |route| <= First(Uuids(path), uuid).value + 1 <= |path|
      && route[0] == uuid && route[|route| - 1] == path[0].uuid
      && forall i :: 0 <= i < |route| ==> route[i] in Uuids(path)
    ensures forall i, j :: 0 <= i < j < |Route(path, uuid)| ==> Route(path, uuid)[i] != Route(path, uuid)[j]
    decreases First(Uuids(path), uuid).value
  {
    if uuid != path[0].uuid {
      HopDescends(path, uuid);
      var next := Hop(path, uuid);
      RouteReturns(path, next);
      RouteDescends(path, next);
      var rest := Route(path, next);
      assert Route(path, uuid) == [uuid] + rest;
      forall i | 0 <= i < |rest| ensures rest[i] != uuid {
        assert First(Uuids(path), rest[i]).value <= First(Uuids(path), next).value;
      }
    }
  }

  lemma {:induction false} RouteDescends(path: seq<Node>, uuid: string)
    requires uuid in Uuids(path)
    ensures forall i :: 0 <= i < |Route(path, uuid)| ==>
      Route(path, uuid)[i] in Uuids(path) && First(Uuids(path), Route(path, uuid)[i]).value <= First(Uuids(path), uuid).value
    decreases First(Uuids(path), uuid).value
  {
    if uuid != path[0].uuid {
      HopDescends(path, uuid);
      RouteDescends(path, Hop(path, uuid));
    }
  }

  /** Whom a relay addresses its packet to. */
  function Addressee(relay: Relay): Option<string> {
    match relay
    case HandOver(to, _) => Some(to)
    case PassOn(to, _) => Some(to)
    case _ => None
  }

  /** A response on its way: each server addresses the packet to the next one. */
  ghost predicate Chain(relays: seq<(Server, seq<bool>)>, r: Response) {
    && relays != []
    && (forall i :: 0 <= i < |relays| ==> Addressee(RelayOf(relays[i].0, r, relays[i].1)).Some?)
    && (forall i :: 0 <= i < |relays| - 1 ==>
          Addressee(RelayOf(relays[i].0, r, relays[i].1)) == Some(relays[i + 1].0.me.uuid))
  }

  lemma RelayAddressesHop(s: Server, r: Response, up: seq<bool>)
    requires Addressee(RelayOf(s, r, up)).Some?
    ensures s.me.uuid in Uuids(r.path) && s.me.uuid != r.path[0].uuid
    ensures Addressee(RelayOf(s, r, up)).value == Hop(r.path, s.me.uuid)
  {
  }

  /** The servers a response goes through, and whom the last one addresses. */
  function Visited(relays: seq<(Server, seq<bool>)>, r: Response): (uuids: seq<string>)
    requires relays != [] && Addressee(RelayOf(relays[|relays| - 1].0, r, relays[|relays| - 1].1)).Some?
    ensures |uuids| == |relays| + 1
  {
    var last := relays[|relays| - 1];
    seq(|relays|, i requires 0 <= i < |relays| => relays[i].0.me.uuid) + [Addressee(RelayOf(last.0, r, last.1)).value]
  }

  /** However each relay passes a response on, the servers it goes through are those of the
      route, in order; so no server relays it twice, and it is addressed to the initiator after
      fewer relays than the path has nodes. */
  lemma RelaysSpellRoute(relays: seq<(Server, seq<bool>)>, r: Response)
    requires Chain(relays, r)
    ensures relays[0].0.me.uuid in Uuids(r.path)
    ensures Visited(relays, r) <= Route(r.path, relays[0].0.me.uuid)
  {
    var visited := Visited(relays, r);
    forall i | 0 <= i < |relays|
      ensures visited[i] in Uuids(r.path) && visited[i] != r.path[0].uuid && visited[i + 1] == Hop(r.path, visited[i])
    {
      RelayAddressesHop(relays[i].0, r, relays[i].1);
    }
    HopsSpellRoute(r.path, visited);
  }

  /** Each of these nodes follows the one before it on the way back. */
  ghost predicate FollowsHops(path: seq<Node>, uuids: seq<string>) {
    forall i :: 0 <= i < |uuids| - 1 ==>
      uuids[i] in Uuids(path) && uuids[i] != path[0].uuid && uuids[i + 1] == Hop(path, uuids[i])
  }

  lemma {:induction false} HopsSpellRoute(path: seq<Node>, uuids: seq<string>)
    requires uuids != [] && uuids[0] in Uuids(path) && FollowsHops(path, uuids)
    ensures uuids <= Route(path, uuids[0])
    decreases |uuids|
  {
    if |uuids| > 1 {
      HopDescends(path, uuids[0]);
      assert FollowsHops(path, uuids[1..]);
      HopsSpellRoute(path, uuids[1..]);
      assert Route(path, uuids[0]) == [uuids[0]] + Route(path, uuids[1]);
      assert uuids == [uuids[0]] + uuids[1..];
    }
  }
}
