/** Length-prefixed messages on a TCP stream: four big-endian length bytes, then the
    body, written under the connection's writer lock. */
module Framing {
  import opened Basics

  /** `u32::to_be_bytes` */
  function ToBigEndian(n: u32): (r: bytes)
    ensures |r| == 4 && FromBigEndian(r) == n
  {
    var q0 := n / 0x100;
    var q1 := q0 / 0x100;
    [q1 / 0x100, q1 % 0x100, q0 % 0x100, n % 0x100]
  }

  /** `u32::from_be_bytes` */
  function FromBigEndian(b: bytes): u32
    requires |b| == 4
  {
    var b0: int, b1: int, b2: int, b3: int := b[0], b[1], b[2], b[3];
    ((b0 * 0x100 + b1) * 0x100 + b2) * 0x100 + b3
  }

  /** The most significant byte comes first: of two lengths the smaller one has the smaller byte
      where their bytes first differ. */
  lemma MostSignificantFirst(m: u32, n: u32, k: nat)
    requires k < 4 && ToBigEndian(m)[..k] == ToBigEndian(n)[..k] && ToBigEndian(m)[k] != ToBigEndian(n)[k]
    ensures m < n <==> ToBigEndian(m)[k] < ToBigEndian(n)[k]
  {
    var a, b := ToBigEndian(m), ToBigEndian(n);
    assert forall i :: 0 <= i < k ==> a[i] == a[..k][i] == b[..k][i] == b[i];
    assert FromBigEndian(a) == m && FromBigEndian(b) == n;
  }

  /** Writing a length back gives the four bytes it was read from. */
  lemma LengthBytesAreUnique(b: bytes)
    requires |b| == 4
    ensures ToBigEndian(FromBigEndian(b)) == b
  {
    Split(((b[0] as int * 0x100 + b[1]) * 0x100 + b[2]), b[3]);
    Split(b[0] as int * 0x100 + b[1], b[2]);
    Split(b[0] as int, b[1]);
  }

  lemma Split(high: nat, low: byte)
    ensures (high * 0x100 + low) / 0x100 == high && (high * 0x100 + low) % 0x100 == low
  {
  }

  /** The bytes one send puts on the stream. The length is cast with `as u32`. */
  function Frame(message: bytes): (r: bytes)
    ensures |r| == 4 + |message|
  {
    ToBigEndian(|message| % TWO_TO_THE_32) + message
  }

  function Frames(messages: seq<bytes>): bytes {
    if messages == [] then [] else Frame(messages[0]) + Frames(messages[1..])
  }

  /** Whether a whole frame stands at the front, and where it ends. */
  function FrameEnd(stream: bytes): (r: Option<nat>)
    ensures r.Some? ==> 4 <= r.value <= |stream|
  {
    if |stream| < 4 then None else
    var end := 4 + FromBigEndian(stream[..4]);
    if end <= |stream| then Some(end) else None
  }

  /** The complete messages a receive loop reads when the stream holds these bytes. */
  function Decode(stream: bytes): seq<bytes> {
    match FrameEnd(stream)
    case None => []
    case Some(end) => [stream[4..end]] + Decode(stream[end..])
  }

  /** The bytes of the incomplete frame behind them. */
  function Leftover(stream: bytes): bytes {
    match FrameEnd(stream)
    case None => stream
    case Some(end) => Leftover(stream[end..])
  }

  /** The messages before the first one the receiver does not accept. */
  function Accepted(accepts: bytes -> bool, messages: seq<bytes>): seq<bytes> {
    if messages == [] || !accepts(messages[0]) then []
    else [messages[0]] + Accepted(accepts, messages[1..])
  }

  /** What stands behind the first `n` frames; a failed read uses up the stream. */
  function Behind(stream: bytes, n: nat): bytes {
    if n == 0 then stream else
    match FrameEnd(stream)
    case None => []
    case Some(end) => Behind(stream[end..], n - 1)
  }

  lemma OneMessage(stream: bytes)
    ensures match FrameEnd(stream)
      case None => Decode(stream) == [] && Behind(stream, 1) == []
      case Some(end) => Decode(stream) == [stream[4..end]] + Decode(stream[end..]) && Behind(stream, 1) == stream[end..]
  {
  }

  lemma {:induction false} BehindNext(stream: bytes, n: nat)
    ensures Behind(stream, n + 1) == Behind(Behind(stream, n), 1)
    decreases n
  {
    if n > 0 && FrameEnd(stream).Some? {
      BehindNext(stream[FrameEnd(stream).value..], n - 1);
    }
  }

  lemma AcceptedStep(accepts: bytes -> bool, m: bytes, messages: seq<bytes>)
    ensures Accepted(accepts, [m] + messages) == if accepts(m) then [m] + Accepted(accepts, messages) else []
  {
  }

  /** The loop has read `messages` and sees `rest`: what its next read leads to. */
  lemma NextReceived(accepts: bytes -> bool, start: bytes, messages: seq<bytes>, rest: bytes)
    requires Received(accepts, start, messages, rest)
    ensures match FrameEnd(rest)
      case None => Accepted(accepts, Decode(start)) == messages && Behind(start, |messages| + 1) == []
      case Some(end) =>
        && Behind(start, |messages| + 1) == rest[end..]
        && if accepts(rest[4..end]) then Received(accepts, start, messages + [rest[4..end]], rest[end..])
           else Accepted(accepts, Decode(start)) == messages
  {
    OneMessage(rest);
    BehindNext(start, |messages|);
    match FrameEnd(rest)
    case None =>
    case Some(end) =>
      AcceptedStep(accepts, rest[4..end], Decode(rest[end..]));
      Associate(messages, [rest[4..end]], Accepted(accepts, Decode(rest[end..])));
  }

  ghost predicate Received(accepts: bytes -> bool, start: bytes, messages: seq<bytes>, rest: bytes) {
    && Accepted(accepts, Decode(start)) == messages + Accepted(accepts, Decode(rest))
    && Behind(start, |messages|) == rest
  }

  datatype ReadError = LengthUnavailable | BodyUnavailable | BodyRejected

  /** One direction of a connection: what was written and how far it has been read.
      `accepts` is the receiver's check of a body: UTF-8 on the server; JSON and the packet
      signature on the client. */
  class Stream {
    const accepts: bytes -> bool
    var written: bytes
    var position: nat

    ghost predicate Valid()
      reads this
    {
      position <= |written|
    }

    ghost function Unread(): bytes
      requires Valid()
      reads this
    {
      written[position..]
    }

    constructor (accepts: bytes -> bool)
      ensures Valid() && this.accepts == accepts && written == [] && Unread() == []
    {
      this.accepts := accepts;
      written, position := [], 0;
    }

    method WriteAll(data: bytes)
      requires Valid()
      modifies this`written
      ensures Valid() && written == old(written) + data && Unread() == old(Unread()) + data
    {
      written := written + data;
    }

    /** `write_packet` and `send_data`: length and body under one hold of the lock. */
    method SendData(message: bytes)
      requires Valid()
      modifies this`written
      ensures Valid() && Unread() == old(Unread()) + Frame(message)
    {
      var messageLength := |message| % TWO_TO_THE_32;
      WriteAll(ToBigEndian(messageLength));
      WriteAll(message);
    }

    /** `read_exact`: fails at the end of the stream, which it then has used up. */
    method ReadExact(count: nat) returns (r: Option<bytes>)
      requires Valid()
      modifies this`position
      ensures Valid()
      ensures r.Some? <==> count <= old(|Unread()|)
      ensures r.Some? ==> r.value == old(Unread())[..count] && Unread() == old(Unread())[count..]
      ensures r.None? ==> Unread() == []
    {
      if position + count > |written| {
        position := |written|;
        return None;
      }
      r := Some(written[position..position + count]);
      position := position + count;
    }

    /** `receive_message`: a rejected body has been consumed with its frame. */
    method ReceiveMessage() returns (r: Result<bytes, ReadError>)
      requires Valid()
      modifies this`position
      ensures Valid()
      ensures match FrameEnd(old(Unread()))
        case Some(end) =>
          && r == (if accepts(old(Unread())[4..end]) then Ok(old(Unread())[4..end]) else Err(BodyRejected))
          && Unread() == old(Unread())[end..]
        case None => r == Err(if old(|Unread()|) < 4 then LengthUnavailable else BodyUnavailable) && Unread() == []
    {
      ghost var before := Unread();
      var length := ReadExact(4);
      if length.None? {
        return Err(LengthUnavailable);
      }
      var body := ReadExact(FromBigEndian(length.value));
      if body.None? {
        return Err(BodyUnavailable);
      }
      assert before[4..][..|body.value|] == before[4..4 + |body.value|];
      assert before[4..][|body.value|..] == before[4 + |body.value|..];
      return if accepts(body.value) then Ok(body.value) else Err(BodyRejected);
    }

    /** The receive loop of a connection: it ends at the first incomplete or rejected message. */
    method ReceiveAll() returns (messages: seq<bytes>)
      requires Valid()
      modifies this`position
      ensures Valid()
      ensures messages == Accepted(accepts, Decode(old(Unread())))
      ensures Unread() == Behind(old(Unread()), |messages| + 1)
    {
      messages := [];
      ghost var start := Unread();
      while true
        invariant Valid()
        invariant Received(accepts, start, messages, Unread())
        decreases |Unread()|
      {
        NextReceived(accepts, start, messages, Unread());
        var r := ReceiveMessage();
        if r.Err? {
          break;
        }
        messages := messages + [r.value];
      }
    }
  }

  // --- Round trip ---------------------------------------------------------

  predicate Fits(message: bytes) {
    |message| < TWO_TO_THE_32
  }

  lemma FrontFrame(message: bytes, rest: bytes)
    ensures var end := 4 + |message| % TWO_TO_THE_32;
      && FrameEnd(Frame(message) + rest).Some? && FrameEnd(Frame(message) + rest).value == end <= 4 + |message|
      && (Frame(message) + rest)[4..end] == message[..end - 4]
      && (Fits(message) ==> (Frame(message) + rest)[end..] == rest)
  {
  }

  lemma {:induction false} DecodeFrames(messages: seq<bytes>, rest: bytes)
    requires forall k :: 0 <= k < |messages| ==> Fits(messages[k])
    ensures Decode(Frames(messages) + rest) == messages + Decode(rest)
    ensures Leftover(Frames(messages) + rest) == Leftover(rest)
    decreases |messages|
  {
    if messages == [] {
      assert Frames(messages) + rest == rest;
    } else {
      Associate(Frame(messages[0]), Frames(messages[1..]), rest);
      FrontMessage(messages[0], Frames(messages[1..]) + rest);
      DecodeFrames(messages[1..], rest);
      Associate([messages[0]], messages[1..], Decode(rest));
      assert [messages[0]] + messages[1..] == messages;
    }
  }

  lemma Associate<T>(a: seq<T>, b: seq<T>, c: seq<T>)
    ensures (a + b) + c == a + (b + c)
  {
  }

  lemma FrontMessage(message: bytes, rest: bytes)
    requires Fits(message)
    ensures Decode(Frame(message) + rest) == [message] + Decode(rest)
    ensures Leftover(Frame(message) + rest) == Leftover(rest)
  {
    FrontFrame(message, rest);
  }

  /** A list of messages comes back unchanged exactly when every length fits in 32 bits:
      a longer one is announced with a truncated length. */
  lemma {:induction false} RoundTrip(messages: seq<bytes>)
    ensures Decode(Frames(messages)) == messages <==> forall k :: 0 <= k < |messages| ==> Fits(messages[k])
    ensures Decode(Frames(messages)) == messages ==> Leftover(Frames(messages)) == []
    decreases |messages|
  {
    if forall k :: 0 <= k < |messages| ==> Fits(messages[k]) {
      DecodeFrames(messages, []);
      assert Frames(messages) + [] == Frames(messages);
    } else {
      FrontFrame(messages[0], Frames(messages[1..]));
      var got := Decode(Frames(messages));
      if Fits(messages[0]) {
        assert got == [messages[0]] + Decode(Frames(messages[1..]));
        RoundTrip(messages[1..]);
        assert got[1..] != messages[1..];
      } else {
        assert |got[0]| == |messages[0]| % TWO_TO_THE_32 < |messages[0]|;
      }
    }
  }

  lemma {:induction false} AcceptedIsAllExactly(accepts: bytes -> bool, messages: seq<bytes>)
    ensures Accepted(accepts, messages) == messages <==> forall k :: 0 <= k < |messages| ==> accepts(messages[k])
    ensures Accepted(accepts, messages) <= messages
    decreases |messages|
  {
    if messages != [] && accepts(messages[0]) {
      AcceptedIsAllExactly(accepts, messages[1..]);
      assert messages == [messages[0]] + messages[1..];
      assert Accepted(accepts, messages)[1..] == Accepted(accepts, messages[1..]);
      if forall k :: 0 <= k < |messages[1..]| ==> accepts(messages[1..][k]) {
        assert forall k :: 1 <= k < |messages| ==> messages[k] == messages[1..][k - 1];
      }
    }
  }

  /** What the receive loop returns is what was sent exactly when every message fits and
      is accepted. */
  lemma {:induction messages} ReceivedExactly(accepts: bytes -> bool, messages: seq<bytes>)
    ensures Accepted(accepts, Decode(Frames(messages))) == messages
      <==> forall k :: 0 <= k < |messages| ==> Fits(messages[k]) && accepts(messages[k])
  {
    RoundTrip(messages);
    AcceptedIsAllExactly(accepts, Decode(Frames(messages)));
  }

  /** How many whole frames a cut of the stream after `n` bytes contains. */
  function WholeFrames(messages: seq<bytes>, n: nat): (k: nat)
    ensures k <= |messages|
  {
    if messages == [] || n < 4 + |messages[0]| then 0
    else 1 + WholeFrames(messages[1..], n - 4 - |messages[0]|)
  }

  /** Cut anywhere, the stream decodes to exactly the messages whose frames are whole. */
  lemma {:induction false} DecodePrefix(messages: seq<bytes>, n: nat)
    requires forall k :: 0 <= k < |messages| ==> Fits(messages[k])
    requires n <= |Frames(messages)|
    ensures Decode(Frames(messages)[..n]) == messages[..WholeFrames(messages, n)]
    ensures Leftover(Frames(messages)[..n]) == [] <==> Frames(messages[..WholeFrames(messages, n)]) == Frames(messages)[..n]
    decreases |messages|
  {
    if messages == [] {
      return;
    }
    var m := messages[0];
    var cut := Frames(messages)[..n];
    if n < 4 + |m| {
      NoWholeFrame(m, Frames(messages[1..]), n);
    } else {
      var rest := Frames(messages[1..])[..n - 4 - |m|];
      var whole := messages[1..][..WholeFrames(messages[1..], n - 4 - |m|)];
      assert cut == Frame(m) + rest;
      DecodePrefix(messages[1..], n - 4 - |m|);
      FrontMessage(m, rest);
      FirstFrame(m, whole);
      assert messages[..WholeFrames(messages, n)] == [m] + whole;
      Cancel(Frame(m), Frames(whole), rest);
    }
  }

  lemma FirstFrame(message: bytes, messages: seq<bytes>)
    ensures Frames([message] + messages) == Frame(message) + Frames(messages)
  {
    assert ([message] + messages)[1..] == messages;
  }

  lemma Cancel(front: bytes, a: bytes, b: bytes)
    ensures front + a == front + b <==> a == b
  {
    assert (front + a)[|front|..] == a && (front + b)[|front|..] == b;
  }

  lemma NoWholeFrame(message: bytes, rest: bytes, n: nat)
    requires Fits(message) && n < 4 + |message|
    ensures FrameEnd((Frame(message) + rest)[..n]).None?
  {
  }
}
