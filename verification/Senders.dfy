/** Several senders sharing one connection. A sender takes the writer lock, writes its frame
    in as many pieces as the socket accepts, and lets go; anything may happen in between. */
module Senders {
  import opened Basics
  import opened Framing

  datatype Sent = Sent(sender: nat, message: bytes)

  datatype Writing = Writing(sender: nat, left: bytes)

  /** `order` lists the messages in the order their senders got the lock, `next[i]` counts
      those of sender `i`. */
  datatype State = State(stream: bytes, lock: Option<Writing>, order: seq<Sent>, next: seq<nat>)

  datatype Action = Acquire(sender: nat) | Write(count: nat) | Release

  /** What each sender wants to send. */
  type Programs = seq<seq<bytes>>

  predicate Enabled(programs: Programs, s: State, a: Action) {
    match a
    case Acquire(i) => s.lock.None? && i < |programs| && i < |s.next| && s.next[i] < |programs[i]|
    case Write(count) => s.lock.Some? && count <= |s.lock.value.left|
    case Release => s.lock.Some? && s.lock.value.left == []
  }

  function Do(programs: Programs, s: State, a: Action): State
    requires Enabled(programs, s, a)
  {
    match a
    case Acquire(i) =>
      var message := programs[i][s.next[i]];
      State(s.stream, Some(Writing(i, Frame(message))), s.order + [Sent(i, message)], s.next[i := s.next[i] + 1])
    case Write(count) =>
      var Writing(i, left) := s.lock.value;
      s.(stream := s.stream + left[..count], lock := Some(Writing(i, left[count..])))
    case Release => s.(lock := None)
  }

  function Start(programs: Programs): State {
    State([], None, [], seq(|programs|, _ => 0))
  }

  /** The states some interleaving of the senders leads to. */
  ghost predicate Reaches(programs: Programs, s: State, actions: seq<Action>, end: State)
    decreases |actions|
  {
    if actions == [] then s == end
    else Enabled(programs, s, actions[0]) && Reaches(programs, Do(programs, s, actions[0]), actions[1..], end)
  }

  function Messages(order: seq<Sent>): seq<bytes> {
    if order == [] then [] else Messages(order[..|order| - 1]) + [order[|order| - 1].message]
  }

  function From(order: seq<Sent>, i: nat): seq<bytes> {
    if order == [] then []
    else
      var last := order[|order| - 1];
      From(order[..|order| - 1], i) + if last.sender == i then [last.message] else []
  }

  lemma {:induction false} MessagesLength(order: seq<Sent>)
    ensures |Messages(order)| == |order|
  {
    if order != [] {
      MessagesLength(order[..|order| - 1]);
    }
  }

  lemma {:induction false} FramesAppend(messages: seq<bytes>, m: bytes)
    ensures Frames(messages + [m]) == Frames(messages) + Frame(m)
  {
    if messages == [] {
      assert [] + [m] == [m] && [m][1..] == [];
    } else {
      assert (messages + [m])[1..] == messages[1..] + [m];
      FramesAppend(messages[1..], m);
    }
  }

  ghost predicate AllFit(programs: Programs) {
    forall i, k :: 0 <= i < |programs| && 0 <= k < |programs[i]| ==> Fits(programs[i][k])
  }

  /** The stream and what the lock holder still has to write make up whole frames in lock
      order, and each sender's share of that order is a prefix of its program. */
  ghost predicate Inv(programs: Programs, s: State) {
    && |s.next| == |programs|
    && (forall k :: 0 <= k < |s.order| ==> Fits(s.order[k].message))
    && (forall i :: 0 <= i < |programs| ==> s.next[i] <= |programs[i]| && From(s.order, i) == programs[i][..s.next[i]])
    && match s.lock
       case None => s.stream == Frames(Messages(s.order))
       case Some(w) =>
         && s.order != []
         && |w.left| <= |Frame(s.order[|s.order| - 1].message)|
         && s.stream + w.left == Frames(Messages(s.order))
  }

  lemma AcquireKeeps(programs: Programs, s: State, i: nat)
    requires AllFit(programs) && Inv(programs, s) && Enabled(programs, s, Acquire(i))
    ensures Inv(programs, Do(programs, s, Acquire(i)))
  {
    var s' := Do(programs, s, Acquire(i));
    var message := programs[i][s.next[i]];
    assert s'.order[..|s'.order| - 1] == s.order;
    FramesAppend(Messages(s.order), message);
    assert programs[i][..s.next[i] + 1] == programs[i][..s.next[i]] + [message];
  }

  lemma WriteKeeps(programs: Programs, s: State, count: nat)
    requires Inv(programs, s) && Enabled(programs, s, Write(count))
    ensures Inv(programs, Do(programs, s, Write(count)))
  {
  }

  lemma {:induction false} RunKeeps(programs: Programs, s: State, actions: seq<Action>, end: State)
    requires AllFit(programs) && Inv(programs, s) && Reaches(programs, s, actions, end)
    ensures Inv(programs, end)
    decreases |actions|
  {
    if actions != [] {
      match actions[0] {
        case Acquire(i) => AcquireKeeps(programs, s, i);
        case Write(count) => WriteKeeps(programs, s, count);
        case Release =>
          assert s.stream + [] == s.stream;
      }
      RunKeeps(programs, Do(programs, s, actions[0]), actions[1..], end);
    }
  }

  lemma {:induction false} MessagesFit(order: seq<Sent>)
    requires forall k :: 0 <= k < |order| ==> Fits(order[k].message)
    ensures forall k :: 0 <= k < |Messages(order)| ==> Fits(Messages(order)[k])
    decreases |order|
  {
    if order != [] {
      MessagesFit(order[..|order| - 1]);
    }
  }

  /** Cut within its last frame, the stream holds all frames before it. */
  lemma {:induction false} LastFrameOnly(messages: seq<bytes>, n: nat)
    requires messages != []
    requires |Frames(messages)| - |Frame(messages[|messages| - 1])| <= n <= |Frames(messages)|
    ensures WholeFrames(messages, n) == if n == |Frames(messages)| then |messages| else |messages| - 1
    decreases |messages|
  {
    var rest := messages[1..];
    if rest == [] {
      assert Frames(rest) == [];
    } else {
      LastFrameFits(rest);
      assert rest[|rest| - 1] == messages[|messages| - 1];
      LastFrameOnly(rest, n - 4 - |messages[0]|);
    }
  }

  lemma {:induction false} LastFrameFits(messages: seq<bytes>)
    requires messages != []
    ensures |Frame(messages[|messages| - 1])| <= |Frames(messages)|
    decreases |messages|
  {
    if |messages| > 1 {
      LastFrameFits(messages[1..]);
    }
  }

  function AllButLast<T>(s: seq<T>): seq<T> {
    if s == [] then [] else s[..|s| - 1]
  }

  /** The stream is cut within the last frame, if at all. */
  lemma CutInLastFrame(messages: seq<bytes>, stream: bytes, left: bytes)
    requires messages != [] && stream + left == Frames(messages) && |left| <= |Frame(messages[|messages| - 1])|
    requires forall k :: 0 <= k < |messages| ==> Fits(messages[k])
    ensures Decode(stream) == if left == [] then messages else messages[..|messages| - 1]
  {
    var all := Frames(messages);
    LastFrameOnly(messages, |stream|);
    DecodePrefix(messages, |stream|);
    assert all[..|stream|] == stream;
    assert messages[..|messages|] == messages;
  }

  lemma DecodesInLockOrder(programs: Programs, s: State)
    requires Inv(programs, s)
    ensures Decode(s.stream) == if s.lock.None? || s.lock.value.left == []
      then Messages(s.order) else Messages(AllButLast(s.order))
  {
    var messages := Messages(s.order);
    MessagesLength(s.order);
    MessagesFit(s.order);
    if s.order == [] {
      assert s.stream == [];
    } else {
      var left := if s.lock.Some? then s.lock.value.left else [];
      assert s.stream + left == Frames(messages);
      assert messages[|messages| - 1] == s.order[|s.order| - 1].message;
      CutInLastFrame(messages, s.stream, left);
      assert messages[..|messages| - 1] == Messages(AllButLast(s.order));
    }
  }

  /** In every interleaving the receiver decodes the messages in lock order, all of them
      when the lock is free and all but the last while its frame is incomplete; and the
      messages of each sender appear in the order of its program. */
  lemma Interleaving(programs: Programs, actions: seq<Action>, end: State)
    requires AllFit(programs) && Reaches(programs, Start(programs), actions, end)
    ensures Decode(end.stream) == if end.lock.None? || end.lock.value.left == []
      then Messages(end.order) else Messages(AllButLast(end.order))
    ensures |end.next| == |programs|
    ensures forall i :: 0 <= i < |programs| ==>
      end.next[i] <= |programs[i]| && From(end.order, i) == programs[i][..end.next[i]]
  {
    RunKeeps(programs, Start(programs), actions, end);
    DecodesInLockOrder(programs, end);
  }
}
