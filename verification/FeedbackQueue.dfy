/** The fake host's feedback queue. */
module FeedbackQueue {
  // Bounded and drop-oldest (`FakeFeedbackQueue`), purged in place by rotation,
  // with discarded buffers zeroed.

  import opened Options

  const MAXIMUM_QUEUED := 64
  const MAX_ULONG := 0xFFFF_FFFF_FFFF_FFFF

  newtype byte = b: int | 0 <= b < 256

  // ----- the queue as a value

  /** A queued frame: its controller and when it was enqueued. */
  datatype Slot = Slot(controller: nat, ticket: nat)

  /** The queue and its history: the tickets handed out, the frames dequeued,
      and how many were dropped, purged and closed out. */
  datatype State = State(queue: seq<Slot>, closed: bool, dropped: nat,
                         enqueued: nat, dequeued: seq<Slot>, lost: nat, purged: nat, closedOut: nat)

  datatype Operation = Enqueue(controller: nat) | TryDequeue | Purge(controller: nat) | Close

  function Kept(queue: seq<Slot>, controller: nat): (r: seq<Slot>)
    ensures |r| <= |queue|
  {
    if queue == [] then []
    else
      var front, last := queue[..|queue| - 1], queue[|queue| - 1];
      if last.controller == controller then Kept(front, controller) else Kept(front, controller) + [last]
  }

  function Saturated(n: nat): nat {
    if n == MAX_ULONG then n else n + 1
  }

  function Operate(s: State, o: Operation, capacity: nat): State {
    match o
    case Enqueue(controller) =>
      if s.closed then s
      else if s.queue != [] && |s.queue| == capacity then
        s.(queue := s.queue[1..] + [Slot(controller, s.enqueued)], dropped := Saturated(s.dropped), lost := s.lost + 1,
           enqueued := s.enqueued + 1)
      else s.(queue := s.queue + [Slot(controller, s.enqueued)], enqueued := s.enqueued + 1)
    case TryDequeue =>
      if s.queue == [] then s else s.(queue := s.queue[1..], dequeued := s.dequeued + [s.queue[0]])
    case Purge(controller) =>
      s.(queue := Kept(s.queue, controller), purged := s.purged + (|s.queue| - |Kept(s.queue, controller)|))
    case Close =>
      if s.closed then s else s.(queue := [], closed := true, closedOut := s.closedOut + |s.queue|)
  }

  function Run(s: State, operations: seq<Operation>, capacity: nat): State
    decreases |operations|
  {
    if operations == [] then s else Run(Operate(s, operations[0], capacity), operations[1..], capacity)
  }

  const EMPTY := State([], false, 0, 0, [], 0, 0, 0)

  // ----- purging

  /** Purging drops the controller's frames and no others, ... */
  lemma {:induction false} KeptMembers(queue: seq<Slot>, controller: nat)
    ensures forall x :: x in Kept(queue, controller) <==> x in queue && x.controller != controller
  {
    if queue != [] {
      KeptMembers(queue[..|queue| - 1], controller);
      assert queue == queue[..|queue| - 1] + [queue[|queue| - 1]];
    }
  }

  ghost predicate Increasing(queue: seq<Slot>) {
    forall i, j | 0 <= i < j < |queue| :: queue[i].ticket < queue[j].ticket
  }

  /** ... and keeps their order. */
  lemma {:induction false} KeptOrder(queue: seq<Slot>, controller: nat)
    requires Increasing(queue)
    ensures Increasing(Kept(queue, controller))
  {
    if queue != [] {
      KeptOrder(queue[..|queue| - 1], controller);
      KeptMembers(queue[..|queue| - 1], controller);
      var r := Kept(queue[..|queue| - 1], controller);
      assert forall i | 0 <= i < |r| :: r[i] in queue[..|queue| - 1];
    }
  }

  // ----- whole runs

  /** The conservation law. */
  predicate Conserved(s: State) {
    s.enqueued == |s.dequeued| + s.lost + s.purged + s.closedOut + |s.queue|
  }

  ghost predicate Inv(s: State, capacity: nat) {
    && |s.queue| <= capacity && Conserved(s)
    && Increasing(s.dequeued + s.queue)
    && (forall i | 0 <= i < |s.queue| :: s.queue[i].ticket < s.enqueued)
    && (forall i | 0 <= i < |s.dequeued| :: s.dequeued[i].ticket < s.enqueued)
    && s.dropped == (if s.lost <= MAX_ULONG then s.lost else MAX_ULONG)
    && (s.closed ==> s.queue == [])
    && (!s.closed ==> s.closedOut == 0)
  }

  lemma IncreasingParts(a: seq<Slot>, b: seq<Slot>)
    ensures Increasing(a + b) <==>
      Increasing(a) && Increasing(b) && forall i, j | 0 <= i < |a| && 0 <= j < |b| :: a[i].ticket < b[j].ticket
  {
    var c := a + b;
    if Increasing(c) {
      forall i, j | 0 <= i < |a| && 0 <= j < |b| ensures a[i].ticket < b[j].ticket {
        assert c[i].ticket < c[|a| + j].ticket;
      }
      forall i, j | 0 <= i < j < |b| ensures b[i].ticket < b[j].ticket {
        assert c[|a| + i].ticket < c[|a| + j].ticket;
      }
      forall i, j | 0 <= i < j < |a| ensures a[i].ticket < a[j].ticket {
        assert c[i].ticket < c[j].ticket;
      }
    }
  }

  lemma IncreasingAppend(a: seq<Slot>, last: Slot)
    requires Increasing(a) && forall i | 0 <= i < |a| :: a[i].ticket < last.ticket
    ensures Increasing(a + [last])
  {
  }

  lemma EnqueueKeeps(s: State, controller: nat, capacity: nat)
    requires capacity >= 1 && Inv(s, capacity)
    ensures Inv(Operate(s, Enqueue(controller), capacity), capacity)
  {
    var t := Operate(s, Enqueue(controller), capacity);
    hide Increasing;
    var last := Slot(controller, s.enqueued);
    var all := s.dequeued + s.queue;
    assert forall i | 0 <= i < |all| :: all[i].ticket < s.enqueued;
    if !s.closed {
      IncreasingAppend(all, last);
      assert all + [last] == s.dequeued + (s.queue + [last]);
      if s.queue != [] && |s.queue| == capacity {
        IncreasingWithout(s.dequeued, s.queue + [last]);
        assert (s.queue + [last])[1..] == t.queue;
      }
    }
  }

  /** Leaving out the first of the later frames. */
  lemma IncreasingWithout(a: seq<Slot>, b: seq<Slot>)
    requires Increasing(a + b) && b != []
    ensures Increasing(a + b[1..])
  {
    IncreasingParts(a, b);
    IncreasingParts(a, b[1..]);
  }

  lemma DequeueKeeps(s: State, capacity: nat)
    requires capacity >= 1 && Inv(s, capacity)
    ensures Inv(Operate(s, TryDequeue, capacity), capacity)
  {
    var t := Operate(s, TryDequeue, capacity);
    hide Increasing;
    if s.queue != [] {
      assert t.dequeued + t.queue == s.dequeued + s.queue;
    }
  }

  lemma PurgeKeeps(s: State, controller: nat, capacity: nat)
    requires capacity >= 1 && Inv(s, capacity)
    ensures Inv(Operate(s, Purge(controller), capacity), capacity)
  {
    var t := Operate(s, Purge(controller), capacity);
    IncreasingParts(s.dequeued, s.queue);
    KeptOrder(s.queue, controller);
    KeptMembers(s.queue, controller);
    IncreasingParts(s.dequeued, t.queue);
    hide Increasing, Kept;
    assert forall i | 0 <= i < |t.queue| :: t.queue[i] in s.queue;
    SubsetLater(s.dequeued, s.queue, t.queue);
  }

  lemma SubsetLater(a: seq<Slot>, b: seq<Slot>, c: seq<Slot>)
    requires forall i, j | 0 <= i < |a| && 0 <= j < |b| :: a[i].ticket < b[j].ticket
    requires forall k | 0 <= k < |c| :: c[k] in b
    ensures forall i, k | 0 <= i < |a| && 0 <= k < |c| :: a[i].ticket < c[k].ticket
  {
  }

  lemma CloseKeeps(s: State, capacity: nat)
    requires capacity >= 1 && Inv(s, capacity)
    ensures Inv(Operate(s, Close, capacity), capacity)
  {
    IncreasingParts(s.dequeued, s.queue);
    assert s.dequeued + [] == s.dequeued;
  }

  lemma OperateKeeps(s: State, o: Operation, capacity: nat)
    requires capacity >= 1 && Inv(s, capacity)
    ensures Inv(Operate(s, o, capacity), capacity)
  {
    hide Inv, Operate;
    match o
    case Enqueue(controller) => EnqueueKeeps(s, controller, capacity);
    case TryDequeue => DequeueKeeps(s, capacity);
    case Purge(controller) => PurgeKeeps(s, controller, capacity);
    case Close => CloseKeeps(s, capacity);
  }

  lemma {:induction false} RunKeeps(s: State, operations: seq<Operation>, capacity: nat)
    requires capacity >= 1 && Inv(s, capacity)
    ensures Inv(Run(s, operations, capacity), capacity)
    decreases |operations|
  {
    hide Inv, Operate;
    if operations != [] {
      OperateKeeps(s, operations[0], capacity);
      RunKeeps(Operate(s, operations[0], capacity), operations[1..], capacity);
    }
  }

  /** In every run the count stays within capacity, frames leave in the order
      they came, every frame is accounted for, and the drop counter is exact
      until it saturates. */
  lemma RunsAreFair(operations: seq<Operation>, capacity: nat)
    requires capacity >= 1
    ensures var s := Run(EMPTY, operations, capacity);
      && |s.queue| <= capacity && Increasing(s.dequeued) && Conserved(s)
      && s.dropped == (if s.lost <= MAX_ULONG then s.lost else MAX_ULONG)
      && (s.closed ==> s.queue == [])
  {
    RunKeeps(EMPTY, operations, capacity);
    var s := Run(EMPTY, operations, capacity);
    IncreasingParts(s.dequeued, s.queue);
  }

  /** Only the oldest frame is ever dropped: what a full queue keeps is newer. */
  lemma DropsOldest(s: State, controller: nat, capacity: nat)
    requires capacity >= 1 && Inv(s, capacity) && !s.closed && |s.queue| == capacity
    ensures var t := Operate(s, Enqueue(controller), capacity);
      |t.queue| == capacity && t.lost == s.lost + 1 && forall x | x in t.queue :: x.ticket > s.queue[0].ticket
  {
    IncreasingParts(s.dequeued, s.queue);
  }

  // ----- the class

  datatype Entry = Entry(controller: nat, encoded: array<byte>)

  datatype Message = Feedback(controller: nat) | Other

  /** A host frame and the bytes it encodes to. */
  datatype HostFrame = HostFrame(requestId: nat, message: Message, payload: seq<byte>)

  datatype Enqueued = Accepted | Disposed | NotFeedback

  predicate Zeroed(buffer: array<byte>)
    reads buffer
  {
    forall i | 0 <= i < buffer.Length :: buffer[i] == 0
  }

  method ZeroMemory(buffer: array<byte>)
    modifies buffer
    ensures Zeroed(buffer)
  {
    for i := 0 to buffer.Length
      invariant forall k | 0 <= k < i :: buffer[k] == 0
    {
      buffer[i] := 0;
    }
  }

  method Encode(frame: HostFrame) returns (encoded: array<byte>)
    ensures fresh(encoded) && encoded[..] == frame.payload
  {
    encoded := new byte[|frame.payload|];
    for i := 0 to |frame.payload|
      invariant encoded[..i] == frame.payload[..i]
    {
      encoded[i] := frame.payload[i];
    }
  }

  /** The entries of other controllers, in order. */
  function Others(entries: seq<Entry>, controller: nat): seq<Entry> {
    if entries == [] then []
    else
      var front, last := entries[..|entries| - 1], entries[|entries| - 1];
      if last.controller == controller then Others(front, controller) else Others(front, controller) + [last]
  }

  lemma OthersAppend(entries: seq<Entry>, last: Entry, controller: nat)
    ensures Others(entries + [last], controller)
         == if last.controller == controller then Others(entries, controller) else Others(entries, controller) + [last]
  {
    assert (entries + [last])[..|entries|] == entries;
  }

  /** Only other controllers' entries are kept, ... */
  lemma {:induction false} OthersWithin(entries: seq<Entry>, controller: nat, i: nat) returns (k: nat)
    requires i < |Others(entries, controller)|
    ensures k < |entries| && Others(entries, controller)[i] == entries[k] && entries[k].controller != controller
  {
    var front, last := entries[..|entries| - 1], entries[|entries| - 1];
    if i < |Others(front, controller)| {
      k := OthersWithin(front, controller, i);
    } else {
      k := |front|;
    }
  }

  /** ... and all of them. */
  lemma {:induction false} OthersKept(entries: seq<Entry>, controller: nat, k: nat) returns (i: nat)
    requires k < |entries| && entries[k].controller != controller
    ensures i < |Others(entries, controller)| && Others(entries, controller)[i] == entries[k]
  {
    var front := entries[..|entries| - 1];
    if k < |front| {
      i := OthersKept(front, controller, k);
    } else {
      i := |Others(front, controller)|;
    }
  }

  /** An entry stays exactly when it is another controller's. */
  lemma OthersMembers(entries: seq<Entry>, controller: nat)
    ensures forall e | e in Others(entries, controller) :: e in entries && e.controller != controller
    ensures forall e | e in entries && e.controller != controller :: e in Others(entries, controller)
  {
    hide Others;
    forall i | 0 <= i < |Others(entries, controller)|
      ensures Others(entries, controller)[i] in entries && Others(entries, controller)[i].controller != controller
    {
      var k := OthersWithin(entries, controller, i);
    }
    forall k | 0 <= k < |entries| && entries[k].controller != controller ensures entries[k] in Others(entries, controller) {
      var i := OthersKept(entries, controller, k);
    }
  }

  ghost predicate Apart(entries: seq<Entry>) {
    forall i, j | 0 <= i < j < |entries| :: entries[i].encoded != entries[j].encoded
  }

  class FakeFeedbackQueue {
    var entries: seq<Entry>
    const capacity: nat
    var closed: bool
    var dropped: nat
    ghost var history: State

    /** The history tells the same queue. */
    ghost predicate Told()
      reads this
    {
      && |history.queue| == |entries| && history.closed == closed && history.dropped == dropped
      && forall i | 0 <= i < |entries| :: history.queue[i].controller == entries[i].controller
    }

    ghost predicate Valid()
      reads this
    {
      1 <= capacity <= MAXIMUM_QUEUED && Apart(entries) && Told() && Inv(history, capacity)
    }

    ghost function Buffers(): set<array<byte>>
      reads this
    {
      set e | e in entries :: e.encoded
    }

    constructor (capacity: nat)
      requires 1 <= capacity <= MAXIMUM_QUEUED
      ensures Valid() && this.capacity == capacity && entries == [] && !closed && dropped == 0 && history == EMPTY
    {
      this.capacity := capacity;
      entries, closed, dropped, history := [], false, 0, EMPTY;
    }

    /** A closed queue and a frame that is no event are refused and change
        nothing; a full queue zeroes and drops its oldest frame first. */
    method Enqueue(frame: HostFrame) returns (r: Enqueued)
      requires Valid()
      modifies this, Buffers()
      ensures Valid()
      ensures r.Disposed? <==> old(closed)
      ensures r.NotFeedback? <==> !old(closed) && !(frame.requestId == 0 && frame.message.Feedback?)
      ensures !r.Accepted? ==> entries == old(entries) && closed == old(closed) && dropped == old(dropped) && history == old(history)
      ensures r.Accepted? ==>
        && history == Operate(old(history), Operation.Enqueue(frame.message.controller), capacity)
        && |entries| > 0 && fresh(entries[|entries| - 1].encoded)
        && entries[|entries| - 1].controller == frame.message.controller
        && entries[|entries| - 1].encoded[..] == frame.payload
        && entries[..|entries| - 1] == (if |old(entries)| == capacity then old(entries)[1..] else old(entries))
      ensures r.Accepted? && |old(entries)| == capacity ==> Zeroed(old(entries)[0].encoded)
      ensures forall i | 0 <= i < |old(entries)| && !(r.Accepted? && i == 0 && |old(entries)| == capacity) ::
        old(entries)[i].encoded[..] == old(entries[i].encoded[..])
    {
      if closed {
        return Disposed;
      }
      if frame.requestId != 0 || !frame.message.Feedback? {
        return NotFeedback;
      }
      hide Inv, Increasing;
      OperateKeeps(history, Operation.Enqueue(frame.message.controller), capacity);
      var encoded := Encode(frame);
      if |entries| == capacity {
        ZeroMemory(entries[0].encoded);
        entries := entries[1..];
        dropped := if dropped == MAX_ULONG then dropped else dropped + 1;
      }
      entries := entries + [Entry(frame.message.controller, encoded)];
      history := Operate(history, Operation.Enqueue(frame.message.controller), capacity);
      return Accepted;
    }

    /** The oldest frame, as it was enqueued. */
    method TryDequeue() returns (encoded: Option<array<byte>>)
      requires Valid()
      modifies this
      ensures Valid() && history == Operate(old(history), Operation.TryDequeue, capacity)
      ensures old(entries) == [] ==> encoded == None && entries == []
      ensures old(entries) != [] ==> encoded == Some(old(entries)[0].encoded) && entries == old(entries)[1..]
      ensures closed == old(closed) && dropped == old(dropped)
    {
      OperateKeeps(history, Operation.TryDequeue, capacity);
      history := Operate(history, Operation.TryDequeue, capacity);
      if entries == [] {
        return None;
      }
      encoded := Some(entries[0].encoded);
      entries := entries[1..];
    }

    /** One rotation: take each entry off the front; keep the others. */
    method Rotate(controller: nat)
      requires Apart(entries)
      modifies this`entries, Buffers()
      ensures entries == Others(old(entries), controller)
      ensures forall k | 0 <= k < |old(entries)| :: old(entries)[k].controller == controller ==> Zeroed(old(entries)[k].encoded)
      ensures forall k | 0 <= k < |old(entries)| :: old(entries)[k].controller != controller ==>
        old(entries)[k].encoded[..] == old(entries[k].encoded[..])
    {
      hide Others;
      ghost var was := entries;
      var retained := |entries|;
      assert Others(was[..0], controller) == [] by {
        NoOthers(controller);
      }
      for index := 0 to retained
        invariant entries == was[index..] + Others(was[..index], controller)
        invariant forall k | 0 <= k < index :: was[k].controller == controller ==> Zeroed(was[k].encoded)
        invariant forall k | 0 <= k < |was| :: k >= index || was[k].controller != controller ==>
          was[k].encoded[..] == old(entries[k].encoded[..])
      {
        var entry := entries[0];
        ghost var others := Others(was[..index], controller);
        OthersAppend(was[..index], entry, controller);
        assert was[..index] + [entry] == was[..index + 1];
        assert entries[1..] == was[index + 1..] + others;
        entries := entries[1..];
        if entry.controller == controller {
          ZeroMemory(entry.encoded);
        } else {
          entries := entries + [entry];
        }
      }
      assert was[..retained] == was;
    }

    /** Rotating the queue once filters it: the controller's frames are zeroed
        and gone, the others stay as they were, in order. */
    method Purge(controller: nat)
      requires Valid()
      modifies this, Buffers()
      ensures Valid() && history == Operate(old(history), Operation.Purge(controller), capacity)
      ensures entries == Others(old(entries), controller)
      ensures forall e | e in entries :: e in old(entries) && e.controller != controller
      ensures forall e | e in old(entries) && e.controller != controller :: e in entries
      ensures forall k | 0 <= k < |old(entries)| :: old(entries)[k].controller == controller ==> Zeroed(old(entries)[k].encoded)
      ensures forall k | 0 <= k < |old(entries)| :: old(entries)[k].controller != controller ==>
        old(entries)[k].encoded[..] == old(entries[k].encoded[..])
      ensures closed == old(closed) && dropped == old(dropped)
    {
      hide Inv, Zeroed, Others, Kept;
      OperateKeeps(history, Operation.Purge(controller), capacity);
      PurgedAlike(history.queue, entries, controller);
      OthersApart(entries, controller);
      OthersMembers(entries, controller);
      Rotate(controller);
      history := Operate(history, Operation.Purge(controller), capacity);
    }

    /** Closing zeroes and discards everything; closing again does nothing. */
    method Close()
      requires Valid()
      modifies this, Buffers()
      ensures Valid() && closed && entries == [] && history == Operate(old(history), Operation.Close, capacity)
      ensures dropped == old(dropped)
      ensures !old(closed) ==> forall e | e in old(entries) :: Zeroed(e.encoded)
    {
      if closed {
        return;
      }
      ghost var was := entries;
      OperateKeeps(history, Operation.Close, capacity);
      while entries != []
        invariant |entries| <= |was| && entries == was[|was| - |entries|..]
        invariant history == old(history) && !closed && dropped == old(dropped)
        invariant forall k | 0 <= k < |was| - |entries| :: Zeroed(was[k].encoded)
        decreases |entries|
      {
        ghost var k := |was| - |entries|;
        var entry := entries[0];
        assert entry == was[k];
        entries := entries[1..];
        ZeroMemory(entry.encoded);
      }
      closed := true;
      history := Operate(history, Operation.Close, capacity);
    }
  }

  /** Making a queue: a capacity out of range is refused. */
  method NewQueue(capacity: int) returns (r: Option<FakeFeedbackQueue>)
    ensures r.Some? <==> 1 <= capacity <= MAXIMUM_QUEUED
    ensures r.Some? ==> fresh(r.value) && r.value.Valid() && r.value.capacity == capacity && r.value.history == EMPTY
  {
    if capacity < 1 || capacity > MAXIMUM_QUEUED {
      return None;
    }
    var queue := new FakeFeedbackQueue(capacity);
    return Some(queue);
  }

  lemma NoOthers(controller: nat)
    ensures Others([], controller) == []
  {
  }

  /** Keeping the others keeps buffers apart. */
  lemma {:induction false} OthersApart(entries: seq<Entry>, controller: nat)
    requires Apart(entries)
    ensures Apart(Others(entries, controller))
  {
    if entries != [] {
      var front, last := entries[..|entries| - 1], entries[|entries| - 1];
      OthersApart(front, controller);
      forall i | 0 <= i < |Others(front, controller)| ensures Others(front, controller)[i].encoded != last.encoded {
        var k := OthersWithin(front, controller, i);
        assert entries[k].encoded != entries[|front|].encoded;
      }
    }
  }

  /** The value and the buffers are purged alike. */
  lemma {:induction false} PurgedAlike(queue: seq<Slot>, entries: seq<Entry>, controller: nat)
    requires |queue| == |entries| && forall i | 0 <= i < |queue| :: queue[i].controller == entries[i].controller
    ensures |Kept(queue, controller)| == |Others(entries, controller)|
    ensures forall i | 0 <= i < |Kept(queue, controller)| :: Kept(queue, controller)[i].controller == Others(entries, controller)[i].controller
  {
    if queue != [] {
      PurgedAlike(queue[..|queue| - 1], entries[..|entries| - 1], controller);
    }
  }
}
