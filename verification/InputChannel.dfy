/**
 The channel that carries input events from the JNI thread to the compositor thread
 (compositor/native/src/input_handler.c): a single-producer single-consumer ring and a
 pipe whose bytes wake the consumer.

 Every atomic access, pipe system call and slot access is one step. A load of the other
 side's index may return an old value, though never one older than a value the same thread
 has already seen, and, because reads and writes of one pipe exclude each other in the
 kernel, never one older than what the last pipe access of the other side followed.
 */
module InputChannel {

  const INPUT_RING_SIZE: nat := 256
  /** Bytes a pipe holds; a write to a full non-blocking pipe fails and adds nothing. */
  const PIPE_CAPACITY: nat := 65536
  const DRAIN_CHUNK: nat := 64

  datatype InputEvent =
    | Key(time: nat, keycode: nat, pressed: bool)
    | TouchDown(time: nat, id: int, x: real, y: real)
    | TouchMotion(time: nat, id: int, x: real, y: real)
    | TouchUp(time: nat, id: int)
    | TouchCancel(time: nat, id: int)
    | PointerMotion(time: nat, x: real, y: real)
    | PointerButton(time: nat, button: nat, pressed: bool)
    | PointerScroll(time: nat, dx: real, dy: real)

  /** Where the sending thread is: after ring_reserve, after filling the slot, after ring_commit. */
  datatype Producer = Idle | Reserved(event: InputEvent) | Filled(event: InputEvent) | Committed

  /** Where on_input_event is: not running, emptying the pipe, about to peek, holding a
      slot, or past its dispatch. */
  datatype Consumer = Asleep | Draining | Peeking | Holding | Dispatched

  /** The shared memory, the two program positions and the history.
      consumed counts ring_consume calls; seenTail, floor and published are the newest
      counts known to the producer, known to the consumer, and reached at the last wake. */
  datatype State = State(
    ring: seq<InputEvent>, head: nat, tail: nat, pipe: nat,
    producer: Producer, consumer: Consumer,
    committed: seq<InputEvent>, dispatched: seq<InputEvent>, consumed: nat,
    seenTail: nat, floor: nat, published: nat)

  datatype Action =
    | Reserve(event: InputEvent, tailSeen: nat)
    | Fill
    | Commit
    | Wake
    | Readable
    | ReadPipe(n: nat)
    | PipeEmpty
    | Peek(headSeen: nat)
    | Dispatch
    | Consume

  /** The index of the i-th event. */
  function Slot(i: nat): (k: nat)
    ensures k < INPUT_RING_SIZE
  {
    i % INPUT_RING_SIZE
  }

  lemma SlotsDiffer(i: nat, j: nat)
    requires i < j < i + INPUT_RING_SIZE
    ensures Slot(i) != Slot(j)
  {}

  lemma SlotsAdvance(i: nat)
    ensures Slot(i + 1) == (Slot(i) + 1) % INPUT_RING_SIZE
  {}

  /** The full test of ring_reserve on two indices. */
  predicate LooksFull(head: nat, tail: nat) {
    (head + 1) % INPUT_RING_SIZE == tail % INPUT_RING_SIZE
  }

  function Initial(ring: seq<InputEvent>): State {
    State(ring, 0, 0, 0, Idle, Asleep, [], [], 0, 0, 0, 0)
  }

  predicate Enabled(s: State, a: Action) {
    match a
    case Reserve(_, k) => s.producer.Idle? && s.seenTail <= k <= s.consumed
    case Fill => s.producer.Reserved? && s.head < |s.ring|
    case Commit => s.producer.Filled?
    case Wake => s.producer.Committed?
    case Readable => s.consumer.Asleep? && s.pipe > 0
    case ReadPipe(n) => s.consumer.Draining? && 1 <= n <= s.pipe && n <= DRAIN_CHUNK
    case PipeEmpty => s.consumer.Draining? && s.pipe == 0
    case Peek(h) => s.consumer.Peeking? && s.floor <= h <= |s.committed|
    case Dispatch => s.consumer.Holding? && s.tail < |s.ring|
    case Consume => s.consumer.Dispatched?
  }

  function Max(x: nat, y: nat): nat {
    if x < y then y else x
  }

  function Step(s: State, a: Action): State
    requires Enabled(s, a)
  {
    match a
    case Reserve(e, k) =>
      if LooksFull(s.head, Slot(k)) then s.(seenTail := k)
      else s.(seenTail := k, producer := Reserved(e))
    case Fill => s.(ring := s.ring[s.head := s.producer.event], producer := Filled(s.producer.event))
    case Commit =>
      s.(head := (s.head + 1) % INPUT_RING_SIZE, committed := s.committed + [s.producer.event], producer := Committed)
    case Wake =>
      s.(pipe := if s.pipe < PIPE_CAPACITY then s.pipe + 1 else s.pipe, published := |s.committed|, producer := Idle)
    case Readable => s.(consumer := Draining)
    case ReadPipe(n) => s.(pipe := s.pipe - n, floor := Max(s.floor, s.published))
    case PipeEmpty => s.(floor := Max(s.floor, s.published), consumer := Peeking)
    case Peek(h) =>
      if s.tail == Slot(h) then s.(floor := h, consumer := Asleep) else s.(floor := h, consumer := Holding)
    case Dispatch => s.(dispatched := s.dispatched + [s.ring[s.tail]], consumer := Dispatched)
    case Consume => s.(tail := (s.tail + 1) % INPUT_RING_SIZE, consumed := s.consumed + 1, consumer := Peeking)
  }

  // ---------------------------------------------------------------------
  // The invariant
  // ---------------------------------------------------------------------

  /** The indices are the counts, and the two sides are never more than the ring apart. */
  predicate Indices(s: State) {
    && |s.ring| == INPUT_RING_SIZE
    && s.head == Slot(|s.committed|) && s.tail == Slot(s.consumed)
    && s.seenTail <= s.consumed <= s.floor <= |s.committed|
    && |s.committed| - s.seenTail <= INPUT_RING_SIZE - 1
    && (s.producer.Reserved? || s.producer.Filled? ==> |s.committed| - s.seenTail <= INPUT_RING_SIZE - 2)
    && (s.consumer.Holding? || s.consumer.Dispatched? ==> s.consumed < s.floor)
  }

  /** Slots not yet consumed hold their events; a filled slot holds the one to commit. */
  ghost predicate Slots(s: State)
    requires |s.ring| == INPUT_RING_SIZE
  {
    && (forall i: nat :: s.consumed <= i < |s.committed| ==> s.ring[Slot(i)] == s.committed[i])
    && (s.producer.Filled? ==> s.ring[Slot(|s.committed|)] == s.producer.event)
  }

  /** What has been dispatched is a prefix of what has been committed. */
  predicate Delivered(s: State) {
    && |s.dispatched| == (if s.consumer.Dispatched? then s.consumed + 1 else s.consumed) <= |s.committed|
    && s.dispatched == s.committed[..|s.dispatched|]
  }

  /** The pipe tells the consumer of everything announced that it does not know of yet. */
  predicate Announced(s: State) {
    && s.published <= |s.committed|
    && s.published == (if s.producer.Committed? then |s.committed| - 1 else |s.committed|)
    && (s.pipe == 0 ==> s.published <= s.floor)
    && (s.consumer.Asleep? ==> s.consumed == s.floor)
  }

  ghost predicate Inv(s: State) {
    Indices(s) && Slots(s) && Delivered(s) && Announced(s)
  }

  lemma InitialInv(ring: seq<InputEvent>)
    requires |ring| == INPUT_RING_SIZE
    ensures Inv(Initial(ring))
  {}

  /** In terms of counts: the test fails exactly when 255 events are ahead of the tail seen. */
  lemma LooksFullIff(committed: nat, k: nat)
    requires k <= committed <= k + INPUT_RING_SIZE - 1
    ensures LooksFull(Slot(committed), Slot(k)) <==> committed - k == INPUT_RING_SIZE - 1
  {
    SlotsAdvance(committed);
    if committed - k == INPUT_RING_SIZE - 1 {
      assert committed + 1 == k + INPUT_RING_SIZE;
    } else {
      SlotsDiffer(k, committed + 1);
    }
  }

  lemma LooksEmptyIff(consumed: nat, h: nat)
    requires consumed <= h <= consumed + INPUT_RING_SIZE - 1
    ensures Slot(consumed) == Slot(h) <==> consumed == h
  {
    if consumed < h {
      SlotsDiffer(consumed, h);
    }
  }

  /** Filling the slot at head touches no event that is still to be read. */
  lemma FillKeepsSlots(s: State)
    requires Inv(s) && s.producer.Reserved?
    ensures Slots(Step(s, Fill))
    ensures forall i: nat :: s.consumed <= i < |s.committed| ==> Slot(i) != s.head
  {
    forall i: nat | s.consumed <= i < |s.committed| ensures Slot(i) != s.head {
      SlotsDiffer(i, |s.committed|);
    }
  }

  lemma StepKeepsIndices(s: State, a: Action)
    requires Inv(s) && Enabled(s, a)
    ensures Indices(Step(s, a))
  {
    match a
    case Reserve(_, k) => LooksFullIff(|s.committed|, k);
    case Commit => SlotsAdvance(|s.committed|);
    case Peek(h) => LooksEmptyIff(s.consumed, h);
    case Consume => SlotsAdvance(s.consumed);
    case _ =>
  }

  lemma StepKeepsDelivered(s: State, a: Action)
    requires Inv(s) && Enabled(s, a)
    ensures Delivered(Step(s, a))
  {
    if a.Dispatch? {
      assert s.ring[Slot(s.consumed)] == s.committed[s.consumed];
    }
  }

  lemma StepKeepsInv(s: State, a: Action)
    requires Inv(s) && Enabled(s, a)
    ensures Inv(Step(s, a))
  {
    StepKeepsIndices(s, a);
    StepKeepsDelivered(s, a);
    if a.Fill? {
      FillKeepsSlots(s);
    } else if a.Peek? {
      LooksEmptyIff(s.consumed, a.headSeen);
    }
  }

  // ---------------------------------------------------------------------
  // Every interleaving
  // ---------------------------------------------------------------------

  predicate Schedule(s: State, actions: seq<Action>)
    decreases |actions|
  {
    actions == [] || (Enabled(s, actions[0]) && Schedule(Step(s, actions[0]), actions[1..]))
  }

  function Run(s: State, actions: seq<Action>): State
    requires Schedule(s, actions)
    decreases |actions|
  {
    if actions == [] then s else Run(Step(s, actions[0]), actions[1..])
  }

  lemma PrefixOfPrefix(a: seq<InputEvent>, b: seq<InputEvent>, c: seq<InputEvent>)
    requires a <= b <= c
    ensures a <= c
  {
  }

  lemma StepAppends(s: State, a: Action)
    requires Inv(s) && Enabled(s, a)
    ensures s.committed <= Step(s, a).committed && s.dispatched <= Step(s, a).dispatched
  {
  }

  lemma {:induction false} RunKeepsInv(s: State, actions: seq<Action>)
    requires Inv(s) && Schedule(s, actions)
    ensures Inv(Run(s, actions))
    ensures s.committed <= Run(s, actions).committed && s.dispatched <= Run(s, actions).dispatched
    decreases |actions|
  {
    if actions != [] {
      var s', s'' := Step(s, actions[0]), Run(s, actions);
      StepKeepsInv(s, actions[0]);
      StepAppends(s, actions[0]);
      RunKeepsInv(s', actions[1..]);
      PrefixOfPrefix(s.committed, s'.committed, s''.committed);
      PrefixOfPrefix(s.dispatched, s'.dispatched, s''.dispatched);
    }
  }

  /** SPSC correctness: whatever old index values the two sides act on, events come out in
      the order they were committed, and at most 255 are outstanding. */
  lemma SpscCorrect(ring: seq<InputEvent>, actions: seq<Action>)
    requires |ring| == INPUT_RING_SIZE && Schedule(Initial(ring), actions)
    ensures var s := Run(Initial(ring), actions);
            && s.dispatched <= s.committed
            && |s.committed| - s.consumed <= INPUT_RING_SIZE - 1
            && |s.ring| == INPUT_RING_SIZE
            && forall i: nat :: s.consumed <= i < |s.committed| ==> s.ring[Slot(i)] == s.committed[i]
  {
    InitialInv(ring);
    RunKeepsInv(Initial(ring), actions);
  }

  /** A reservation is refused exactly when the tail it saw is 255 events behind; with the
      current tail that is exactly when the ring is full. */
  lemma ReserveRefusedIff(s: State, e: InputEvent, k: nat)
    requires Inv(s) && Enabled(s, Reserve(e, k))
    ensures Step(s, Reserve(e, k)).producer.Idle? <==> |s.committed| - k == INPUT_RING_SIZE - 1
    ensures Step(s, Reserve(e, k)).producer.Idle? && k < s.consumed ==> |s.committed| - s.consumed < INPUT_RING_SIZE - 1
  {
    LooksFullIff(|s.committed|, k);
  }

  /** No lost wakeup: with an event waiting, a sleeping consumer is about to be woken. */
  lemma NoLostWakeup(ring: seq<InputEvent>, actions: seq<Action>)
    requires |ring| == INPUT_RING_SIZE && Schedule(Initial(ring), actions)
    ensures var s := Run(Initial(ring), actions);
            s.consumer.Asleep? && s.consumed < |s.committed| ==> s.pipe > 0 || s.producer.Committed?
  {
    InitialInv(ring);
    RunKeepsInv(Initial(ring), actions);
  }

  /** When neither side can move on its own, everything committed has been dispatched. */
  lemma QuietMeansDelivered(ring: seq<InputEvent>, actions: seq<Action>)
    requires |ring| == INPUT_RING_SIZE && Schedule(Initial(ring), actions)
    requires var s := Run(Initial(ring), actions); s.producer.Idle? && !Enabled(s, Readable) && s.consumer.Asleep?
    ensures var s := Run(Initial(ring), actions); s.dispatched == s.committed
  {
    InitialInv(ring);
    RunKeepsInv(Initial(ring), actions);
  }

  /** A consumer left alone delivers: the work left before it sleeps. */
  function Work(s: State): nat
    requires Inv(s)
  {
    match s.consumer
    case Asleep => 0
    case Draining => s.pipe + 3 * (|s.committed| - s.consumed) + 2
    case Peeking => 3 * (|s.committed| - s.consumed) + 1
    case Holding => 3 * (|s.committed| - s.consumed)
    case Dispatched => 3 * (|s.committed| - s.consumed) - 1
  }

  /** Its next step, with a current head. */
  function NextConsumer(s: State): (a: Action)
    requires Inv(s) && !s.consumer.Asleep?
    ensures Enabled(s, a)
  {
    match s.consumer
    case Draining => if s.pipe == 0 then PipeEmpty else ReadPipe(if s.pipe < DRAIN_CHUNK then s.pipe else DRAIN_CHUNK)
    case Peeking => Peek(|s.committed|)
    case Holding => Dispatch
    case Dispatched => Consume
  }

  lemma {:induction false} ConsumerDelivers(s: State) returns (actions: seq<Action>)
    requires Inv(s) && (s.consumer.Asleep? ==> s.consumed == |s.committed|)
    ensures Schedule(s, actions)
    ensures var s' := Run(s, actions);
            s'.consumer.Asleep? && s'.committed == s.committed && s'.dispatched == s.committed
    decreases Work(s)
  {
    if s.consumer.Asleep? {
      actions := [];
    } else {
      var a := NextConsumer(s);
      var s' := Step(s, a);
      StepKeepsInv(s, a);
      if a.Peek? {
        LooksEmptyIff(s.consumed, |s.committed|);
      }
      var rest := ConsumerDelivers(s');
      actions := [a] + rest;
      assert actions[1..] == rest;
    }
  }

  // ---------------------------------------------------------------------
  // The code
  // ---------------------------------------------------------------------

  class Channel {
    var ring: array<InputEvent>
    var ringHead: nat
    var ringTail: nat
    var pipe: nat
    /** What the steps so far amount to. */
    ghost var st: State

    ghost predicate Valid()
      reads this, ring
    {
      && st.ring == ring[..] && st.head == ringHead && st.tail == ringTail && st.pipe == pipe
      && Inv(st)
    }

    constructor (slots: array<InputEvent>)
      requires slots.Length == INPUT_RING_SIZE
      ensures Valid() && ring == slots && st == Initial(slots[..])
    {
      ring, ringHead, ringTail, pipe := slots, 0, 0, 0;
      st := Initial(slots[..]);
    }

    /** ring_reserve, when the load of ring_tail returns the value it had after k consumes. */
    method RingReserve(tail: nat, ghost k: nat, ghost e: InputEvent) returns (slot: int)
      requires Valid() && Enabled(st, Reserve(e, k)) && tail == Slot(k)
      modifies this`st
      ensures Valid() && st == Step(old(st), Reserve(e, k))
      ensures slot == if |st.committed| - k == INPUT_RING_SIZE - 1 then -1 else ringHead
    {
      LooksFullIff(|st.committed|, k);
      StepKeepsInv(st, Reserve(e, k));
      st := Step(st, Reserve(e, k));
      if (ringHead + 1) % INPUT_RING_SIZE == tail % INPUT_RING_SIZE {
        return -1;
      }
      slot := ringHead % INPUT_RING_SIZE;
    }

    /** The caller of ring_reserve fills the slot. */
    method FillSlot(slot: nat, e: InputEvent)
      requires Valid() && st.producer == Reserved(e) && slot == ringHead
      modifies this`st, ring
      ensures Valid() && ring == old(ring) && st == Step(old(st), Fill)
    {
      StepKeepsInv(st, Fill);
      st := Step(st, Fill);
      ring[slot] := e;
    }

    method RingCommit()
      requires Valid() && st.producer.Filled?
      modifies this`st, this`ringHead
      ensures Valid() && st == Step(old(st), Commit)
    {
      StepKeepsInv(st, Commit);
      st := Step(st, Commit);
      ringHead := (ringHead + 1) % INPUT_RING_SIZE;
    }

    /** wake_compositor; the result of the write is ignored. */
    method WakeCompositor()
      requires Valid() && st.producer.Committed?
      modifies this`st, this`pipe
      ensures Valid() && st == Step(old(st), Wake)
    {
      StepKeepsInv(st, Wake);
      st := Step(st, Wake);
      if pipe < PIPE_CAPACITY {
        pipe := pipe + 1;
      }
    }

    /** ring_peek, when the load of ring_head returns the value it had after h commits. */
    method RingPeek(head: nat, ghost h: nat) returns (slot: int)
      requires Valid() && Enabled(st, Peek(h)) && head == Slot(h)
      modifies this`st
      ensures Valid() && st == Step(old(st), Peek(h))
      ensures slot == if st.consumed == h then -1 else ringTail
    {
      LooksEmptyIff(st.consumed, h);
      StepKeepsInv(st, Peek(h));
      st := Step(st, Peek(h));
      if ringTail == head {
        return -1;
      }
      slot := ringTail % INPUT_RING_SIZE;
    }

    method RingConsume()
      requires Valid() && st.consumer.Dispatched?
      modifies this`st, this`ringTail
      ensures Valid() && st == Step(old(st), Consume)
    {
      StepKeepsInv(st, Consume);
      st := Step(st, Consume);
      ringTail := (ringTail + 1) % INPUT_RING_SIZE;
    }

    /** The first loop of on_input_event. */
    method DrainPipe()
      requires Valid() && st.consumer.Draining?
      modifies this`st, this`pipe
      ensures Valid() && st.consumer.Peeking? && pipe == 0
      ensures st == old(st).(consumer := Peeking, pipe := 0, floor := st.floor)
    {
      while pipe > 0
        invariant Valid() && st == old(st).(pipe := pipe, floor := st.floor)
      {
        var n := if pipe < DRAIN_CHUNK then pipe else DRAIN_CHUNK;
        StepKeepsInv(st, ReadPipe(n));
        st := Step(st, ReadPipe(n));
        pipe := pipe - n;
      }
      StepKeepsInv(st, PipeEmpty);
      st := Step(st, PipeEmpty);
    }

    /** ring_peek with a current head. */
    method PeekNow() returns (slot: int)
      requires Valid() && st.consumer.Peeking?
      modifies this`st
      ensures Valid() && st == Served(old(st)) && slot == (if st.consumer.Holding? then ringTail else -1)
    {
      LooksEmptyIff(st.consumed, |st.committed|);
      slot := RingPeek(ringHead, |st.committed|);
    }

    /** One turn of the second loop: dispatch the slot, consume it, peek again. */
    method ServeSlot(slot: nat) returns (event: InputEvent, next: int)
      requires Valid() && st.consumer.Holding? && slot == ringTail
      modifies this`st, this`ringTail
      ensures Valid() && next == (if st.consumer.Holding? then ringTail else -1)
      ensures Turn(old(st), st, event)
    {
      event := ring[slot];
      StepKeepsInv(st, Dispatch);
      st := Step(st, Dispatch);
      RingConsume();
      next := PeekNow();
    }

    /** on_input_event, uninterrupted: the pipe is emptied first, then the ring; every event
        committed so far has been handed to the dispatchers when it returns. */
    method OnInputEvent() returns (events: seq<InputEvent>)
      requires Valid() && st.consumer.Draining?
      modifies this`st, this`pipe, this`ringTail
      ensures Valid() && st.consumer.Asleep? && pipe == 0
      ensures st.committed == old(st).committed && st.producer == old(st).producer
      ensures old(st).dispatched + events == st.dispatched == st.committed
    {
      DrainPipe();
      ghost var began := st;
      events := [];
      var slot := PeekNow();
      while slot >= 0
        invariant Valid() && slot == (if st.consumer.Holding? then ringTail else -1)
        invariant Serving(began, st, events)
        decreases |st.committed| - st.consumed
      {
        var event, next := ServeSlot(slot);
        events, slot := events + [event], next;
      }
    }
  }

  /** After a peek with a current head: holding the next event, or asleep with none left. */
  function Served(s: State): State {
    s.(floor := |s.committed|, consumer := if s.consumed == |s.committed| then Asleep else Holding)
  }

  predicate Turn(s: State, s': State, event: InputEvent) {
    s' == Served(s.(dispatched := s.dispatched + [event], consumed := s.consumed + 1, tail := s'.tail))
  }

  predicate Serving(s: State, s': State, events: seq<InputEvent>) {
    && s' == Served(s')
    && s'.committed == s.committed && s'.producer == s.producer && s'.pipe == s.pipe
    && s'.dispatched == s.dispatched + events
  }
}
