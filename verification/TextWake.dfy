/**
 The queue of compositor/native/src/text_input_handler.c together with its wake pipe: the
 JNI thread queues an operation and writes a byte, or frees the whole queue if it cannot;
 the compositor thread empties the pipe, then the queue, but goes back to sleep at once
 when reading the pipe fails.
 */
module TextWake {
  import opened Common
  import Q = TextQueue

  const PIPE_CAPACITY: nat := 65536
  const DRAIN_CHUNK: nat := 64

  /** Where a text_input_handle call is: not running, between the enqueue and the write of
      its wake byte, or in the clear that follows a failed write. */
  datatype Producer = Idle | Queued | Clearing

  /** Where on_text_input_event is. */
  datatype Consumer = Asleep | Draining | Popping

  datatype State = State(history: Q.History, pipe: nat, producer: Producer, consumer: Consumer)

  const INITIAL: State := State(Q.History([], [], []), 0, Idle, Asleep)

  datatype Action =
    | Enqueue(op: Q.Op)
    | Wake
    | WakeFails
    | Free
    | Cleared
    | Readable
    | ReadPipe(n: nat)
    | PipeEmpty
    | ReadFails
    | Dispatch
    | QueueEmpty

  predicate Enabled(s: State, a: Action) {
    match a
    case Enqueue(_) => s.producer.Idle?
    case Wake => s.producer.Queued?
    case WakeFails => s.producer.Queued?
    case Free => s.producer.Clearing? && s.history.queue != []
    case Cleared => s.producer.Clearing? && s.history.queue == []
    case Readable => s.consumer.Asleep? && s.pipe > 0
    case ReadPipe(n) => s.consumer.Draining? && 1 <= n <= s.pipe && n <= DRAIN_CHUNK
    case PipeEmpty => s.consumer.Draining? && s.pipe == 0
    case ReadFails => s.consumer.Draining?
    case Dispatch => s.consumer.Popping? && s.history.queue != []
    case QueueEmpty => s.consumer.Popping? && s.history.queue == []
  }

  /** A write to a full pipe counts as done: the reader has bytes to wake for. */
  function Step(s: State, a: Action): State
    requires Enabled(s, a)
  {
    match a
    case Enqueue(op) =>
      if Q.Fits(s.history.queue, op)
      then s.(history := Q.Step(s.history, Q.Action.Enqueue(op)), producer := Queued) else s
    case Wake => s.(pipe := if s.pipe < PIPE_CAPACITY then s.pipe + 1 else s.pipe, producer := Idle)
    case WakeFails => s.(producer := Clearing)
    case Free => s.(history := Q.Step(s.history, Q.Action.Pop(false)))
    case Cleared => s.(producer := Idle)
    case Readable => s.(consumer := Draining)
    case ReadPipe(n) => s.(pipe := s.pipe - n)
    case PipeEmpty => s.(consumer := Popping)
    case ReadFails => s.(consumer := Asleep)
    case Dispatch => s.(history := Q.Step(s.history, Q.Action.Pop(true)))
    case QueueEmpty => s.(consumer := Asleep)
  }

  /** With an operation queued, someone is about to do something about it. */
  predicate Attended(s: State) {
    s.history.queue != [] ==> s.pipe > 0 || !s.producer.Idle? || !s.consumer.Asleep?
  }

  /** The read error that leaves the queue to itself: all wake bytes have been read, and
      nobody is about to write one. */
  predicate Strands(s: State, a: Action) {
    a.ReadFails? && s.history.queue != [] && s.pipe == 0 && s.producer.Idle?
  }

  lemma AttendedIff(s: State, a: Action)
    requires Attended(s) && Enabled(s, a)
    ensures Attended(Step(s, a)) <==> !Strands(s, a)
  {
  }

  predicate Schedule(s: State, actions: seq<Action>)
    decreases |actions|
  {
    actions == [] || (Enabled(s, actions[0]) && Schedule(Step(s, actions[0]), actions[1..]))
  }

  function Run(s: State, actions: seq<Action>): State
    requires Schedule(s, actions)
    decreases |actions|
  {
    if actions == [] then s else Run(Step(s, actions[0]), actions[1..])
  }

  predicate AlwaysAttended(s: State, actions: seq<Action>)
    requires Schedule(s, actions)
    decreases |actions|
  {
    Attended(s) && (actions == [] || AlwaysAttended(Step(s, actions[0]), actions[1..]))
  }

  predicate EverStrands(s: State, actions: seq<Action>)
    requires Schedule(s, actions)
    decreases |actions|
  {
    actions != [] && (Strands(s, actions[0]) || EverStrands(Step(s, actions[0]), actions[1..]))
  }

  /** No lost wakeup: in every interleaving, a queued operation always has a wake byte, a
      producer or a consumer at work for it, if and only if no read of the pipe ever fails
      after the last byte has been read while operations are queued and no wake is due. */
  lemma {:induction false} NoLostWakeupIff(s: State, actions: seq<Action>)
    requires Attended(s) && Schedule(s, actions)
    ensures AlwaysAttended(s, actions) <==> !EverStrands(s, actions)
    decreases |actions|
  {
    if actions != [] {
      AttendedIff(s, actions[0]);
      if !Strands(s, actions[0]) {
        NoLostWakeupIff(Step(s, actions[0]), actions[1..]);
      } else {
        NotAttended(Step(s, actions[0]), actions[1..]);
      }
    }
  }

  lemma NotAttended(s: State, actions: seq<Action>)
    requires Schedule(s, actions) && !Attended(s)
    ensures !AlwaysAttended(s, actions)
  {
  }

  /** What has come out, by dispatch or by a clear, is in every interleaving what was
      accepted, in order, up to what is still queued. */
  lemma {:induction false} RunKeepsFifo(s: State, actions: seq<Action>)
    requires Q.Fifo(s.history) && Schedule(s, actions)
    ensures Q.Fifo(Run(s, actions).history)
    decreases |actions|
  {
    if actions != [] {
      var a := actions[0];
      match a {
        case Enqueue(op) => Q.StepKeepsFifo(s.history, Q.Action.Enqueue(op));
        case Free => Q.StepKeepsFifo(s.history, Q.Action.Pop(false));
        case Dispatch => Q.StepKeepsFifo(s.history, Q.Action.Pop(true));
        case _ =>
      }
      RunKeepsFifo(Step(s, a), actions[1..]);
    }
  }

  predicate AllDispatched(h: Q.History) {
    forall i :: 0 <= i < |h.removed| ==> h.removed[i].dispatched
  }

  /** Nothing accepted is thrown away as long as no wake byte fails to be written. */
  lemma {:induction false} FreedOnlyAfterFailure(s: State, actions: seq<Action>)
    requires !s.producer.Clearing? && AllDispatched(s.history) && Schedule(s, actions)
    requires forall i :: 0 <= i < |actions| ==> !actions[i].WakeFails?
    ensures AllDispatched(Run(s, actions).history) && !Run(s, actions).producer.Clearing?
    decreases |actions|
  {
    if actions != [] {
      var s' := Step(s, actions[0]);
      assert !s'.producer.Clearing?;
      assert forall i :: 0 <= i < |s'.history.removed| && i != |s.history.removed| ==> s'.history.removed[i] == s.history.removed[i];
      FreedOnlyAfterFailure(s', actions[1..]);
    }
  }

  lemma {:induction false} FreedStaysFreed(s: State, actions: seq<Action>)
    requires !AllDispatched(s.history) && Schedule(s, actions)
    ensures !AllDispatched(Run(s, actions).history)
    decreases |actions|
  {
    if actions != [] {
      var s' := Step(s, actions[0]);
      var i :| 0 <= i < |s.history.removed| && !s.history.removed[i].dispatched;
      assert s'.history.removed[i] == s.history.removed[i];
      FreedStaysFreed(s', actions[1..]);
    }
  }

  /** Over every interleaving something accepted is thrown away exactly if a clear that
      follows a failed write still finds an operation, before the consumer has taken it. */
  lemma {:induction false} RunLosesIff(s: State, actions: seq<Action>)
    requires Schedule(s, actions) && AllDispatched(s.history)
    ensures AllDispatched(Run(s, actions).history) <==> forall i :: 0 <= i < |actions| ==> !actions[i].Free?
    decreases |actions|
  {
    if actions != [] {
      var s' := Step(s, actions[0]);
      if actions[0].Free? {
        assert !s'.history.removed[|s.history.removed|].dispatched;
        FreedStaysFreed(s', actions[1..]);
      } else {
        assert forall i :: 0 <= i < |s'.history.removed| && i != |s.history.removed| ==> s'.history.removed[i] == s.history.removed[i];
        RunLosesIff(s', actions[1..]);
        assert forall i :: 0 < i < |actions| ==> actions[i] == actions[1..][i - 1];
      }
    }
  }

  /** The history after a call that no one disturbs. */
  function AfterCall(h: Q.History, op: Q.Op, writeFails: bool): Q.History {
    if !Q.Fits(h.queue, op) then h
    else if writeFails then Q.Drained(Q.Step(h, Q.Action.Enqueue(op)), false)
    else Q.Step(h, Q.Action.Enqueue(op))
  }

  /** Such a call throws text away exactly if its operation is accepted and the wake byte
      cannot be written, and then its own operation and all that were queued before it. */
  lemma CallLosesIff(h: Q.History, op: Q.Op, writeFails: bool)
    requires AllDispatched(h)
    ensures var h' := AfterCall(h, op, writeFails);
            && (AllDispatched(h') <==> !(Q.Fits(h.queue, op) && writeFails))
            && (!AllDispatched(h') ==>
                  && h'.queue == [] && |h'.removed| == |h.removed| + |h.queue| + 1
                  && forall i :: 0 <= i <= |h.queue| ==> h'.removed[|h.removed| + i] == Q.Removed((h.queue + [op])[i], false))
  {
    var h' := AfterCall(h, op, writeFails);
    if Q.Fits(h.queue, op) && writeFails {
      Q.DrainedIs(Q.Step(h, Q.Action.Enqueue(op)), false);
      assert h'.removed[|h.removed|] == Q.Removed((h.queue + [op])[0], false);
    }
  }

  /** One failed write throws away all that is queued, operations that had been announced
      included. */
  lemma FailureFreesAnnounced(a: Q.Op, b: Q.Op)
    requires Q.Fits([], a) && Q.Fits([a], b)
    ensures var actions := [Enqueue(a), Wake, Enqueue(b), WakeFails, Free, Free, Cleared];
            && Schedule(INITIAL, actions)
            && Run(INITIAL, actions).history == Q.History([], [a, b], [Q.Removed(a, false), Q.Removed(b, false)])
            && Run(INITIAL, actions).pipe == 1
  {
    var s1 := State(Q.History([a], [a], []), 1, Idle, Asleep);
    var s2 := State(Q.History([a, b], [a, b], []), 1, Queued, Asleep);
    assert Step(Step(INITIAL, Enqueue(a)), Wake) == s1;
    assert Step(s1, Enqueue(b)) == s2;
    assert [a, b][1..] == [b] && [b][1..] == [];
    var s3 := Step(Step(Step(s2, WakeFails), Free), Free);
    assert s3.history == Q.History([], [a, b], [Q.Removed(a, false), Q.Removed(b, false)]);
    RunsLast(s3);
    FirstOf(Step(Step(s2, WakeFails), Free), Free, [Cleared]);
    FirstOf(Step(s2, WakeFails), Free, [Free, Cleared]);
    FirstOf(s2, WakeFails, [Free, Free, Cleared]);
    FirstOf(s1, Enqueue(b), [WakeFails, Free, Free, Cleared]);
    FirstOf(Step(INITIAL, Enqueue(a)), Wake, [Enqueue(b), WakeFails, Free, Free, Cleared]);
    FirstOf(INITIAL, Enqueue(a), [Wake, Enqueue(b), WakeFails, Free, Free, Cleared]);
  }

  lemma RunsLast(s: State)
    requires Enabled(s, Cleared)
    ensures Schedule(s, [Cleared]) && Run(s, [Cleared]) == Step(s, Cleared)
  {
    assert [Cleared][1..] == [];
  }

  lemma FirstOf(s: State, a: Action, actions: seq<Action>)
    requires Enabled(s, a) && Schedule(Step(s, a), actions)
    ensures Schedule(s, [a] + actions) && Run(s, [a] + actions) == Run(Step(s, a), actions)
  {
    assert ([a] + actions)[1..] == actions;
  }

  /** A read error after the wake byte has been read leaves the operation queued with nothing
      to wake for. */
  lemma ReadErrorStrands(op: Q.Op)
    requires Q.Fits([], op)
    ensures var s := Step(Step(Step(Step(INITIAL, Enqueue(op)), Wake), Readable), ReadPipe(1));
            && Enabled(s, ReadFails) && Strands(s, ReadFails) && Step(s, ReadFails).history.queue == [op]
            && !Attended(Step(s, ReadFails))
  {
  }

  /** The work left to a consumer that is not disturbed. */
  function Work(s: State): nat {
    match s.consumer
    case Asleep => 0
    case Draining => s.pipe + |s.history.queue| + 2
    case Popping => |s.history.queue| + 1
  }

  /** A consumer awake dispatches all that is queued, if no read fails; so the next wake byte
      also delivers what a read error has left behind. */
  lemma {:induction false} ConsumerDelivers(s: State) returns (actions: seq<Action>)
    requires !s.consumer.Asleep?
    ensures Schedule(s, actions)
    ensures var s' := Run(s, actions);
            s'.consumer.Asleep? && s'.history == Q.Drained(s.history, true) && s'.producer == s.producer
    decreases Work(s)
  {
    var a := if s.consumer.Draining? then
               (if s.pipe == 0 then PipeEmpty else ReadPipe(if s.pipe < DRAIN_CHUNK then s.pipe else DRAIN_CHUNK))
             else if s.history.queue == [] then QueueEmpty else Dispatch;
    var s1 := Step(s, a);
    var rest: seq<Action> := [];
    if !s1.consumer.Asleep? {
      rest := ConsumerDelivers(s1);
    }
    actions := [a] + rest;
    FirstOf(s, a, rest);
  }

  // ---------------------------------------------------------------------
  // The code
  // ---------------------------------------------------------------------

  class Channel {
    const queue: Q.Queue
    var pipe: nat
    ghost var st: State

    ghost predicate Valid()
      reads this, queue, queue.nodes
    {
      queue.Valid() && st.history == queue.history && st.pipe == pipe
    }

    /** With a new queue this is the state INITIAL. */
    constructor (queue: Q.Queue)
      requires queue.Valid()
      ensures Valid() && this.queue == queue && st == State(queue.history, 0, Idle, Asleep)
    {
      this.queue, pipe, st := queue, 0, State(queue.history, 0, Idle, Asleep);
    }

    /** text_input_handle_commit_text and its siblings, once the operation has been built:
        enqueue, wake, and clear if the write fails. */
    method HandleText(op: Q.Op, writeFails: bool)
      requires Valid() && st.producer.Idle?
      modifies this, queue, queue.nodes
      ensures Valid() && st.producer.Idle? && st.consumer == old(st.consumer)
      ensures st.history == AfterCall(old(st.history), op, writeFails)
      ensures pipe == if Q.Fits(old(st.history.queue), op) && !writeFails && old(pipe) < PIPE_CAPACITY then old(pipe) + 1
                      else old(pipe)
    {
      var accepted := queue.Enqueue(op);
      st := Step(st, Enqueue(op));
      if !accepted {
        return;
      }
      if writeFails {
        ClearAll();
        return;
      }
      pipe := if pipe < PIPE_CAPACITY then pipe + 1 else pipe;
      st := Step(st, Wake);
    }

    /** The wake byte cannot be written. */
    method ClearAll()
      requires Valid() && st.producer.Queued?
      modifies this`st, queue
      ensures Valid() && st == old(st).(history := Q.Drained(old(st.history), false), producer := Idle)
    {
      st := Step(st, WakeFails);
      queue.Clear();
      st := Step(st.(history := queue.history), Cleared);
    }

    /** on_text_input_event: false if reading the pipe failed, and then nothing is taken off
        the queue. */
    method OnTextInputEvent() returns (ok: bool)
      requires Valid() && st.consumer.Asleep? && pipe > 0
      modifies this, queue, queue.nodes
      ensures Valid() && st.consumer.Asleep? && st.producer == old(st.producer)
      ensures ok ==> pipe == 0 && st.history == Q.Drained(old(st.history), true)
      ensures !ok ==> pipe <= old(pipe) && st.history == old(st.history)
    {
      ok := DrainPipe();
      if !ok {
        return;
      }
      queue.Drain(true);
      st := Step(st.(history := queue.history), QueueEmpty);
    }

    /** The read loop of on_text_input_event, which any error but an empty pipe ends. */
    method DrainPipe() returns (ok: bool)
      requires st.pipe == pipe && st.consumer.Asleep? && pipe > 0
      modifies this`pipe, this`st
      ensures st == old(st).(pipe := pipe, consumer := if ok then Popping else Asleep)
      ensures pipe <= old(pipe) && (ok ==> pipe == 0)
    {
      st := Step(st, Readable);
      while pipe > 0
        invariant pipe <= old(pipe) && st == old(st).(pipe := pipe, consumer := Draining)
      {
        if * {
          st := Step(st, ReadFails);
          return false;
        }
        var n :| 1 <= n <= pipe && n <= DRAIN_CHUNK;
        pipe := pipe - n;
        st := Step(st, ReadPipe(n));
      }
      if * {
        st := Step(st, ReadFails);
        return false;
      }
      st := Step(st, PipeEmpty);
      ok := true;
    }
  }
}
