/**
 The queue between the thread that receives text from the Android IME and the compositor
 thread (compositor/native/src/text_input_handler.c): a bounded linked list whose every
 operation runs under one mutex.
 */
module TextQueue {
  import opened Common
  import opened Utf8

  const PENDING_TEXT_MAX_COUNT: nat := 256
  const PENDING_TEXT_MAX_BYTES: nat := 256 * 1024
  /** sizeof(struct pending_text_op) with 64-bit pointers. */
  const OP_STRUCT_SIZE: nat := 48

  datatype Op = Commit(text: seq<byte>) | Delete(before: nat, after: nat, codePoints: bool)
  {
    function Bytes(): nat {
      match this
      case Commit(text) => |text|
      case Delete(before, after, _) => OP_STRUCT_SIZE + before + after
    }
  }

  function TotalBytes(ops: seq<Op>): nat {
    if ops == [] then 0 else ops[0].Bytes() + TotalBytes(ops[1..])
  }

  lemma {:induction false} TotalBytesAppend(ops: seq<Op>, op: Op)
    ensures TotalBytes(ops + [op]) == TotalBytes(ops) + op.Bytes()
  {
    if ops == [] {
      assert ops + [op] == [op];
    } else {
      TotalBytesAppend(ops[1..], op);
      assert (ops + [op])[1..] == ops[1..] + [op];
    }
  }

  predicate Bounded(ops: seq<Op>) {
    |ops| <= PENDING_TEXT_MAX_COUNT && TotalBytes(ops) <= PENDING_TEXT_MAX_BYTES
  }

  /** Whether there is room for one more. */
  predicate Fits(ops: seq<Op>, op: Op) {
    |ops| < PENDING_TEXT_MAX_COUNT && TotalBytes(ops) + op.Bytes() <= PENDING_TEXT_MAX_BYTES
  }

  /** The text that the commits among the operations will put in. */
  function TextOf(ops: seq<Op>): seq<byte> {
    if ops == [] then [] else (if ops[0].Commit? then ops[0].text else []) + TextOf(ops[1..])
  }

  function DeletesAmong(ops: seq<Op>): (ds: seq<Op>)
    ensures forall i :: 0 <= i < |ds| ==> ds[i].Delete?
  {
    if ops == [] then [] else (if ops[0].Delete? then [ops[0]] else []) + DeletesAmong(ops[1..])
  }

  /** How far the deletions reach together. */
  function Reach(ds: seq<Op>): nat
    requires forall i :: 0 <= i < |ds| ==> ds[i].Delete?
  {
    if ds == [] then 0 else ds[0].before + ds[0].after + Reach(ds[1..])
  }

  /** The bytes counted are those of the text, and for each deletion its record and reach. */
  lemma {:induction false} TotalBytesIs(ops: seq<Op>)
    ensures TotalBytes(ops) == |TextOf(ops)| + OP_STRUCT_SIZE * |DeletesAmong(ops)| + Reach(DeletesAmong(ops))
  {
    if ops != [] {
      var rest := DeletesAmong(ops[1..]);
      TotalBytesIs(ops[1..]);
      if ops[0].Delete? {
        assert ([ops[0]] + rest)[1..] == rest;
      } else {
        assert [] + rest == rest;
      }
    }
  }

  /** An operation is refused exactly if the queue with it would not be within the limits. */
  lemma FitsIff(ops: seq<Op>, op: Op)
    ensures Fits(ops, op) <==> Bounded(ops + [op])
  {
    TotalBytesAppend(ops, op);
  }

  // ---------------------------------------------------------------------
  // The linked list
  // ---------------------------------------------------------------------

  class Node {
    const op: Op
    var next: Node?

    constructor (op: Op)
      ensures this.op == op && next == null
    {
      this.op := op;
      next := null;
    }
  }

  class Queue {
    var head: Node?
    var tail: Node?
    var count: nat
    var bytes: nat
    /** The nodes reachable from head, in order. */
    ghost var nodes: seq<Node>
    /** The operations in them. */
    ghost var contents: seq<Op>
    /** What has gone in and come out. */
    ghost var history: History

    /** The operations in the list are those that went in and have not come out. */
    ghost predicate Valid()
      reads this, nodes
    {
      Linked() && history.queue == contents && Fifo(history)
    }

    /** The list runs through distinct nodes to tail and stops there; the two counters
        agree with it. */
    ghost predicate Linked()
      reads this`head, this`tail, this`count, this`bytes, this`nodes, this`contents, nodes
    {
      && (forall i, j :: 0 <= i < j < |nodes| ==> nodes[i] != nodes[j])
      && (forall i :: 0 <= i < |nodes| - 1 ==> nodes[i].next == nodes[i + 1])
      && (nodes != [] ==> nodes[|nodes| - 1].next == null)
      && head == (if nodes == [] then null else nodes[0])
      && tail == (if nodes == [] then null else nodes[|nodes| - 1])
      && |contents| == |nodes| && (forall i :: 0 <= i < |nodes| ==> nodes[i].op == contents[i])
      && count == |nodes| && bytes == TotalBytes(contents)
    }

    constructor ()
      ensures Valid() && history == History([], [], []) && nodes == []
    {
      head, tail, count, bytes := null, null, 0, 0;
      nodes, contents, history := [], [], History([], [], []);
    }

    /** enqueue_text_op. */
    method Enqueue(op: Op) returns (accepted: bool)
      requires Valid()
      modifies this, nodes
      ensures Valid() && fresh(set n | n in nodes && n !in old(nodes))
      ensures accepted <==> Fits(old(contents), op)
      ensures contents == if accepted then old(contents) + [op] else old(contents)
      ensures history == Step(old(history), Action.Enqueue(op))
    {
      StepKeepsFifo(history, Action.Enqueue(op));
      history := Step(history, Action.Enqueue(op));
      if count >= PENDING_TEXT_MAX_COUNT || bytes + op.Bytes() > PENDING_TEXT_MAX_BYTES {
        return false;
      }
      Append(op);
      accepted := true;
    }

    /** A new node at the tail. */
    method Append(op: Op)
      requires Linked()
      modifies this`head, this`tail, this`count, this`bytes, this`nodes, this`contents, nodes
      ensures Linked() && contents == old(contents) + [op]
      ensures fresh(set n | n in nodes && n !in old(nodes))
    {
      TotalBytesAppend(contents, op);
      var node := new Node(op);
      if tail != null {
        tail.next := node;
      } else {
        head := node;
      }
      tail := node;
      count := count + 1;
      bytes := bytes + op.Bytes();
      nodes, contents := nodes + [node], contents + [op];
    }

    /** pop_text_op; the caller dispatches the operation or frees it. */
    method Pop(ghost dispatch: bool) returns (op: Option<Op>)
      requires Valid()
      modifies this
      ensures Valid() && (forall n :: n in nodes ==> n in old(nodes))
      ensures old(contents) == [] ==> op == None && contents == []
      ensures old(contents) != [] ==> op == Some(old(contents)[0]) && contents == old(contents)[1..]
      ensures history == Step(old(history), Action.Pop(dispatch))
    {
      StepKeepsFifo(history, Action.Pop(dispatch));
      history := Step(history, Action.Pop(dispatch));
      if head == null {
        return None;
      }
      var node := head;
      head := node.next;
      if head == null {
        tail := null;
      }
      count := count - 1;
      bytes := bytes - node.op.Bytes();
      nodes, contents := nodes[1..], contents[1..];
      op := Some(node.op);
    }

    /** The loops of clear_pending_text_ops, which frees, and of on_text_input_event, which
        dispatches: everything queued comes out. */
    method Drain(ghost dispatch: bool)
      requires Valid()
      modifies this
      ensures Valid() && contents == [] && history == Drained(old(history), dispatch)
    {
      var op := Pop(dispatch);
      while op.Some?
        invariant Valid() && (op.None? ==> contents == [])
        invariant Drained(history, dispatch) == Drained(old(history), dispatch)
        decreases |nodes|, op.Some?
      {
        op := Pop(dispatch);
      }
    }

    /** clear_pending_text_ops. */
    method Clear()
      requires Valid()
      modifies this
      ensures Valid() && contents == [] && history == Drained(old(history), false)
    {
      Drain(false);
    }

    /** enqueue_text_delete: the lengths are clamped before they are queued. */
    method EnqueueDelete(before: nat, after: nat, codePoints: bool) returns (accepted: bool)
      requires Valid()
      modifies this, nodes
      ensures Valid() && fresh(set n | n in nodes && n !in old(nodes))
      ensures var op := Delete(ClampDeleteCount(before), ClampDeleteCount(after), codePoints);
              && (accepted <==> Fits(old(contents), op))
              && contents == (if accepted then old(contents) + [op] else old(contents))
              && history == Step(old(history), Action.Enqueue(op))
    {
      accepted := Enqueue(Delete(ClampDeleteCount(before), ClampDeleteCount(after), codePoints));
    }
  }

  // ---------------------------------------------------------------------
  // Runs of the two threads: each critical section is one step
  // ---------------------------------------------------------------------

  /** A pop either hands its operation to the compositor or, in a clear, frees it. */
  datatype Action = Enqueue(op: Op) | Pop(dispatch: bool)

  datatype Removed = Removed(op: Op, dispatched: bool)

  /** The queue with what went in and what came out so far. */
  datatype History = History(queue: seq<Op>, accepted: seq<Op>, removed: seq<Removed>)

  function Step(h: History, a: Action): History {
    match a
    case Enqueue(op) =>
      if Fits(h.queue, op) then h.(queue := h.queue + [op], accepted := h.accepted + [op]) else h
    case Pop(dispatch) =>
      if h.queue == [] then h
      else h.(queue := h.queue[1..], removed := h.removed + [Removed(h.queue[0], dispatch)])
  }

  function Run(h: History, actions: seq<Action>): History
    decreases |actions|
  {
    if actions == [] then h else Run(Step(h, actions[0]), actions[1..])
  }

  /** Popping until nothing is left. */
  function Drained(h: History, dispatch: bool): History
    decreases |h.queue|
  {
    if h.queue == [] then h else Drained(Step(h, Action.Pop(dispatch)), dispatch)
  }

  /** What is popped then is what was queued, in order. */
  lemma {:induction false} DrainedIs(h: History, dispatch: bool)
    ensures var h' := Drained(h, dispatch);
            && h'.queue == [] && h'.accepted == h.accepted
            && |h'.removed| == |h.removed| + |h.queue| && h'.removed[..|h.removed|] == h.removed
            && forall i :: 0 <= i < |h.queue| ==> h'.removed[|h.removed| + i] == Removed(h.queue[i], dispatch)
    decreases |h.queue|
  {
    if h.queue != [] {
      var h1 := Step(h, Action.Pop(dispatch));
      DrainedIs(h1, dispatch);
      var h' := Drained(h, dispatch);
      assert h'.removed[..|h1.removed|] == h1.removed;
      forall i | 0 <= i < |h.queue| ensures h'.removed[|h.removed| + i] == Removed(h.queue[i], dispatch) {
        if i == 0 {
          assert h'.removed[..|h1.removed|][|h.removed|] == h1.removed[|h.removed|];
        } else {
          assert h.queue[i] == h1.queue[i - 1];
        }
      }
      assert h'.removed[..|h.removed|] == h'.removed[..|h1.removed|][..|h.removed|];
    }
  }

  function Ops(rs: seq<Removed>): (ops: seq<Op>)
    ensures |ops| == |rs|
  {
    seq(|rs|, i requires 0 <= i < |rs| => rs[i].op)
  }

  predicate Fifo(h: History) {
    Bounded(h.queue) && h.accepted == Ops(h.removed) + h.queue
  }

  lemma StepKeepsFifo(h: History, a: Action)
    requires Fifo(h)
    ensures Fifo(Step(h, a))
  {
    var h' := Step(h, a);
    match a
    case Enqueue(op) =>
      TotalBytesAppend(h.queue, op);
    case Pop(dispatch) =>
      if h.queue != [] {
        assert Ops(h'.removed) == Ops(h.removed) + [h.queue[0]];
        assert h.queue == [h.queue[0]] + h.queue[1..];
      }
  }

  /** For any interleaving of enqueues, pops and clears, what came out is, in order, what
      was accepted, up to what is still queued, and the limits hold throughout. */
  lemma {:induction false} FifoOverRuns(h: History, actions: seq<Action>)
    requires Fifo(h)
    ensures Fifo(Run(h, actions))
    decreases |actions|
  {
    if actions != [] {
      StepKeepsFifo(h, actions[0]);
      FifoOverRuns(Step(h, actions[0]), actions[1..]);
    }
  }

  /** Popping to the end always empties the queue: nothing accepted is ever stuck. */
  lemma {:induction false} PopsDrain(h: History, dispatch: bool)
    requires Fifo(h)
    ensures var h' := Run(h, seq(|h.queue|, _ => Pop(dispatch)));
            h'.queue == [] && Ops(h'.removed) == h.accepted == h'.accepted
    decreases |h.queue|
  {
    if h.queue != [] {
      var h' := Step(h, Pop(dispatch));
      StepKeepsFifo(h, Pop(dispatch));
      PopsDrain(h', dispatch);
      assert seq(|h.queue|, _ => Pop(dispatch))[1..] == seq(|h'.queue|, _ => Pop(dispatch));
    }
  }
}
