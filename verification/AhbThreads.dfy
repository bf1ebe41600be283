/**
 The registry between its threads: the receiver of ahb_registry_receiver.c works through a
 client's messages while other threads look buffers up and release them. The mutex of
 ahb_registry.c makes each operation one action; a handle that has arrived is held by the
 receiver from before it is registered until after, so others may act in between.
 */
module AhbThreads {
  import opened Common
  import opened AhbRegistry
  import opened AhbReceiver

  /** The reference that came with a handle, before and after it is put in the registry. */
  datatype Hand = Empty | Holding(e: Entry, put: bool)

  /** The messages are those still to come, and those that have had their effect. */
  datatype State = State(refs: Counts, entries: seq<Entry>, lookups: Counts, others: Counts,
                         hand: Hand, todo: seq<Message>, done: seq<Message>)

  /** Take, PutIn and LetGo are the receiver's: it reads a message, registers the buffer it
      holds, releases it. Look and EndLook are anybody's. */
  datatype Action = Take | PutIn | LetGo | Look(inode: Inode) | EndLook(ahb: Ahb)

  function Start(others: Counts, msgs: seq<Message>): State {
    State(others, [], map[], others, Empty, msgs, [])
  }

  predicate Allowed(s: State, a: Action) {
    match a
    case Take => s.hand.Empty? && s.todo != []
    case PutIn => s.hand.Holding? && !s.hand.put
    case LetGo => s.hand.Holding? && s.hand.put
    case Look(_) => true
    case EndLook(ahb) => Count(s.lookups, ahb) > 0
  }

  function Found(es: seq<Entry>, inode: Inode): Option<Ahb> {
    var i := Slot(es, inode);
    if i < |es| then Some(es[i].ahb) else None
  }

  function Taking(s: State): State
    requires Allowed(s, Take)
  {
    var m, s' := s.todo[0], s.(todo := s.todo[1..]);
    match m
    case Register(inode, ahb) => s'.(refs := Inc(s.refs, ahb), hand := Holding(Entry(inode, ahb), false))
    case FailedRegister(_) => s'.(done := s.done + [m])
    case Unregister(inode) =>
      s'.(refs := CutRefs(s.refs, s.entries, inode), entries := Cut(s.entries, inode), done := s.done + [m])
  }

  function Step(s: State, a: Action): State
    requires Allowed(s, a)
  {
    match a
    case Take => Taking(s)
    case PutIn =>
      var e := s.hand.e;
      s.(refs := PutRefs(s.refs, s.entries, e), entries := Put(s.entries, e), hand := Holding(e, true),
         done := s.done + [Register(e.inode, e.ahb)])
    case LetGo => s.(refs := Dec(s.refs, s.hand.e.ahb), hand := Empty)
    case Look(inode) =>
      var found := Found(s.entries, inode);
      s.(refs := Taken(s.refs, found), lookups := Taken(s.lookups, found))
    case EndLook(ahb) => s.(refs := Dec(s.refs, ahb), lookups := Dec(s.lookups, ahb))
  }

  predicate Schedule(s: State, actions: seq<Action>)
    decreases |actions|
  {
    actions == [] || (Allowed(s, actions[0]) && Schedule(Step(s, actions[0]), actions[1..]))
  }

  function Run(s: State, actions: seq<Action>): State
    requires Schedule(s, actions)
    decreases |actions|
  {
    if actions == [] then s else Run(Step(s, actions[0]), actions[1..])
  }

  // ---------------------------------------------------------------------
  // What every action keeps
  // ---------------------------------------------------------------------

  function Owners(s: State): Counts {
    if s.hand.Holding? then Inc(s.others, s.hand.e.ahb) else s.others
  }

  /** Every reference is accounted for, and the entries are what the messages so far say. */
  ghost predicate Inv(s: State) {
    && Distinct(s.entries) && |s.entries| <= AHB_REGISTRY_MAX
    && Conserved(s.refs, s.entries, s.lookups, Owners(s))
    && AsMap(s.entries) == ApplyAll(map[], s.done)
  }

  /** A buffer is acquired or released only while it has references: also the new buffer of
      an entry, which is acquired after the old one is released. */
  predicate OnlyLive(s: State, a: Action)
    requires Allowed(s, a)
  {
    match a
    case Take =>
      s.todo[0].Unregister? ==>
        var found := Found(s.entries, s.todo[0].inode); found.Some? ==> Count(s.refs, found.value) > 0
    case PutIn =>
      var e, found := s.hand.e, Found(s.entries, s.hand.e.inode);
      && Count(s.refs, e.ahb) > 0
      && (found.Some? ==> Count(s.refs, found.value) > 0 && Count(Dec(s.refs, found.value), e.ahb) > 0)
    case LetGo => Count(s.refs, s.hand.e.ahb) > 0
    case Look(inode) =>
      var found := Found(s.entries, inode); found.Some? ==> Count(s.refs, found.value) > 0
    case EndLook(ahb) => Count(s.refs, ahb) > 0
  }

  lemma FoundIsNamed(es: seq<Entry>, inode: Inode)
    requires Found(es, inode).Some?
    ensures Naming(es, Found(es, inode).value) >= 1
  {
    NamedAtLeastOnce(es, Slot(es, inode));
  }

  lemma StepOnlyLive(s: State, a: Action)
    requires Inv(s) && Allowed(s, a)
    ensures OnlyLive(s, a)
  {
    match a
    case Take =>
      if s.todo[0].Unregister? && Found(s.entries, s.todo[0].inode).Some? {
        FoundIsNamed(s.entries, s.todo[0].inode);
      }
    case PutIn =>
      if Found(s.entries, s.hand.e.inode).Some? {
        ReplaceConserves(s.refs, s.entries, s.lookups, Owners(s), Slot(s.entries, s.hand.e.inode), s.hand.e);
      }
    case LetGo =>
    case Look(inode) =>
      if Found(s.entries, inode).Some? {
        FoundIsNamed(s.entries, inode);
      }
    case EndLook(_) =>
  }

  lemma PutConserves(refs: Counts, es: seq<Entry>, lookups: Counts, owners: Counts, e: Entry)
    requires Conserved(refs, es, lookups, owners) && Count(owners, e.ahb) > 0
    ensures Conserved(PutRefs(refs, es, e), Put(es, e), lookups, owners)
  {
    if Slot(es, e.inode) < |es| {
      ReplaceConserves(refs, es, lookups, owners, Slot(es, e.inode), e);
    } else {
      AppendConserves(refs, es, lookups, owners, e);
    }
  }

  lemma CutConserves(refs: Counts, es: seq<Entry>, lookups: Counts, owners: Counts, inode: Inode)
    requires Conserved(refs, es, lookups, owners)
    ensures Conserved(CutRefs(refs, es, inode), Cut(es, inode), lookups, owners)
  {
    if Slot(es, inode) < |es| {
      RemoveConserves(refs, es, lookups, owners, Slot(es, inode));
    }
  }

  lemma StepConserves(s: State, a: Action)
    requires Inv(s) && Allowed(s, a)
    ensures var s' := Step(s, a); Conserved(s'.refs, s'.entries, s'.lookups, Owners(s'))
  {
    StepOnlyLive(s, a);
    match a
    case Take =>
      if s.todo[0].Unregister? {
        CutConserves(s.refs, s.entries, s.lookups, s.others, s.todo[0].inode);
      }
    case PutIn => PutConserves(s.refs, s.entries, s.lookups, Owners(s), s.hand.e);
    case LetGo =>
    case Look(_) =>
    case EndLook(_) =>
  }

  lemma StepKeepsMap(s: State, a: Action)
    requires Inv(s) && Allowed(s, a)
    ensures var s' := Step(s, a);
            && Distinct(s'.entries) && |s'.entries| <= AHB_REGISTRY_MAX
            && AsMap(s'.entries) == ApplyAll(map[], s'.done)
  {
    if a.PutIn? {
      var e := s.hand.e;
      PutIsRegistered(s.entries, e);
      ApplyOneMore(s.done, Register(e.inode, e.ahb));
    } else if a.Take? && !s.todo[0].Register? {
      var m := s.todo[0];
      ApplyOneMore(s.done, m);
      if m.Unregister? {
        CutIsUnregistered(s.entries, m.inode);
      }
    }
  }

  lemma ApplyOneMore(msgs: seq<Message>, m: Message)
    ensures ApplyAll(map[], msgs + [m]) == Apply(ApplyAll(map[], msgs), m)
  {
    var all := msgs + [m];
    ApplySnoc(map[], all, |msgs|);
    assert all[..|msgs|] == msgs && all[..|msgs| + 1] == all;
  }

  // ---------------------------------------------------------------------
  // Over every schedule
  // ---------------------------------------------------------------------

  /** No action of the schedule touches a buffer that has been freed. */
  predicate AllLive(s: State, actions: seq<Action>)
    requires Schedule(s, actions)
    decreases |actions|
  {
    actions == [] || (OnlyLive(s, actions[0]) && AllLive(Step(s, actions[0]), actions[1..]))
  }

  /** However the threads interleave, references are conserved, nothing freed is touched and
      the registry is the fold of the messages that have had their effect. */
  lemma {:induction false} RunConserves(s: State, actions: seq<Action>)
    requires Inv(s) && Schedule(s, actions)
    ensures Inv(Run(s, actions)) && AllLive(s, actions)
    decreases |actions|
  {
    if actions != [] {
      StepOnlyLive(s, actions[0]);
      StepConserves(s, actions[0]);
      StepKeepsMap(s, actions[0]);
      RunConserves(Step(s, actions[0]), actions[1..]);
    }
  }

  /** The message whose buffer the receiver has in its hand and not in the registry. */
  function Held(s: State): seq<Message> {
    if s.hand.Holding? && !s.hand.put then [Register(s.hand.e.inode, s.hand.e.ahb)] else []
  }

  lemma StepKeepsMessages(s: State, a: Action)
    requires Allowed(s, a)
    ensures var s' := Step(s, a); s'.done + Held(s') + s'.todo == s.done + Held(s) + s.todo
  {
    if a.Take? {
      assert s.todo == [s.todo[0]] + s.todo[1..];
    }
  }

  lemma {:induction false} RunKeepsMessages(s: State, actions: seq<Action>)
    requires Schedule(s, actions)
    ensures var s' := Run(s, actions); s'.done + Held(s') + s'.todo == s.done + Held(s) + s.todo
    decreases |actions|
  {
    if actions != [] {
      StepKeepsMessages(s, actions[0]);
      RunKeepsMessages(Step(s, actions[0]), actions[1..]);
    }
  }

  /** Once the receiver has got through a client's messages the registry is what they say,
      in their order, whatever was looked up in between; and the references are those of
      the entries, of lookups not yet ended and of others. */
  lemma AllMessagesFolded(others: Counts, msgs: seq<Message>, actions: seq<Action>)
    requires Schedule(Start(others, msgs), actions)
    requires var s := Run(Start(others, msgs), actions); s.todo == [] && s.hand.Empty?
    ensures var s := Run(Start(others, msgs), actions);
            && AsMap(s.entries) == ApplyAll(map[], msgs)
            && Conserved(s.refs, s.entries, s.lookups, s.others)
  {
    var s0 := Start(others, msgs);
    assert Conserved(s0.refs, s0.entries, s0.lookups, Owners(s0));
    RunConserves(s0, actions);
    RunKeepsMessages(s0, actions);
    var s := Run(s0, actions);
    assert s.done + Held(s) + s.todo == s.done && s0.done + Held(s0) + s0.todo == msgs;
  }

  lemma {:induction false} LookupsNotFewer(s: State, actions: seq<Action>, ahb: Ahb)
    requires Schedule(s, actions) && EndLook(ahb) !in actions
    ensures Count(Run(s, actions).lookups, ahb) >= Count(s.lookups, ahb)
    decreases |actions|
  {
    if actions != [] {
      LookupsNotFewer(Step(s, actions[0]), actions[1..], ahb);
    }
  }

  /** A buffer that a lookup found is there until its caller ends the lookup, even if the
      receiver unregisters or replaces it meanwhile. */
  lemma LookedUpStaysAlive(s: State, inode: Inode, actions: seq<Action>)
    requires Inv(s) && inode in ApplyAll(map[], s.done)
    requires Schedule(Step(s, Look(inode)), actions)
    requires EndLook(ApplyAll(map[], s.done)[inode]) !in actions
    ensures Found(s.entries, inode) == Some(ApplyAll(map[], s.done)[inode])
    ensures Count(Run(Step(s, Look(inode)), actions).refs, ApplyAll(map[], s.done)[inode]) > 0
  {
    var s1 := Step(s, Look(inode));
    SlotInMap(s.entries, inode);
    MapAt(s.entries, Slot(s.entries, inode));
    StepConserves(s, Look(inode));
    StepKeepsMap(s, Look(inode));
    RunConserves(s1, actions);
    LookupsNotFewer(s1, actions, ApplyAll(map[], s.done)[inode]);
  }
}
