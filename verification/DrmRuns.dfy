/** What every ioctl of module DrmShim keeps, and what follows for whole runs. */
module DrmRuns {
  import opened Common
  import opened LittleEndian
  import opened InodeCache
  import opened VtestWire
  import opened BoTable
  import opened DrmShim

  // ---------------------------------------------------------------------
  // The invariant, part by part
  // ---------------------------------------------------------------------

  /** A BO put under the next handle. */
  function Added(t: Table, bo: Bo): Table {
    Set(Allocated(t), bo)
  }

  lemma AddedIs(t: Table, bo: Bo)
    requires bo.handle == t.next
    ensures Added(t, bo) == Table(t.next + 1, t.live[t.next := bo])
  {
    assert Added(t, bo).live == t.live[t.next := bo];
  }

  lemma AddedKeepsUnshared(t: Table, bo: Bo)
    requires TableInv(t) && Unshared(t) && bo.handle == t.next
    requires bo.backing.Some? ==> !Known(t, bo.backing.value.key)
    ensures Unshared(Added(t, bo))
  {
    AddedIs(t, bo);
    forall h | h in t.live && bo.backing.Some? ensures !Backs(t.live[h], bo.backing.value.key) {
      assert !Known(t, bo.backing.value.key);
    }
    forall g | g in t.live && t.live[g].backing.Some? ensures !Backs(bo, t.live[g].backing.value.key) {
      if bo.backing.Some? {
        assert !Backs(t.live[g], bo.backing.value.key);
      }
    }
  }

  lemma FreshIsUnknown(s: State, key: Key)
    requires FilesOk(s) && key !in s.files
    ensures !Known(s.table, key)
  {
    forall h | h in s.table.live ensures !Backs(s.table.live[h], key) {
      assert BackingSeen(s, s.table.live[h]);
    }
  }

  lemma CreateKeepsTable(s: State, args: CreateArgs, a: Answer)
    requires Inv(s) && Allowed(s, Create(args, a))
    ensures TableInv(DoCreate(s, args, a).table) && Unshared(DoCreate(s, args, a).table)
  {
    var bo := Created(args, a, s.table.next, CreatedRes(s, a));
    if args.size > 0 {
      FreshIsUnknown(s, a.file.key);
    }
    AddedIs(s.table, bo);
    AddedKeepsUnshared(s.table, bo);
  }

  lemma ImportKeepsTable(s: State, fd: Option<File>, size: nat)
    requires Inv(s) && Allowed(s, FdToHandle(fd, size))
    ensures TableInv(DoImport(s, fd, size).table) && Unshared(DoImport(s, fd, size).table)
  {
    if !(fd.Some? && Known(s.table, fd.value.key)) {
      AddedIs(s.table, Imported(s, fd, size));
      AddedKeepsUnshared(s.table, Imported(s, fd, size));
    }
  }

  lemma StepKeepsTable(s: State, op: Ioctl)
    requires Inv(s) && Allowed(s, op)
    ensures TableInv(Step(s, op).table) && Unshared(Step(s, op).table)
  {
    match op
    case Create(args, a) => CreateKeepsTable(s, args, a);
    case FdToHandle(fd, size) => ImportKeepsTable(s, fd, size);
    case _ =>
  }

  lemma CreateKeepsFiles(s: State, args: CreateArgs, a: Answer)
    requires Inv(s) && Allowed(s, Create(args, a))
    ensures FilesOk(DoCreate(s, args, a))
  {
    var s' := DoCreate(s, args, a);
    var bo := Created(args, a, s.table.next, CreatedRes(s, a));
    AddedIs(s.table, bo);
    forall h | h in s'.table.live ensures BackingSeen(s', s'.table.live[h]) {
      if h in s.table.live && h != s.table.next {
        assert BackingSeen(s, s.table.live[h]);
      }
    }
    forall i | 0 <= i < |s'.stores| ensures RecordSeen(s', s'.stores[i]) {
      if i < |s.stores| {
        assert s'.stores[i] == s.stores[i] && RecordSeen(s, s.stores[i]);
      }
    }
  }

  lemma ImportKeepsFiles(s: State, fd: Option<File>, size: nat)
    requires Inv(s) && Allowed(s, FdToHandle(fd, size))
    ensures FilesOk(DoImport(s, fd, size))
  {
    var s' := DoImport(s, fd, size);
    AddedIs(s.table, Imported(s, fd, size));
    forall h | h in s'.table.live ensures BackingSeen(s', s'.table.live[h]) {
      if h in s.table.live && h != s.table.next {
        assert BackingSeen(s, s.table.live[h]);
      }
    }
    forall i | 0 <= i < |s'.stores| ensures RecordSeen(s', s'.stores[i]) {
      assert RecordSeen(s, s.stores[i]);
    }
  }

  lemma ExportKeepsFiles(s: State, h: nat, placeholder: File, a: Answer)
    requires Inv(s) && Allowed(s, HandleToFd(h, placeholder, a))
    ensures FilesOk(Step(s, HandleToFd(h, placeholder, a)))
  {
    var s' := Step(s, HandleToFd(h, placeholder, a));
    forall g | g in s.table.live ensures BackingSeen(s', s.table.live[g]) {
      assert BackingSeen(s, s.table.live[g]);
    }
    forall i | 0 <= i < |s.stores| ensures RecordSeen(s', s.stores[i]) {
      assert RecordSeen(s, s.stores[i]);
    }
  }

  lemma MapKeepsFiles(s: State, h: nat)
    requires Inv(s) && h in s.table.live
    ensures FilesOk(s.(table := Set(s.table, WithOffset(s.table.live[h]))))
  {
    assert BackingSeen(s, s.table.live[h]);
  }

  lemma SameFiles(s: State, s': State)
    requires FilesOk(s) && s'.files == s.files && s'.stores == s.stores
    requires forall h :: h in s'.table.live ==> h in s.table.live && s'.table.live[h] == s.table.live[h]
    ensures FilesOk(s')
  {
    forall h | h in s'.table.live ensures BackingSeen(s', s'.table.live[h]) {
      assert BackingSeen(s, s.table.live[h]);
    }
    forall i | 0 <= i < |s'.stores| ensures RecordSeen(s', s'.stores[i]) {
      assert RecordSeen(s, s.stores[i]);
    }
  }

  lemma StepKeepsFiles(s: State, op: Ioctl)
    requires Inv(s) && Allowed(s, op)
    ensures FilesOk(Step(s, op))
  {
    match op
    case Create(args, a) => CreateKeepsFiles(s, args, a);
    case FdToHandle(fd, size) => ImportKeepsFiles(s, fd, size);
    case MapBo(h) =>
      if h in s.table.live {
        MapKeepsFiles(s, h);
      }
    case HandleToFd(h, placeholder, a) => ExportKeepsFiles(s, h, placeholder, a);
    case _ => SameFiles(s, Step(s, op));
  }

  /** What the cache recalls was stored. */
  lemma {:induction false} LatestWasStored(stores: seq<Entry>, k: Key) returns (i: nat)
    requires Latest(stores, k).Some?
    ensures i < |stores| && stores[i] == Entry(k, Latest(stores, k).value)
  {
    if stores[|stores| - 1].key == k {
      i := |stores| - 1;
    } else {
      i := LatestWasStored(stores[..|stores| - 1], k);
    }
  }

  lemma RecalledWasStored(s: State, k: Key) returns (i: nat)
    requires Recall(Cached(s.stores), k).Some?
    ensures i < |s.stores| && s.stores[i] == Entry(k, Recall(Cached(s.stores), k).value)
  {
    CacheTellsLatest(s.stores, k);
    i := LatestWasStored(s.stores, k);
  }

  /** A creation for a new file leaves what is recalled of the others, or has it forgotten. */
  lemma CreateRecalls(s: State, args: CreateArgs, a: Answer, k: Key)
    requires Inv(s) && Allowed(s, Create(args, a)) && k in s.files
    ensures var r := Recall(Cached(DoCreate(s, args, a).stores), k); r.None? || r == Recall(Cached(s.stores), k)
  {
    if args.size > 0 && CreatedRes(s, a) != 0 {
      var e := Entry(a.file.key, RecordOf(Created(args, a, s.table.next, CreatedRes(s, a))));
      CachedAfter(s.stores, e);
      StoredRecalls(Cached(s.stores), e, k);
    }
  }

  lemma {:induction false} NeverStored(stores: seq<Entry>, k: Key)
    requires forall i :: 0 <= i < |stores| ==> stores[i].key != k
    ensures Latest(stores, k) == None
  {
    if stores != [] {
      NeverStored(stores[..|stores| - 1], k);
    }
  }

  lemma FreshIsForgotten(s: State, k: Key)
    requires FilesOk(s) && k !in s.files
    ensures Recall(Cached(s.stores), k) == None
  {
    forall i | 0 <= i < |s.stores| ensures s.stores[i].key != k {
      assert RecordSeen(s, s.stores[i]);
    }
    NeverStored(s.stores, k);
    CacheTellsLatest(s.stores, k);
  }

  lemma CreatedIsRemembered(s: State, args: CreateArgs, a: Answer)
    requires Inv(s) && Allowed(s, Create(args, a))
    ensures Remembered(DoCreate(s, args, a), Created(args, a, s.table.next, CreatedRes(s, a)))
  {
    if args.size > 0 {
      var e := Entry(a.file.key, RecordOf(Created(args, a, s.table.next, CreatedRes(s, a))));
      if CreatedRes(s, a) != 0 {
        CachedAfter(s.stores, e);
        StoredRecalls(Cached(s.stores), e, e.key);
      } else {
        FreshIsForgotten(s, e.key);
      }
    }
  }

  lemma CreateRemembers(s: State, args: CreateArgs, a: Answer)
    requires Inv(s) && Allowed(s, Create(args, a))
    ensures AllRemembered(DoCreate(s, args, a))
  {
    var s', bo := DoCreate(s, args, a), Created(args, a, s.table.next, CreatedRes(s, a));
    AddedIs(s.table, bo);
    forall h | h in s'.table.live ensures Remembered(s', s'.table.live[h]) {
      if h == s.table.next {
        CreatedIsRemembered(s, args, a);
      } else if s.table.live[h].backing.Some? {
        assert BackingSeen(s, s.table.live[h]) && Remembered(s, s.table.live[h]);
        CreateRecalls(s, args, a, s.table.live[h].backing.value.key);
      }
    }
  }

  lemma ImportRemembers(s: State, fd: Option<File>, size: nat)
    requires Inv(s) && Allowed(s, FdToHandle(fd, size))
    ensures AllRemembered(DoImport(s, fd, size))
  {
    var s' := DoImport(s, fd, size);
    AddedIs(s.table, Imported(s, fd, size));
    forall h | h in s'.table.live ensures Remembered(s', s'.table.live[h]) {
      if h in s.table.live && h != s.table.next {
        assert Remembered(s, s.table.live[h]);
      }
    }
  }

  lemma SameRemembered(s: State, s': State)
    requires AllRemembered(s) && s'.stores == s.stores
    requires forall h :: h in s'.table.live ==>
               h in s.table.live && s'.table.live[h].backing == s.table.live[h].backing
               && RecordOf(s'.table.live[h]) == RecordOf(s.table.live[h])
    ensures AllRemembered(s')
  {
    forall h | h in s'.table.live ensures Remembered(s', s'.table.live[h]) {
      assert Remembered(s, s.table.live[h]);
    }
  }

  lemma StepRemembers(s: State, op: Ioctl)
    requires Inv(s) && Allowed(s, op)
    ensures AllRemembered(Step(s, op))
  {
    match op
    case Create(args, a) => CreateRemembers(s, args, a);
    case FdToHandle(fd, size) => ImportRemembers(s, fd, size);
    case _ => SameRemembered(s, Step(s, op));
  }

  lemma RecalledIsMarked(s: State, k: Key)
    requires AhbOk(s) && Recall(Cached(s.stores), k).Some?
    ensures var r := Recall(Cached(s.stores), k).value; Marked(s, r.res, r.isAhb)
  {
    var i := RecalledWasStored(s, k);
  }

  lemma CreateKeepsAhb(s: State, args: CreateArgs, a: Answer)
    requires Inv(s) && Allowed(s, Create(args, a))
    ensures AhbOk(DoCreate(s, args, a))
  {
    var s' := DoCreate(s, args, a);
    var res := CreatedRes(s, a);
    var bo := Created(args, a, s.table.next, res);
    AddedIs(s.table, bo);
    forall h | h in s'.table.live ensures Marked(s', s'.table.live[h].res, s'.table.live[h].isAhb) {
      if h in s.table.live && h != s.table.next {
        CreateKeepsMark(s, args, a, s.table.live[h].res, s.table.live[h].isAhb);
      }
    }
    forall i | 0 <= i < |s'.stores| ensures Marked(s', s'.stores[i].record.res, s'.stores[i].record.isAhb) {
      if i < |s.stores| {
        assert s'.stores[i] == s.stores[i];
        CreateKeepsMark(s, args, a, s.stores[i].record.res, s.stores[i].record.isAhb);
      }
    }
  }

  lemma CreateKeepsMark(s: State, args: CreateArgs, a: Answer, res: Word, isAhb: bool)
    requires AhbOk(s) && Allowed(s, Create(args, a)) && Marked(s, res, isAhb)
    ensures Marked(DoCreate(s, args, a), res, isAhb)
  {
    assert forall c :: c in s.cmds ==> c in DoCreate(s, args, a).cmds;
    assert CreatedRes(s, a) !in s.resources;
  }

  lemma ImportKeepsAhb(s: State, fd: Option<File>, size: nat)
    requires Inv(s) && Allowed(s, FdToHandle(fd, size))
    ensures AhbOk(DoImport(s, fd, size))
  {
    var s', bo := DoImport(s, fd, size), Imported(s, fd, size);
    AddedIs(s.table, bo);
    if fd.Some? && Recall(Cached(s.stores), fd.value.key).Some? {
      RecalledIsMarked(s, fd.value.key);
    }
    assert Marked(s, bo.res, bo.isAhb);
    forall h | h in s'.table.live ensures Marked(s', s'.table.live[h].res, s'.table.live[h].isAhb) {
      if h in s.table.live && h != s.table.next {
        assert Marked(s, s.table.live[h].res, s.table.live[h].isAhb);
      }
    }
  }

  lemma CloseKeepsAhb(s: State, h: nat)
    requires AhbOk(s)
    ensures AhbOk(DoClose(s, h))
  {
    if h in s.table.live {
      var s' := DoClose(s, h);
      forall res: Word, isAhb | Marked(s, res, isAhb) ensures Marked(s', res, isAhb) {
        CloseKeepsMark(s, h, res, isAhb);
      }
    }
  }

  lemma CloseKeepsMark(s: State, h: nat, res: Word, isAhb: bool)
    requires h in s.table.live && Marked(s, res, isAhb)
    ensures Marked(DoClose(s, h), res, isAhb)
  {
    var bo, s' := s.table.live[h], DoClose(s, h);
    assert forall c :: c in s.cmds ==> c in s'.cmds;
    if bo.res != 0 && !bo.isAhb {
      assert s'.cmds[|s.cmds|] == Unref(bo.res);
    }
  }

  lemma MapKeepsAhb(s: State, h: nat)
    requires Inv(s) && h in s.table.live
    ensures AhbOk(s.(table := Set(s.table, WithOffset(s.table.live[h]))))
  {
    assert Marked(s, s.table.live[h].res, s.table.live[h].isAhb);
    var s' := s.(table := Set(s.table, WithOffset(s.table.live[h])));
    assert forall res: Word, isAhb :: Marked(s, res, isAhb) ==> Marked(s', res, isAhb);
  }

  lemma StepKeepsAhb(s: State, op: Ioctl)
    requires Inv(s) && Allowed(s, op)
    ensures AhbOk(Step(s, op))
  {
    match op
    case Create(args, a) => CreateKeepsAhb(s, args, a);
    case FdToHandle(fd, size) => ImportKeepsAhb(s, fd, size);
    case GemClose(h, _) => CloseKeepsAhb(s, h);
    case MapBo(h) =>
      if h in s.table.live {
        MapKeepsAhb(s, h);
      }
    case _ => SameAhb(s, Step(s, op));
  }

  lemma SameAhb(s: State, s': State)
    requires AhbOk(s) && s'.table == s.table && s'.stores == s.stores && s'.ahb == s.ahb && s'.resources == s.resources
    requires s'.version == s.version && s.cmds <= s'.cmds
    ensures AhbOk(s')
  {
    assert forall c :: c in s.cmds ==> c in s'.cmds;
    assert forall res: Word, isAhb :: Marked(s, res, isAhb) ==> Marked(s', res, isAhb);
  }

  lemma StepKeepsInv(s: State, op: Ioctl)
    requires Inv(s) && Allowed(s, op)
    ensures Inv(Step(s, op))
  {
    StepKeepsTable(s, op);
    StepKeepsFiles(s, op);
    StepRemembers(s, op);
    StepKeepsAhb(s, op);
  }

  predicate Schedule(s: State, ops: seq<Ioctl>)
    decreases |ops|
  {
    ops == [] || (Allowed(s, ops[0]) && Schedule(Step(s, ops[0]), ops[1..]))
  }

  function Run(s: State, ops: seq<Ioctl>): State
    requires Schedule(s, ops)
    decreases |ops|
  {
    if ops == [] then s else Run(Step(s, ops[0]), ops[1..])
  }

  lemma {:induction false} RunKeepsInv(s: State, ops: seq<Ioctl>)
    requires Inv(s) && Schedule(s, ops)
    ensures Inv(Run(s, ops))
    decreases |ops|
  {
    if ops != [] {
      StepKeepsInv(s, ops[0]);
      RunKeepsInv(Step(s, ops[0]), ops[1..]);
    }
  }

  predicate Reachable(s: State, version: Word, name: seq<byte>, ops: seq<Ioctl>) {
    Schedule(Connected(version, name), ops) && s == Run(Connected(version, name), ops)
  }

  lemma ReachableInv(s: State, version: Word, name: seq<byte>, ops: seq<Ioctl>)
    requires Reachable(s, version, name, ops)
    ensures Inv(s)
  {
    RunKeepsInv(Connected(version, name), ops);
  }

  lemma ConnectedHolds(version: Word, name: seq<byte>)
    ensures Inv(Connected(version, name)) && Held(Connected(version, name))
  {
  }

  // ---------------------------------------------------------------------
  // Handles and offsets
  // ---------------------------------------------------------------------

  /** What an ioctl does to one handle: a dead one stays dead, and a live one keeps its file,
      its resource and its offset until it is closed. */
  predicate SameWhileLive(t: Table, t': Table, h: nat) {
    && t.next <= t'.next && (h < t.next && h !in t.live ==> h !in t'.live)
    && (h in t.live && h in t'.live ==>
          && t'.live[h].backing == t.live[h].backing && RecordOf(t'.live[h]) == RecordOf(t.live[h])
          && (t.live[h].mapped ==> t'.live[h].mapped))
  }

  lemma StepKeepsHandle(s: State, op: Ioctl, h: nat)
    requires Inv(s) && Allowed(s, op)
    ensures SameWhileLive(s.table, Step(s, op).table, h)
  {
    match op
    case Create(args, a) => AddedIs(s.table, Created(args, a, s.table.next, CreatedRes(s, a)));
    case FdToHandle(fd, size) => AddedIs(s.table, Imported(s, fd, size));
    case _ =>
  }

  lemma {:induction false} RunKeepsHandle(s: State, ops: seq<Ioctl>, h: nat)
    requires Inv(s) && Schedule(s, ops) && h < s.table.next
    ensures SameWhileLive(s.table, Run(s, ops).table, h)
    decreases |ops|
  {
    if ops != [] {
      StepKeepsHandle(s, ops[0], h);
      StepKeepsInv(s, ops[0]);
      RunKeepsHandle(Step(s, ops[0]), ops[1..], h);
    }
  }

  /** A closed handle is never given out again. */
  lemma HandlesNeverReused(s: State, h: nat, a: Answer, ops: seq<Ioctl>)
    requires Inv(s) && h in s.table.live && Schedule(Step(s, GemClose(h, a)), ops)
    ensures h !in Run(Step(s, GemClose(h, a)), ops).table.live
  {
    StepKeepsInv(s, GemClose(h, a));
    RunKeepsHandle(Step(s, GemClose(h, a)), ops, h);
  }

  /** The offset that shim_map gives for a BO leads back to that BO as long as it lives, and
      to no BO ever after. */
  lemma OffsetsNeverAlias(s: State, h: nat, ops: seq<Ioctl>, g: nat)
    requires Inv(s) && h in s.table.live && Schedule(Step(s, MapBo(h)), ops)
    ensures var t := Run(Step(s, MapBo(h)), ops).table;
            && Result(s, MapBo(h)) == Offset(OffsetOf(h))
            && (AtOffset(t, OffsetOf(h), g) <==> g == h && h in t.live)
  {
    var s1 := Step(s, MapBo(h));
    var t := Run(s1, ops).table;
    StepKeepsInv(s, MapBo(h));
    RunKeepsInv(s1, ops);
    RunKeepsHandle(s1, ops, h);
    assert g in t.live ==> BoOk(t.live[g], g);
    assert h in t.live ==> BoOk(t.live[h], h);
  }

  // ---------------------------------------------------------------------
  // PRIME
  // ---------------------------------------------------------------------

  lemma OnlyOneBacked(t: Table, g: nat, h: nat, key: Key)
    requires Unshared(t) && g in t.live && h in t.live && Backs(t.live[g], key) && Backs(t.live[h], key)
    ensures g == h
  {
    assert t.live[g].backing.value.key == key;
  }

  /** A file with a live BO is imported as that BO. */
  lemma ImportFinds(s: State, h: nat, file: File, size: nat)
    requires Inv(s) && h in s.table.live && Backs(s.table.live[h], file.key) && Allowed(s, FdToHandle(Some(file), size))
    ensures Result(s, FdToHandle(Some(file), size)) == Handle(h)
    ensures Step(s, FdToHandle(Some(file), size)).table == s.table
  {
    assert Known(s.table, file.key);
    OnlyOneBacked(s.table, FindBacked(s.table, file.key), h, file.key);
  }

  /** Importing two descriptors of one buffer gives one handle, however much happens in
      between, as long as the handle is not closed. */
  lemma SameBufferSameHandle(s: State, file: File, size: nat, ops: seq<Ioctl>, size': nat)
    requires Inv(s) && Allowed(s, FdToHandle(Some(file), size)) && Schedule(Step(s, FdToHandle(Some(file), size)), ops)
    requires var s2 := Run(Step(s, FdToHandle(Some(file), size)), ops);
             && Allowed(s2, FdToHandle(Some(file), size'))
             && Result(s, FdToHandle(Some(file), size)).handle in s2.table.live
    ensures var s2 := Run(Step(s, FdToHandle(Some(file), size)), ops);
            Result(s2, FdToHandle(Some(file), size')) == Result(s, FdToHandle(Some(file), size))
  {
    var s1 := Step(s, FdToHandle(Some(file), size));
    var h := Result(s, FdToHandle(Some(file), size)).handle;
    ImportedBacks(s, file, size);
    StepKeepsInv(s, FdToHandle(Some(file), size));
    RunKeepsInv(s1, ops);
    RunKeepsHandle(s1, ops, h);
    ImportFinds(Run(s1, ops), h, file, size');
  }

  lemma ImportedBacks(s: State, file: File, size: nat)
    requires Inv(s) && Allowed(s, FdToHandle(Some(file), size))
    ensures var h, t := Result(s, FdToHandle(Some(file), size)).handle, Step(s, FdToHandle(Some(file), size)).table;
            h in t.live && h < t.next && Backs(t.live[h], file.key)
  {
    AddedIs(s.table, Imported(s, Some(file), size));
  }

  /** Exporting a BO and importing what comes out gives the BO back exactly if it has a
      file; the descriptor made for one without is imported as another BO. */
  lemma ExportImportIff(s: State, h: nat, placeholder: File, a: Answer, size: nat)
    requires Inv(s) && h in s.table.live && Allowed(s, HandleToFd(h, placeholder, a)) && s.table.next < U32
    ensures var file := Result(s, HandleToFd(h, placeholder, a)).file;
            var s1 := Step(s, HandleToFd(h, placeholder, a));
            && Allowed(s1, FdToHandle(Some(file), size))
            && (Result(s1, FdToHandle(Some(file), size)) == Handle(h) <==> s.table.live[h].backing.Some?)
  {
    var s1 := Step(s, HandleToFd(h, placeholder, a));
    StepKeepsInv(s, HandleToFd(h, placeholder, a));
    assert BackingSeen(s, s.table.live[h]);
    if s.table.live[h].backing.Some? {
      ImportFinds(s1, h, s.table.live[h].backing.value, size);
    } else {
      FreshIsUnknown(s, placeholder.key);
    }
  }

  // ---------------------------------------------------------------------
  // Hardware buffers
  // ---------------------------------------------------------------------

  /** The commands sent from s to s'. */
  function Later(s: State, s': State): seq<Command> {
    if |s.cmds| <= |s'.cmds| then s'.cmds[|s.cmds|..] else []
  }

  /** Closing a BO takes an outstanding resource that sits on a hardware buffer from the
      server exactly if the BO is not marked so, although its resource is one by now; and
      then the id had been given back before, and has come again. */
  lemma CloseGivesBackIff(s: State, h: nat, a: Answer)
    requires Inv(s) && h in s.table.live
    ensures var bo, s' := s.table.live[h], Step(s, GemClose(h, a));
            && (s'.ahb != s.ahb <==> !bo.isAhb && bo.res in s.ahb)
            && (s'.ahb != s.ahb ==> Later(s, s') == [Unref(bo.res)] && Unref(bo.res) in s.cmds)
  {
    assert Marked(s, s.table.live[h].res, s.table.live[h].isAhb);
  }

  /** No other ioctl does. */
  lemma OnlyCloseGivesBack(s: State, op: Ioctl)
    requires Allowed(s, op) && !op.GemClose?
    ensures s.ahb <= Step(s, op).ahb && s.cmds <= Step(s, op).cmds
    ensures forall r: Word :: Unref(r) !in Later(s, Step(s, op))
  {
  }

  // Runs without stale imports

  lemma CreateHolds(s: State, args: CreateArgs, a: Answer)
    requires Inv(s) && Held(s) && Allowed(s, Create(args, a))
    ensures Held(DoCreate(s, args, a))
  {
    var s' := DoCreate(s, args, a);
    var res := CreatedRes(s, a);
    AddedIs(s.table, Created(args, a, s.table.next, res));
    assert res !in s.resources;
    forall h | h in s'.table.live ensures Owned(s', s'.table.live[h]) {
      if h in s.table.live && h != s.table.next {
        assert Owned(s, s.table.live[h]);
      }
    }
    forall g, h | g in s'.table.live && h in s'.table.live && g != h && s'.table.live[g].res == s'.table.live[h].res != 0
      ensures s'.table.live[g].isAhb
    {
      assert g in s.table.live ==> Owned(s, s.table.live[g]);
      assert h in s.table.live ==> Owned(s, s.table.live[h]);
    }
    forall i | 0 <= i < |s'.stores| && s'.stores[i].record.isAhb ensures s'.stores[i].record.res in s'.ahb {
      if i < |s.stores| {
        assert s'.stores[i] == s.stores[i];
      }
    }
  }

  /** A resource restored by an import that is not stale is that of a hardware buffer. */
  lemma ImportedIsOwned(s: State, fd: Option<File>, size: nat)
    requires Inv(s) && Held(s) && Allowed(s, FdToHandle(fd, size)) && !Stale(s, FdToHandle(fd, size))
    requires !(fd.Some? && Known(s.table, fd.value.key))
    ensures var bo := Imported(s, fd, size); Owned(s, bo) && (bo.res != 0 ==> bo.isAhb)
  {
    if fd.Some? && Recall(Cached(s.stores), fd.value.key).Some? {
      var i := RecalledWasStored(s, fd.value.key);
      assert RecordSeen(s, s.stores[i]);
    }
  }

  lemma ImportHolds(s: State, fd: Option<File>, size: nat)
    requires Inv(s) && Held(s) && Allowed(s, FdToHandle(fd, size)) && !Stale(s, FdToHandle(fd, size))
    ensures Held(DoImport(s, fd, size))
  {
    var s', bo := DoImport(s, fd, size), Imported(s, fd, size);
    if !(fd.Some? && Known(s.table, fd.value.key)) {
      AddedIs(s.table, bo);
      ImportedIsOwned(s, fd, size);
      forall h | h in s'.table.live ensures Owned(s', s'.table.live[h]) {
        if h in s.table.live && h != s.table.next {
          assert Owned(s, s.table.live[h]);
        }
      }
      forall g, h | g in s'.table.live && h in s'.table.live && g != h && s'.table.live[g].res == s'.table.live[h].res != 0
        ensures s'.table.live[g].isAhb
      {
        if g in s.table.live && g != s.table.next && h == s.table.next {
          assert Owned(s, s.table.live[g]);
        }
      }
    }
  }

  lemma CloseHolds(s: State, h: nat)
    requires Held(s) && h in s.table.live
    ensures Held(DoClose(s, h))
  {
    var s', bo := DoClose(s, h), s.table.live[h];
    assert Owned(s, bo);
    forall g | g in s'.table.live ensures Owned(s', s'.table.live[g]) {
      assert Owned(s, s.table.live[g]);
      assert bo.res != 0 && !bo.isAhb ==> s.table.live[g].res != bo.res;
    }
  }

  lemma MapHolds(s: State, h: nat)
    requires TableInv(s.table) && Held(s) && h in s.table.live
    ensures Held(s.(table := Set(s.table, WithOffset(s.table.live[h]))))
  {
    var s' := s.(table := Set(s.table, WithOffset(s.table.live[h])));
    forall g | g in s'.table.live ensures Owned(s', s'.table.live[g]) {
      assert Owned(s, s.table.live[g]);
    }
  }

  lemma SameHeld(s: State, s': State)
    requires Held(s) && s'.table == s.table && s'.stores == s.stores && s'.ahb == s.ahb && s'.resources == s.resources
    ensures Held(s')
  {
    forall h | h in s'.table.live ensures Owned(s', s'.table.live[h]) {
      assert Owned(s, s.table.live[h]);
    }
  }

  lemma StepHolds(s: State, op: Ioctl)
    requires Inv(s) && Held(s) && Allowed(s, op) && !Stale(s, op)
    ensures Held(Step(s, op))
  {
    match op
    case Create(args, a) => CreateHolds(s, args, a);
    case FdToHandle(fd, size) => ImportHolds(s, fd, size);
    case GemClose(h, _) =>
      if h in s.table.live {
        CloseHolds(s, h);
      }
    case MapBo(h) =>
      if h in s.table.live {
        MapHolds(s, h);
      }
    case _ => SameHeld(s, Step(s, op));
  }

  /** No memfd file is imported from the cache after its BO has been closed. */
  predicate NoStale(s: State, ops: seq<Ioctl>)
    requires Schedule(s, ops)
    decreases |ops|
  {
    ops == [] || (!Stale(s, ops[0]) && NoStale(Step(s, ops[0]), ops[1..]))
  }

  /** In such a run a live BO always owns its resource. */
  lemma {:induction false} RunHolds(s: State, ops: seq<Ioctl>)
    requires Inv(s) && Held(s) && Schedule(s, ops) && NoStale(s, ops)
    ensures Held(Run(s, ops))
    decreases |ops|
  {
    if ops != [] {
      StepKeepsInv(s, ops[0]);
      StepHolds(s, ops[0]);
      RunHolds(Step(s, ops[0]), ops[1..]);
    }
  }

  /** Everyone who names r knows that it sits on a hardware buffer. */
  predicate Spared(s: State, r: Word) {
    r in s.ahb && forall h :: h in s.table.live && s.table.live[h].res == r ==> s.table.live[h].isAhb
  }

  lemma HeldSpares(s: State, r: Word)
    requires Held(s) && AhbOk(s) && r in s.ahb
    ensures Spared(s, r)
  {
    forall h | h in s.table.live && s.table.live[h].res == r ensures s.table.live[h].isAhb {
      assert Owned(s, s.table.live[h]);
    }
  }

  lemma StepSpares(s: State, op: Ioctl, r: Word)
    requires Allowed(s, op) && Spared(s, r)
    ensures r in Step(s, op).ahb && s.cmds <= Step(s, op).cmds && Unref(r) !in Later(s, Step(s, op))
  {
    if !op.GemClose? {
      OnlyCloseGivesBack(s, op);
    }
  }

  lemma LaterTwice(s: State, s1: State, s2: State, c: Command)
    requires s.cmds <= s1.cmds <= s2.cmds && c !in Later(s, s1) && c !in Later(s1, s2)
    ensures s.cmds <= s2.cmds && c !in Later(s, s2)
  {
    forall i | 0 <= i < |Later(s, s2)| ensures Later(s, s2)[i] != c {
      if i < |Later(s, s1)| {
        assert Later(s, s2)[i] == s2.cmds[|s.cmds| + i] == s1.cmds[|s.cmds| + i] == Later(s, s1)[i];
      } else {
        assert Later(s, s2)[i] == Later(s1, s2)[i - |Later(s, s1)|];
      }
    }
  }

  lemma {:induction false} NoStaleKeepsAhb(s: State, ops: seq<Ioctl>, r: Word)
    requires Inv(s) && Held(s) && Schedule(s, ops) && NoStale(s, ops) && r in s.ahb
    ensures r in Run(s, ops).ahb && s.cmds <= Run(s, ops).cmds && Unref(r) !in Later(s, Run(s, ops))
    decreases |ops|
  {
    if ops != [] {
      var s1 := Step(s, ops[0]);
      HeldSpares(s, r);
      StepSpares(s, ops[0], r);
      StepKeepsInv(s, ops[0]);
      StepHolds(s, ops[0]);
      NoStaleKeepsAhb(s1, ops[1..], r);
      LaterTwice(s, s1, Run(s1, ops[1..]), Unref(r));
    }
  }

  /** Over every run without stale imports, a resource created on a hardware buffer stays
      outstanding: no RESOURCE_UNREF after its creation names it. */
  lemma AhbNeverUnreferenced(s: State, args: CreateArgs, a: Answer, ops: seq<Ioctl>)
    requires Inv(s) && Held(s) && Allowed(s, Create(args, a)) && args.size > 0 && !a.file.memfd && CreatedRes(s, a) != 0
    requires Schedule(Step(s, Create(args, a)), ops) && NoStale(Step(s, Create(args, a)), ops)
    ensures var s1 := Step(s, Create(args, a));
            CreatedRes(s, a) in Run(s1, ops).ahb && Unref(CreatedRes(s, a)) !in Later(s1, Run(s1, ops))
  {
    StepKeepsInv(s, Create(args, a));
    CreateHolds(s, args, a);
    NoStaleKeepsAhb(Step(s, Create(args, a)), ops, CreatedRes(s, a));
  }

  lemma {:induction false} RunJoins(s: State, ops: seq<Ioctl>, more: seq<Ioctl>)
    requires Schedule(s, ops) && Schedule(Run(s, ops), more)
    ensures Schedule(s, ops + more) && Run(s, ops + more) == Run(Run(s, ops), more)
    decreases |ops|
  {
    if ops == [] {
      assert ops + more == more;
    } else {
      RunJoins(Step(s, ops[0]), ops[1..], more);
      assert (ops + more)[1..] == ops[1..] + more;
    }
  }

  /** From the handshake on: in a run without stale imports, a resource created on a hardware
      buffer at any point is never given back afterwards. */
  lemma AhbSafeFromHandshake(version: Word, name: seq<byte>, before: seq<Ioctl>, args: CreateArgs, a: Answer, ops: seq<Ioctl>)
    requires Schedule(Connected(version, name), before) && NoStale(Connected(version, name), before)
    requires var s := Run(Connected(version, name), before);
             && Allowed(s, Create(args, a)) && args.size > 0 && !a.file.memfd && CreatedRes(s, a) != 0
             && Schedule(Step(s, Create(args, a)), ops) && NoStale(Step(s, Create(args, a)), ops)
    ensures var s := Run(Connected(version, name), before); var s1 := Step(s, Create(args, a));
            && Schedule(Connected(version, name), before + ([Create(args, a)] + ops))
            && Run(Connected(version, name), before + ([Create(args, a)] + ops)) == Run(s1, ops)
            && CreatedRes(s, a) in Run(s1, ops).ahb && Unref(CreatedRes(s, a)) !in Later(s1, Run(s1, ops))
  {
    var c := Connected(version, name);
    var s := Run(c, before);
    ConnectedHolds(version, name);
    RunKeepsInv(c, before);
    RunHolds(c, before);
    AhbNeverUnreferenced(s, args, a, ops);
    assert ([Create(args, a)] + ops)[1..] == ops;
    RunJoins(c, before, [Create(args, a)] + ops);
  }

  // Arbitrary runs

  /** Someone who does not know that r sits on a hardware buffer may give it back: a live BO,
      or a record that an import can make one from. */
  ghost predicate Carried(s: State, r: Word) {
    || (exists h :: h in s.table.live && s.table.live[h].res == r && !s.table.live[h].isAhb)
    || (exists k: Key :: RecallsAs(s, k, r))
  }

  predicate RecallsAs(s: State, k: Key, r: Word) {
    var rec := Recall(Cached(s.stores), k);
    rec.Some? && rec.value.res == r && !rec.value.isAhb
  }

  /** Who has not been carrying r when it was created never comes to. */
  lemma CreateKeepsUncarried(s: State, args: CreateArgs, a: Answer, r: Word)
    requires Inv(s) && Allowed(s, Create(args, a)) && r in s.ahb && !Carried(s, r)
    ensures !Carried(DoCreate(s, args, a), r)
  {
    var s', bo := DoCreate(s, args, a), Created(args, a, s.table.next, CreatedRes(s, a));
    AddedIs(s.table, bo);
    assert bo.res != r;
    forall k ensures !RecallsAs(s', k, r) {
      assert !RecallsAs(s, k, r);
      if args.size > 0 && bo.res != 0 {
        CachedAfter(s.stores, Entry(a.file.key, RecordOf(bo)));
        StoredRecalls(Cached(s.stores), Entry(a.file.key, RecordOf(bo)), k);
      }
    }
  }

  lemma ImportKeepsUncarried(s: State, fd: Option<File>, size: nat, r: Word)
    requires Inv(s) && Allowed(s, FdToHandle(fd, size)) && r != 0 && !Carried(s, r)
    ensures !Carried(DoImport(s, fd, size), r)
  {
    var s' := DoImport(s, fd, size);
    AddedIs(s.table, Imported(s, fd, size));
    forall k ensures !RecallsAs(s', k, r) {
      assert !RecallsAs(s, k, r);
    }
    if fd.Some? {
      assert !RecallsAs(s, fd.value.key, r);
    }
  }

  lemma SameUncarried(s: State, s': State, r: Word)
    requires s'.stores == s.stores && !Carried(s, r)
    requires forall h :: h in s'.table.live ==> h in s.table.live && RecordOf(s'.table.live[h]) == RecordOf(s.table.live[h])
    ensures !Carried(s', r)
  {
    forall h | h in s'.table.live && s'.table.live[h].res == r ensures s'.table.live[h].isAhb {
      assert RecordOf(s'.table.live[h]) == RecordOf(s.table.live[h]);
    }
    forall k ensures !RecallsAs(s', k, r) {
      assert !RecallsAs(s, k, r);
    }
  }

  lemma StepKeepsUncarried(s: State, op: Ioctl, r: Word)
    requires Inv(s) && Allowed(s, op) && r in s.ahb && !Carried(s, r)
    ensures !Carried(Step(s, op), r)
  {
    match op
    case Create(args, a) => CreateKeepsUncarried(s, args, a, r);
    case FdToHandle(fd, size) => ImportKeepsUncarried(s, fd, size, r);
    case _ => SameUncarried(s, Step(s, op), r);
  }

  lemma {:induction false} UncarriedStays(s: State, ops: seq<Ioctl>, r: Word)
    requires Inv(s) && Schedule(s, ops) && r in s.ahb && !Carried(s, r)
    ensures r in Run(s, ops).ahb && s.cmds <= Run(s, ops).cmds && Unref(r) !in Later(s, Run(s, ops))
    decreases |ops|
  {
    if ops != [] {
      var s1 := Step(s, ops[0]);
      StepSpares(s, ops[0], r);
      StepKeepsInv(s, ops[0]);
      StepKeepsUncarried(s, ops[0], r);
      UncarriedStays(s1, ops[1..], r);
      LaterTwice(s, s1, Run(s1, ops[1..]), Unref(r));
    }
  }

  lemma ClosingGivesBack(s: State, h: nat, a: Answer)
    requires h in s.table.live && s.table.live[h].res != 0 && !s.table.live[h].isAhb
    ensures Later(s, Step(s, GemClose(h, a))) == [Unref(s.table.live[h].res)]
  {
  }

  /** A record that carries r ends up in a live BO, if it is not in one already. */
  lemma CarrierOps(s: State, r: Word, a: Answer) returns (ops: seq<Ioctl>)
    requires Inv(s) && r in s.ahb && Carried(s, r) && s.table.next < U32
    ensures Schedule(s, ops) && Unref(r) in Later(s, Run(s, ops))
  {
    if h: nat :| h in s.table.live && s.table.live[h].res == r && !s.table.live[h].isAhb {
      ops := [GemClose(h, a)];
      ClosingGivesBack(s, h, a);
      RunOne(s, ops[0]);
    } else {
      var k: Key :| RecallsAs(s, k, r);
      var i := RecalledWasStored(s, k);
      assert RecordSeen(s, s.stores[i]);
      RecalledIsUnknown(s, k, r);
      var import_ := FdToHandle(Some(s.files[k]), 0);
      var s1 := Step(s, import_);
      AddedIs(s.table, Imported(s, Some(s.files[k]), 0));
      ops := [import_, GemClose(s.table.next, a)];
      ClosingGivesBack(s1, s.table.next, a);
      RunTwo(s, import_, GemClose(s.table.next, a));
    }
  }

  /** The file of such a record has no live BO, if no live BO carries r. */
  lemma RecalledIsUnknown(s: State, k: Key, r: Word)
    requires Inv(s) && RecallsAs(s, k, r)
    requires !exists h :: h in s.table.live && s.table.live[h].res == r && !s.table.live[h].isAhb
    ensures !Known(s.table, k)
  {
    forall h | h in s.table.live ensures !Backs(s.table.live[h], k) {
      assert Remembered(s, s.table.live[h]);
    }
  }

  lemma RunOne(s: State, op: Ioctl)
    requires Allowed(s, op)
    ensures Schedule(s, [op]) && Run(s, [op]) == Step(s, op)
  {
    assert [op][1..] == [];
  }

  lemma RunTwo(s: State, op: Ioctl, then_: Ioctl)
    requires Allowed(s, op) && Allowed(Step(s, op), then_)
    ensures Schedule(s, [op, then_]) && Run(s, [op, then_]) == Step(Step(s, op), then_)
  {
    RunOne(Step(s, op), then_);
    assert [op, then_][1..] == [then_];
  }

  /** A resource on a hardware buffer is safe from being given back, whatever ioctls follow,
      exactly if no live BO and no record in the cache carries its id without knowing; that
      can be checked as soon as it is created. */
  lemma AhbSafeIff(s: State, r: Word, a: Answer)
    requires Inv(s) && r in s.ahb && s.table.next < U32
    ensures (forall ops :: Schedule(s, ops) ==> Unref(r) !in Later(s, Run(s, ops))) <==> !Carried(s, r)
  {
    if Carried(s, r) {
      var ops := CarrierOps(s, r, a);
      assert Schedule(s, ops) && Unref(r) in Later(s, Run(s, ops));
    } else {
      forall ops | Schedule(s, ops) ensures Unref(r) !in Later(s, Run(s, ops)) {
        UncarriedStays(s, ops, r);
      }
    }
  }

  // Closing and importing again

  /** Later stores are for other files. */
  lemma StepKeepsLatest(s: State, op: Ioctl, key: Key)
    requires Inv(s) && Allowed(s, op) && key in s.files
    ensures Latest(Step(s, op).stores, key) == Latest(s.stores, key)
  {
    if op.Create? && Step(s, op).stores != s.stores {
      var stores' := Step(s, op).stores;
      assert stores'[..|stores'| - 1] == s.stores;
    }
  }

  lemma {:induction false} RunKeepsLatest(s: State, ops: seq<Ioctl>, key: Key)
    requires Inv(s) && Schedule(s, ops) && key in s.files
    ensures Latest(Run(s, ops).stores, key) == Latest(s.stores, key)
    decreases |ops|
  {
    if ops != [] {
      StepKeepsLatest(s, ops[0], key);
      StepKeepsInv(s, ops[0]);
      RunKeepsLatest(Step(s, ops[0]), ops[1..], key);
    }
  }

  /** What a creation with a file leaves in the run of stores. */
  lemma CreateStores(s: State, args: CreateArgs, a: Answer)
    requires Inv(s) && Allowed(s, Create(args, a)) && args.size > 0 && CreatedRes(s, a) != 0
    ensures Latest(Step(s, Create(args, a)).stores, a.file.key)
         == Some(Record(CreatedRes(s, a), args.width, args.height, args.stride, DataSize(args), !a.file.memfd))
  {
  }

  /** A buffer created, closed and imported again, whatever else happens meanwhile, comes
      back under a new handle with its resource, geometry and kind exactly if the cache has
      not had to throw it out. */
  lemma ReimportRestoresIff(s: State, args: CreateArgs, a: Answer, ops: seq<Ioctl>, size: nat)
    requires Inv(s) && Allowed(s, Create(args, a)) && args.size > 0 && CreatedRes(s, a) != 0
    requires Schedule(Step(s, Create(args, a)), ops)
    requires var s2 := Run(Step(s, Create(args, a)), ops);
             !Known(s2.table, a.file.key) && Allowed(s2, FdToHandle(Some(a.file), size))
    ensures var s2 := Run(Step(s, Create(args, a)), ops);
            var s3 := Step(s2, FdToHandle(Some(a.file), size));
            && Result(s2, FdToHandle(Some(a.file), size)) == Handle(s2.table.next) && s2.table.next != s.table.next
            && s2.table.next in s3.table.live
            && var bo := s3.table.live[s2.table.next];
               && bo.backing == Some(a.file)
               && (RecordOf(bo) == Record(CreatedRes(s, a), args.width, args.height, args.stride, DataSize(args), !a.file.memfd)
                   <==> !Forgotten(s2.stores, a.file.key))
  {
    var s1 := Step(s, Create(args, a));
    var s2 := Run(s1, ops);
    StepKeepsInv(s, Create(args, a));
    CreateStores(s, args, a);
    RunKeepsLatest(s1, ops, a.file.key);
    RunKeepsHandle(s1, ops, s.table.next);
    CacheTellsLatest(s2.stores, a.file.key);
    AddedIs(s2.table, Imported(s2, Some(a.file), size));
  }

  /** As long as no more than 64 buffers have been cached, a hardware buffer that is created,
      closed and imported again comes back under a new handle with its resource, geometry
      and kind; and its resource is still outstanding if there has been no stale import, or
      if nobody else carried its id when it was created. */
  lemma AhbSurvivesClose(s: State, args: CreateArgs, a: Answer, ops: seq<Ioctl>, size: nat)
    requires Inv(s) && Allowed(s, Create(args, a)) && args.size > 0 && !a.file.memfd && CreatedRes(s, a) != 0
    requires Schedule(Step(s, Create(args, a)), ops)
    requires var s2 := Run(Step(s, Create(args, a)), ops);
             && !Known(s2.table, a.file.key) && Allowed(s2, FdToHandle(Some(a.file), size))
             && |KeysOf(s2.stores)| <= SLOTS
    ensures var s1 := Step(s, Create(args, a)); var s2 := Run(s1, ops);
            var s3 := Step(s2, FdToHandle(Some(a.file), size));
            && s2.table.next in s3.table.live && s2.table.next != s.table.next
            && RecordOf(s3.table.live[s2.table.next])
               == Record(CreatedRes(s, a), args.width, args.height, args.stride, DataSize(args), true)
            && ((Held(s) && NoStale(s1, ops)) || !Carried(s1, CreatedRes(s, a)) ==>
                  CreatedRes(s, a) in s3.ahb && Unref(CreatedRes(s, a)) !in Later(s1, s3))
  {
    var s1 := Step(s, Create(args, a));
    var s2 := Run(s1, ops);
    ReimportRestoresIff(s, args, a, ops, size);
    StepKeepsInv(s, Create(args, a));
    CreateStores(s, args, a);
    RunKeepsLatest(s1, ops, a.file.key);
    CacheTellsLatest(s2.stores, a.file.key);
    FewKeysNoneForgotten(s2.stores, a.file.key);
    if !Carried(s1, CreatedRes(s, a)) {
      UncarriedStays(s1, ops, CreatedRes(s, a));
    } else if Held(s) && NoStale(s1, ops) {
      AhbNeverUnreferenced(s, args, a, ops);
    }
  }

  /** A BO that the cache knows, closed and imported again at once, gets its resource back;
      if there has been no stale import before, that has been given back to the server by
      then exactly if the BO is not marked as a hardware buffer. */
  lemma ReimportIsStaleIff(s: State, h: nat, a: Answer, size: nat)
    requires Inv(s) && Held(s) && h in s.table.live && s.table.live[h].backing.Some? && s.table.live[h].res != 0
    requires Recall(Cached(s.stores), s.table.live[h].backing.value.key).Some? && s.table.next < U32
    ensures var bo, s2 := s.table.live[h], Step(s, GemClose(h, a));
            && Allowed(s2, FdToHandle(bo.backing, size))
            && var s3 := Step(s2, FdToHandle(bo.backing, size));
               && s.table.next in s3.table.live && RecordOf(s3.table.live[s.table.next]) == RecordOf(bo)
               && bo.res in s.resources && (bo.res !in s3.resources <==> !bo.isAhb)
               && (Unref(bo.res) in Later(s, s3) <==> !bo.isAhb)
  {
    var bo, s2 := s.table.live[h], Step(s, GemClose(h, a));
    assert BackingSeen(s, bo) && Remembered(s, bo) && Owned(s, bo);
    ClosedIsUnknown(s, h, a);
    AddedIs(s2.table, Imported(s2, bo.backing, size));
    if !bo.isAhb {
      ClosingGivesBack(s, h, a);
    }
  }

  lemma ClosedIsUnknown(s: State, h: nat, a: Answer)
    requires Unshared(s.table) && h in s.table.live && s.table.live[h].backing.Some?
    ensures !Known(Step(s, GemClose(h, a)).table, s.table.live[h].backing.value.key)
  {
  }

  // ---------------------------------------------------------------------
  // 32-bit sizes
  // ---------------------------------------------------------------------

  /** A descriptor comes back for a resource exactly if the caller asked for a size. */
  lemma DataSizeKeepsSign(args: CreateArgs)
    ensures DataSize(args) > 0 <==> args.size > 0
  {
  }

  /** The data size covers all rows exactly if there are none, or a size was asked for and
      the rows fit 32 bits, and then it is the greater of the two; it is never less than the
      size asked for. */
  lemma DataSizeCoversIff(args: CreateArgs)
    ensures DataSize(args) >= args.size
    ensures 0 < args.size && args.stride * args.height < U32 ==>
              DataSize(args) == if args.stride * args.height > args.size then args.stride * args.height else args.size
    ensures DataSize(args) >= args.stride * args.height
       <==> args.stride * args.height == 0 || (args.size > 0 && args.stride * args.height < U32)
  {
    var rows := args.stride * args.height;
    assert rows >= U32 ==> DataSize(args) < rows;
  }

  /** A command buffer is submitted whole, padded with zeros to words, exactly if its size
      leaves room for the rounding in 32 bits; a larger one is submitted empty. */
  lemma SubmitsAllIff(command: seq<byte>)
    requires |command| < U32
    ensures var sent := WordsBytes(Submitted(command));
            if |command| <= U32 - 4 then
              command <= sent && |sent| < |command| + 4 && forall i :: |command| <= i < |sent| ==> sent[i] == 0
            else Submitted(command) == []
  {
    var n := Wrap32(|command| + 3) / 4;
    if |command| <= U32 - 4 {
      RawWords((command + [0, 0, 0])[..4 * n]);
    }
  }

  lemma {:induction false} RawWords(bs: seq<byte>)
    requires |bs| % 4 == 0
    ensures WordsBytes(ReadWords(bs)) == bs
    decreases |bs|
  {
    if bs != [] {
      RawWords(bs[4..]);
      LimitFour();
      FromBytesBelow(bs[..4]);
      ToBytesFromBytes(bs[..4]);
      assert bs == bs[..4] + bs[4..];
    }
  }
}
