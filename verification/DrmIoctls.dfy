/**
 The ioctl handlers of shims/native/drm-shim/src/drm_shim.c over the mutable table, cache
 and socket; each takes the step of module DrmShim, and leaves the server connection in
 step: no answer outstanding, and the bytes written parse back to the commands issued.
 */
module DrmIoctls {
  import opened Common
  import opened LittleEndian
  import opened InodeCache
  import opened VtestWire
  import opened VtestLink
  import opened BoTable
  import opened DrmShim
  import opened DrmRuns
  import DrmServer

  class Shim {
    const bos: Bos
    const cache: Cache
    const link: Link
    var version: Word
    ghost var st: State

    /** The data structures are in the state s, and the connection is in step. */
    ghost predicate Matches(s: State)
      reads this, bos, bos.table, cache, cache.slots, link
    {
      && bos.Valid() && bos.t == s.table
      && cache.Valid() && cache.es == Cached(s.stores)
      && LinkMatches(s)
    }

    ghost predicate LinkMatches(s: State)
      reads this, link
    {
      link.InStep() && link.cmds == s.cmds && version == s.version == link.version
    }

    ghost predicate Valid()
      reads this, bos, bos.table, cache, cache.slots, link
    {
      Matches(st) && Inv(st)
    }

    /** vtest_ensure_connected. */
    constructor (name: seq<byte>, a: Answer)
      requires |name| < U32
      ensures Valid() && st == Connected(a.version, name) && fresh(bos) && fresh(bos.table) && fresh(cache)
      ensures fresh(cache.slots) && fresh(link)
    {
      bos := new Bos();
      cache := new Cache();
      var sock := new Link();
      var agreed := sock.Handshake(name, a);
      link, version := sock, agreed;
      ReachableInv(Connected(a.version, name), a.version, name, []);
      st := Connected(a.version, name);
    }

    /** shim_get_caps. */
    method GetCaps(capSet: nat, size: nat, a: Answer, ghost s: State) returns (r: Outcome)
      requires Matches(s) && Allowed(s, Ioctl.GetCaps(capSet, size, a))
      modifies link
      ensures Matches(Step(s, Ioctl.GetCaps(capSet, size, a))) && r == Result(s, Ioctl.GetCaps(capSet, size, a))
    {
      if capSet != 1 && capSet != 2 {
        return Error(EINVAL);
      }
      var caps := link.GetCaps(if capSet == 1 then VCMD_GET_CAPS else VCMD_GET_CAPS2, size, a);
      r := Caps(caps);
    }

    /** The cache learns of a resource with a file. */
    method SeedCache(file: Option<File>, record: Record, ghost stores: seq<Entry>)
      requires cache.Valid() && cache.es == Cached(stores)
      modifies cache, cache.slots
      ensures cache.Valid()
      ensures cache.es == Cached(if file.Some? && record.res != 0 then stores + [Entry(file.value.key, record)] else stores)
    {
      if file.Some? && record.res != 0 {
        CachedAfter(stores, Entry(file.value.key, record));
        cache.Store(Some(file.value.key), record);
      }
    }

    /** VCMD_RESOURCE_CREATE2 and its answer. */
    method RequestResource(args: CreateArgs, handle: Word, a: Answer, ghost s: State) returns (res: Word, file: Option<File>)
      requires LinkMatches(s)
      modifies link
      ensures LinkMatches(Issue(s, [Command(VCMD_RESOURCE_CREATE2, CreatePayload(args, s.version, handle))]))
      ensures res == (if s.version >= 3 then a.resId else handle) && file == (if args.size > 0 then Some(a.file) else None)
    {
      var payload := CreatePayload(args, version, handle);
      DataSizeKeepsSign(args);
      res, file := link.CreateResource(payload, version, args.size, handle, a);
    }

    /** The BO just allocated is filled in, and the cache seeded. */
    method FillBo(bo: Bo, ghost s: State)
      requires bos.Valid() && bos.t == Allocated(s.table) && cache.Valid() && cache.es == Cached(s.stores)
      requires bo.handle == s.table.next && !bo.mapped
      modifies bos, bos.table, cache, cache.slots
      ensures bos.Valid() && bos.t == Set(Allocated(s.table), bo) && bos.table == old(bos.table)
      ensures cache.Valid()
      ensures cache.es == Cached(if bo.backing.Some? && bo.res != 0 then s.stores + [Entry(bo.backing.value.key, RecordOf(bo))]
                                 else s.stores)
    {
      var found := bos.Lookup(bo.handle);
      if found.Some? {
        bos.Write(bo);
      }
      SeedCache(bo.backing, RecordOf(bo), s.stores);
    }

    /** shim_resource_create. */
    method ResourceCreate(args: CreateArgs, a: Answer, ghost s: State) returns (r: Outcome)
      requires Matches(s) && Allowed(s, Create(args, a))
      modifies bos, bos.table, cache, cache.slots, link
      ensures Matches(DoCreate(s, args, a)) && r == Handle(s.table.next)
      ensures bos.table == old(bos.table) || fresh(bos.table)
    {
      var handle := bos.Alloc();
      var res, file := RequestResource(args, handle, a, s);
      var isAhb := file.Some? && !file.value.memfd;
      FillBo(Bo(handle, res, file, DataSize(args), args.stride, args.width, args.height, false, 0, isAhb), s);
      r := Handle(handle);
    }

    /** shim_map. */
    method Map(h: nat, ghost s: State) returns (r: Outcome)
      requires Matches(s)
      modifies bos, bos.table
      ensures Matches(Step(s, MapBo(h))) && r == Result(s, MapBo(h)) && bos.table == old(bos.table)
    {
      var offset := bos.MapOffset(h);
      r := match offset case Some(o) => Offset(o) case None => Error(ENOENT);
    }

    /** Commands that no answer follows are sent. */
    method Tell(id: Word, payload: seq<Word>, a: Answer, ghost s: State)
      requires LinkMatches(s) && (id == VCMD_SUBMIT_CMD || id == VCMD_TRANSFER_PUT2 || id == VCMD_RESOURCE_UNREF
                                  || (id == VCMD_TRANSFER_GET2 && |payload| == 10 && payload[8] == 0))
      requires |payload| < U32
      modifies link
      ensures LinkMatches(Issue(s, [Command(id, payload)]))
    {
      link.Send(id, payload, a);
    }

    /** shim_execbuffer. */
    method ExecBuffer(command: seq<byte>, a: Answer, ghost s: State) returns (r: Outcome)
      requires Matches(s) && |command| < U32
      modifies link
      ensures Matches(Step(s, Exec(command, a))) && r == Done
    {
      Tell(VCMD_SUBMIT_CMD, Submitted(command), a, s);
      r := Done;
    }

    /** The resource of a BO, 0 if there is none. */
    method Resource(h: nat, ghost t: Table) returns (res: Word)
      requires bos.Valid() && bos.t == t
      ensures res == ResOf(t, h)
    {
      var bo := bos.Lookup(h);
      res := match bo case Some(b) => b.res case None => 0;
    }

    /** shim_transfer_to_host. */
    method TransferTo(h: nat, box: Box, a: Answer, ghost s: State) returns (r: Outcome)
      requires Matches(s)
      modifies link
      ensures Matches(Step(s, TransferToHost(h, box, a))) && r == Result(s, TransferToHost(h, box, a))
    {
      var res := Resource(h, s.table);
      if res == 0 {
        return Error(ENOENT);
      }
      Tell(VCMD_TRANSFER_PUT2, TransferPayload(res, box), a, s);
      r := Done;
    }

    /** shim_transfer_from_host. */
    method TransferFrom(h: nat, box: Box, a: Answer, ghost s: State) returns (r: Outcome)
      requires Matches(s)
      modifies link
      ensures Matches(Step(s, TransferFromHost(h, box, a))) && r == Result(s, TransferFromHost(h, box, a))
    {
      var res := Resource(h, s.table);
      if res == 0 {
        return Error(ENOENT);
      }
      Tell(VCMD_TRANSFER_GET2, TransferPayload(res, box), a, s);
      r := Done;
    }

    /** shim_wait. */
    method WaitFor(h: nat, noWait: bool, a: Answer, ghost s: State) returns (r: Outcome)
      requires Matches(s)
      modifies link
      ensures Matches(Step(s, Wait(h, noWait, a))) && r == Result(s, Wait(h, noWait, a))
    {
      var res := Resource(h, s.table);
      if res == 0 {
        return Error(ENOENT);
      }
      var busy := link.BusyWait(res, if noWait then 0 else VCMD_BUSY_WAIT_FLAG_WAIT, a);
      if busy != 0 && noWait {
        return Error(EBUSY);
      }
      r := Done;
    }

    /** shim_gem_close. */
    method Close(h: nat, a: Answer, ghost s: State) returns (r: Outcome)
      requires Matches(s)
      modifies bos, bos.table, link
      ensures Matches(DoClose(s, h)) && r == Done && bos.table == old(bos.table)
    {
      var bo := bos.Lookup(h);
      if bo.None? {
        return Done;
      }
      bos.Clear(h);
      if bo.value.res != 0 && !bo.value.isAhb {
        Tell(VCMD_RESOURCE_UNREF, [bo.value.res], a, s);
      }
      r := Done;
    }

    /** vtest_transfer_get_for_export and vtest_busy_wait_for_resource, as an export of the BO
        needs them. */
    method FlushFor(bo: Bo, a: Answer, ghost s: State)
      requires LinkMatches(s)
      modifies link
      ensures LinkMatches(Issue(s, Flushes(bo)))
    {
      if bo.backing.None? || bo.res == 0 {
        return;
      }
      if !bo.isAhb {
        Tell(VCMD_TRANSFER_GET2, TransferPayload(bo.res, Box(0, 0, 0, 0, bo.width, bo.height, 1, 0)), a, s);
      }
      var busy := link.BusyWait(bo.res, VCMD_BUSY_WAIT_FLAG_WAIT, a);
    }

    /** shim_prime_handle_to_fd. */
    method PrimeHandleToFd(h: nat, placeholder: File, a: Answer, ghost s: State) returns (r: Outcome)
      requires Matches(s) && Allowed(s, HandleToFd(h, placeholder, a))
      modifies link
      ensures Matches(Step(s, HandleToFd(h, placeholder, a))) && r == Result(s, HandleToFd(h, placeholder, a))
    {
      var bo := bos.Lookup(h);
      if bo.None? {
        return Error(ENOENT);
      }
      FlushFor(bo.value, a, s);
      r := Fd(if bo.value.backing.Some? then bo.value.backing.value else placeholder);
    }

    /** shim_prime_fd_to_handle. */
    method PrimeFdToHandle(fd: Option<File>, size: nat, ghost s: State) returns (r: Outcome)
      requires Matches(s) && Unshared(s.table) && Allowed(s, FdToHandle(fd, size))
      modifies bos, bos.table
      ensures Matches(DoImport(s, fd, size)) && r == Result(s, FdToHandle(fd, size))
      ensures bos.table == old(bos.table) || fresh(bos.table)
    {
      if fd.Some? {
        var existing := bos.FindByInode(fd.value.key);
        if existing.Some? {
          OnlyOneBacked(s.table, existing.value, FindBacked(s.table, fd.value.key), fd.value.key);
          return Handle(existing.value);
        }
      }
      assert !(fd.Some? && Known(s.table, fd.value.key));
      r := ImportNew(fd, size, s);
    }

    /** The rest of it, for a file that no live BO has. */
    method ImportNew(fd: Option<File>, size: nat, ghost s: State) returns (r: Outcome)
      requires Matches(s) && TableInv(s.table)
      modifies bos, bos.table
      ensures Matches(s.(table := Added(s.table, Imported(s, fd, size)))) && r == Handle(s.table.next)
      ensures bos.table == old(bos.table) || fresh(bos.table)
    {
      var h := bos.Alloc();
      var bo := FREE.(handle := h);
      if fd.Some? {
        bo := bo.(backing := fd, size := Wrap32(size), isAhb := !fd.value.memfd);
      }
      var record := cache.Lookup(match fd case Some(f) => Some(f.key) case None => None);
      if record.Some? {
        bo := bo.(res := record.value.res, width := record.value.width, height := record.value.height,
                  stride := record.value.stride, size := record.value.size, isAhb := record.value.isAhb);
      }
      bos.Write(bo);
      r := Handle(h);
    }

    /** The ioctls that change the table. */
    method DispatchTable(op: Ioctl, ghost s: State) returns (r: Outcome)
      requires op.Create? || op.MapBo? || op.GemClose? || op.FdToHandle?
      requires Matches(s) && Unshared(s.table) && Allowed(s, op)
      modifies bos, bos.table, cache, cache.slots, link
      ensures Matches(Step(s, op)) && r == Result(s, op) && (bos.table == old(bos.table) || fresh(bos.table))
    {
      match op {
        case Create(args, a) => r := ResourceCreate(args, a, s);
        case MapBo(h) => r := Map(h, s);
        case GemClose(h, a) => r := Close(h, a, s);
        case FdToHandle(fd, size) => r := PrimeFdToHandle(fd, size, s);
      }
    }

    /** The ioctls that do not. */
    method DispatchLink(op: Ioctl, ghost s: State) returns (r: Outcome)
      requires !(op.Create? || op.MapBo? || op.GemClose? || op.FdToHandle?)
      requires Matches(s) && Allowed(s, op)
      modifies link
      ensures Matches(Step(s, op)) && r == Result(s, op)
    {
      match op {
        case GetCaps(capSet, size, a) => r := GetCaps(capSet, size, a, s);
        case Exec(command, a) => r := ExecBuffer(command, a, s);
        case TransferToHost(h, box, a) => r := TransferTo(h, box, a, s);
        case TransferFromHost(h, box, a) => r := TransferFrom(h, box, a, s);
        case Wait(h, noWait, a) => r := WaitFor(h, noWait, a, s);
        case HandleToFd(h, placeholder, a) => r := PrimeHandleToFd(h, placeholder, a, s);
      }
    }

    /** One intercepted ioctl. */
    method Dispatch(op: Ioctl) returns (r: Outcome)
      requires Valid() && Allowed(st, op)
      modifies this`st, bos, bos.table, cache, cache.slots, link
      ensures Valid() && st == Step(old(st), op) && r == Result(old(st), op)
      ensures bos.table == old(bos.table) || fresh(bos.table)
    {
      ghost var s := st;
      if op.Create? || op.MapBo? || op.GemClose? || op.FdToHandle? {
        r := DispatchTable(op, s);
      } else {
        r := DispatchLink(op, s);
      }
      Advance(op);
    }

    ghost method Advance(op: Ioctl)
      requires Inv(st) && Allowed(st, op) && Matches(Step(st, op))
      modifies this`st
      ensures Valid() && st == Step(old(st), op)
    {
      StepKeepsInv(st, op);
      st := Step(st, op);
    }

    /** After any sequence of ioctls the bytes written parse to exactly the commands issued,
        by which the server is asked for just what the ioctls mean, and every byte and
        descriptor that the server sent has been taken. */
    method ServeAll(ops: seq<Ioctl>)
      requires Valid() && Schedule(st, ops)
      modifies this`st, bos, bos.table, cache, cache.slots, link
      ensures Valid() && st == Run(old(st), ops)
      ensures link.inbox == [] && Parse(link.out) == Some(st.cmds)
      ensures DrmServer.UnderstoodAll(st.cmds) == DrmServer.UnderstoodAll(old(st).cmds) + DrmServer.MeantAll(old(st), ops)
    {
      ghost var was := st;
      var i := 0;
      while i < |ops|
        invariant i <= |ops| && Valid() && Schedule(st, ops[i..]) && Run(st, ops[i..]) == Run(was, ops)
        invariant bos.table == old(bos.table) || fresh(bos.table)
      {
        assert ops[i..][0] == ops[i] && ops[i..][1..] == ops[i + 1..];
        var r := Dispatch(ops[i]);
        i := i + 1;
      }
      link.OutParses();
      DrmServer.RunIsUnderstood(was, ops);
    }
  }
}
