/**
 The ioctls of shims/native/drm-shim/src/drm_shim.c as a state machine: the table of buffer
 objects, the inode cache, the commands sent to the vtest server, and, as history, which
 server resources are outstanding and which files have been there so far.
 */
module DrmShim {
  import opened Common
  import opened LittleEndian
  import opened InodeCache
  import opened VtestWire
  import opened VtestLink
  import opened BoTable

  /** stores is the whole run of stores into the inode cache, which so holds Cached(stores).
      resources are the ids of the server's outstanding resources, created and not given
      back, and ahb those of them that sit on a hardware buffer; files are the files seen so
      far. */
  datatype State = State(
    version: Word, table: Table, stores: seq<Entry>, cmds: seq<Command>,
    ahb: set<Word>, resources: set<Word>, files: map<Key, File>)

  function Connected(version: Word, name: seq<byte>): State {
    State(version, NO_BOS, [], Greeting(name), {}, {}, map[])
  }

  datatype CreateArgs = CreateArgs(
    target: Word, format: Word, bind: Word, width: Word, height: Word, depth: Word,
    arraySize: Word, lastLevel: Word, nrSamples: Word, size: Word, stride: Word)

  datatype Box = Box(level: Word, x: Word, y: Word, z: Word, w: Word, h: Word, d: Word, offset: Word)

  /** answer is what the server contributes, placeholder the memfd that memfd_create makes,
      fd the file behind a descriptor (None if it is not one) and size its length. */
  datatype Ioctl =
    | GetCaps(capSet: nat, size: nat, answer: Answer)
    | Create(args: CreateArgs, answer: Answer)
    | MapBo(h: nat)
    | Exec(command: seq<byte>, answer: Answer)
    | TransferToHost(h: nat, box: Box, answer: Answer)
    | TransferFromHost(h: nat, box: Box, answer: Answer)
    | Wait(h: nat, noWait: bool, answer: Answer)
    | GemClose(h: nat, answer: Answer)
    | HandleToFd(h: nat, placeholder: File, answer: Answer)
    | FdToHandle(fd: Option<File>, size: nat)

  datatype Errno = ENOENT | EBUSY | EINVAL

  datatype Outcome =
    | Done
    | Handle(handle: nat)
    | Offset(offset: nat)
    | Fd(file: File)
    | Caps(caps: seq<byte>)
    | Error(errno: Errno)

  // ---------------------------------------------------------------------
  // The commands of each ioctl
  // ---------------------------------------------------------------------

  /** The data size sent for a resource: bumped to cover all rows, computed in 32 bits. */
  function DataSize(args: CreateArgs): Word {
    var rows := Wrap32(args.stride * args.height);
    if args.size > 0 && rows > args.size then rows else args.size
  }

  function CreatePayload(args: CreateArgs, version: Word, handle: Word): (p: seq<Word>)
    ensures |p| == 11
  {
    [if version >= 3 then 0 else handle, args.target, args.format, args.bind, args.width, args.height, args.depth,
     args.arraySize, args.lastLevel, args.nrSamples, DataSize(args)]
  }

  function TransferPayload(res: Word, box: Box): (p: seq<Word>)
    ensures |p| == 10 && p[8] == 0
  {
    [res, box.level, box.x, box.y, box.z, box.w, box.h, box.d, 0, box.offset]
  }

  /** The words of a command buffer: padded with zeros to whole words, their number computed
      in 32 bits. */
  function Submitted(command: seq<byte>): (ws: seq<Word>)
    requires |command| < U32
    ensures |ws| == Wrap32(|command| + 3) / 4
  {
    var n := Wrap32(|command| + 3) / 4;
    ReadWords((command + [0, 0, 0])[..4 * n])
  }

  function Unref(res: Word): Command {
    Command(VCMD_RESOURCE_UNREF, [res])
  }

  function BusyWaitFor(res: Word, flags: Word): Command {
    Command(VCMD_RESOURCE_BUSY_WAIT, [res, flags])
  }

  function Flush(bo: Bo): Command {
    Command(VCMD_TRANSFER_GET2, TransferPayload(bo.res, Box(0, 0, 0, 0, bo.width, bo.height, 1, 0)))
  }

  /** What is sent before a descriptor of the BO is handed out. */
  function Flushes(bo: Bo): seq<Command> {
    if bo.backing.None? || bo.res == 0 then []
    else if bo.isAhb then [BusyWaitFor(bo.res, VCMD_BUSY_WAIT_FLAG_WAIT)]
    else [Flush(bo), BusyWaitFor(bo.res, VCMD_BUSY_WAIT_FLAG_WAIT)]
  }

  // ---------------------------------------------------------------------
  // The ioctls
  // ---------------------------------------------------------------------

  function Issue(s: State, cs: seq<Command>): State {
    s.(cmds := s.cmds + cs)
  }

  function Seen(s: State, file: File): State {
    s.(files := s.files[file.key := file])
  }

  /** The server answers a creation with an id that is not outstanding; one that has been
      given back may come again. */
  predicate Allowed(s: State, op: Ioctl) {
    match op
    case GetCaps(_, _, a) => |a.caps| + 1 < U32
    case Create(args, a) =>
      && s.table.next < U32
      && (s.version >= 3 ==> a.resId !in s.resources)
      && (args.size > 0 ==> a.file.key !in s.files)
    case Exec(command, _) => |command| < U32
    case HandleToFd(_, placeholder, _) => placeholder.memfd && placeholder.key !in s.files
    case FdToHandle(fd, _) =>
      s.table.next < U32 && (fd.Some? && fd.value.key in s.files ==> s.files[fd.value.key] == fd.value)
    case _ => true
  }

  /** The BO that shim_resource_create fills in. */
  function Created(args: CreateArgs, a: Answer, handle: nat, res: Word): Bo {
    Bo(handle, res, if args.size > 0 then Some(a.file) else None, DataSize(args), args.stride, args.width, args.height,
       false, 0, args.size > 0 && !a.file.memfd)
  }

  function RecordOf(bo: Bo): Record {
    Record(bo.res, bo.width, bo.height, bo.stride, bo.size, bo.isAhb)
  }

  function CreatedRes(s: State, a: Answer): Word
    requires s.table.next < U32
  {
    if s.version >= 3 then a.resId else s.table.next
  }

  function DoCreate(s: State, args: CreateArgs, a: Answer): State
    requires s.table.next < U32
  {
    var handle := s.table.next;
    var res := CreatedRes(s, a);
    var bo := Created(args, a, handle, res);
    s.(table := Set(Allocated(s.table), bo),
       cmds := s.cmds + [Command(VCMD_RESOURCE_CREATE2, CreatePayload(args, s.version, handle))],
       stores := if args.size > 0 && res != 0 then s.stores + [Entry(a.file.key, RecordOf(bo))] else s.stores,
       ahb := if bo.isAhb && res != 0 then s.ahb + {res} else s.ahb,
       resources := if res != 0 then s.resources + {res} else s.resources,
       files := if args.size > 0 then s.files[a.file.key := a.file] else s.files)
  }

  function DoClose(s: State, h: nat): State {
    if h !in s.table.live then s
    else
      var bo, s' := s.table.live[h], s.(table := Dropped(s.table, h));
      if bo.res != 0 && !bo.isAhb
      then Issue(s'.(ahb := s.ahb - {bo.res}, resources := s.resources - {bo.res}), [Unref(bo.res)])
      else s'
  }

  predicate Known(t: Table, key: Key) {
    exists h :: h in t.live && Backs(t.live[h], key)
  }

  ghost function FindBacked(t: Table, key: Key): (h: nat)
    requires Known(t, key)
    ensures h in t.live && Backs(t.live[h], key)
  {
    var h :| h in t.live && Backs(t.live[h], key);
    h
  }

  /** The BO that shim_prime_fd_to_handle fills in for a file it has no BO for. */
  function Imported(s: State, fd: Option<File>, size: nat): Bo {
    var fresh_ := FREE.(handle := s.table.next);
    match fd
    case None => fresh_
    case Some(f) =>
      match Recall(Cached(s.stores), f.key)
      case None => fresh_.(backing := fd, size := Wrap32(size), isAhb := !f.memfd)
      case Some(r) =>
        fresh_.(backing := fd, res := r.res, width := r.width, height := r.height, stride := r.stride, size := r.size,
                isAhb := r.isAhb)
  }

  function DoImport(s: State, fd: Option<File>, size: nat): State {
    var s' := if fd.Some? then Seen(s, fd.value) else s;
    if fd.Some? && Known(s.table, fd.value.key) then s'
    else s'.(table := Set(Allocated(s.table), Imported(s, fd, size)))
  }

  function ResOf(t: Table, h: nat): Word {
    if h in t.live then t.live[h].res else 0
  }

  function Step(s: State, op: Ioctl): State
    requires Allowed(s, op)
  {
    match op
    case GetCaps(capSet, _, _) =>
      if capSet == 1 then Issue(s, [Command(VCMD_GET_CAPS, [])])
      else if capSet == 2 then Issue(s, [Command(VCMD_GET_CAPS2, [])])
      else s
    case Create(args, a) => DoCreate(s, args, a)
    case MapBo(h) => if h in s.table.live then s.(table := Set(s.table, WithOffset(s.table.live[h]))) else s
    case Exec(command, _) => Issue(s, [Command(VCMD_SUBMIT_CMD, Submitted(command))])
    case TransferToHost(h, box, _) =>
      var res := ResOf(s.table, h);
      if res == 0 then s else Issue(s, [Command(VCMD_TRANSFER_PUT2, TransferPayload(res, box))])
    case TransferFromHost(h, box, _) =>
      var res := ResOf(s.table, h);
      if res == 0 then s else Issue(s, [Command(VCMD_TRANSFER_GET2, TransferPayload(res, box))])
    case Wait(h, noWait, _) =>
      var res := ResOf(s.table, h);
      if res == 0 then s else Issue(s, [BusyWaitFor(res, if noWait then 0 else VCMD_BUSY_WAIT_FLAG_WAIT)])
    case GemClose(h, _) => DoClose(s, h)
    case HandleToFd(h, placeholder, _) =>
      if h !in s.table.live then s
      else
        var s' := Issue(s, Flushes(s.table.live[h]));
        if s.table.live[h].backing.Some? then s' else Seen(s', placeholder)
    case FdToHandle(fd, size) => DoImport(s, fd, size)
  }

  /** What the caller of an ioctl gets. */
  ghost function Result(s: State, op: Ioctl): Outcome
    requires Allowed(s, op)
  {
    match op
    case GetCaps(capSet, size, a) =>
      if capSet == 1 || capSet == 2 then Caps(a.caps[..Min(size, |a.caps|)]) else Error(EINVAL)
    case Create(_, _) => Handle(s.table.next)
    case MapBo(h) => if h in s.table.live then Offset(OffsetOf(h)) else Error(ENOENT)
    case Exec(_, _) => Done
    case TransferToHost(h, _, _) => if ResOf(s.table, h) == 0 then Error(ENOENT) else Done
    case TransferFromHost(h, _, _) => if ResOf(s.table, h) == 0 then Error(ENOENT) else Done
    case Wait(h, noWait, a) =>
      if ResOf(s.table, h) == 0 then Error(ENOENT) else if a.busy != 0 && noWait then Error(EBUSY) else Done
    case GemClose(_, _) => Done
    case HandleToFd(h, placeholder, _) =>
      if h !in s.table.live then Error(ENOENT)
      else if s.table.live[h].backing.Some? then Fd(s.table.live[h].backing.value) else Fd(placeholder)
    case FdToHandle(fd, _) =>
      if fd.Some? && Known(s.table, fd.value.key) then Handle(FindBacked(s.table, fd.value.key)) else Handle(s.table.next)
  }

  // ---------------------------------------------------------------------
  // The invariant
  // ---------------------------------------------------------------------

  /** No two live BOs are backed by one file. */
  predicate Unshared(t: Table) {
    forall g, h :: g in t.live && h in t.live && g != h && t.live[g].backing.Some? ==>
      !Backs(t.live[h], t.live[g].backing.value.key)
  }

  predicate BackingSeen(s: State, bo: Bo) {
    bo.backing.Some? ==> bo.backing.value.key in s.files && s.files[bo.backing.value.key] == bo.backing.value
  }

  /** The record says whether its file is a hardware buffer. */
  predicate RecordSeen(s: State, e: Entry) {
    e.key in s.files && e.record.isAhb == !s.files[e.key].memfd
  }

  predicate FilesOk(s: State) {
    && (forall k :: k in s.files ==> s.files[k].key == k)
    && (forall h :: h in s.table.live ==> BackingSeen(s, s.table.live[h]))
    && (forall i :: 0 <= i < |s.stores| ==> RecordSeen(s, s.stores[i]))
  }

  /** What the cache recalls of the file of a live BO is what the BO says. */
  predicate Remembered(s: State, bo: Bo) {
    bo.backing.Some? && Recall(Cached(s.stores), bo.backing.value.key).Some? ==>
      Recall(Cached(s.stores), bo.backing.value.key).value == RecordOf(bo)
  }

  predicate AllRemembered(s: State) {
    forall h :: h in s.table.live ==> Remembered(s, s.table.live[h])
  }

  /** A resource that a BO or a record names is outstanding or has been given back; if it
      sits on a hardware buffer and the BO does not know, its id has been given back and
      come again. */
  predicate Marked(s: State, res: Word, isAhb: bool) {
    && (res != 0 ==> res in s.resources || Unref(res) in s.cmds)
    && (res in s.ahb && !isAhb ==> Unref(res) in s.cmds)
  }

  predicate AhbOk(s: State) {
    && s.ahb <= s.resources && 0 !in s.resources
    && (s.version < 3 ==> forall r :: r in s.resources ==> r < s.table.next)
    && (forall h :: h in s.table.live ==> Marked(s, s.table.live[h].res, s.table.live[h].isAhb))
    && (forall i :: 0 <= i < |s.stores| ==> Marked(s, s.stores[i].record.res, s.stores[i].record.isAhb))
  }

  predicate Inv(s: State) {
    TableInv(s.table) && Unshared(s.table) && FilesOk(s) && AllRemembered(s) && AhbOk(s)
  }

  // ---------------------------------------------------------------------
  // Runs without stale imports
  // ---------------------------------------------------------------------

  /** The import of a memfd file that the cache recalls although no BO has it any more: its
      resource was given back when its BO was closed. */
  predicate Stale(s: State, op: Ioctl) {
    && op.FdToHandle? && op.fd.Some? && op.fd.value.memfd
    && !Known(s.table, op.fd.value.key) && Recall(Cached(s.stores), op.fd.value.key).Some?
  }

  /** The resource of a BO is outstanding and marked for what it is. */
  predicate Owned(s: State, bo: Bo) {
    bo.res != 0 ==> bo.res in s.resources && (bo.res in s.ahb <==> bo.isAhb)
  }

  /** What holds as long as there has been no such import: live BOs own their resources,
      sharing them only if they sit on hardware buffers, and records of hardware buffers
      are good for ever. */
  predicate Held(s: State) {
    && (forall h :: h in s.table.live ==> Owned(s, s.table.live[h]))
    && (forall g, h :: g in s.table.live && h in s.table.live && g != h && s.table.live[g].res == s.table.live[h].res != 0 ==>
          s.table.live[g].isAhb)
    && (forall i :: 0 <= i < |s.stores| && s.stores[i].record.isAhb ==> s.stores[i].record.res in s.ahb)
  }
}
