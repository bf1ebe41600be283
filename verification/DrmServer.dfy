/**
 What the vtest server makes of the commands: it reads the words of a payload by their
 positions in the protocol. The theorems say that it so learns exactly what the callers of
 the ioctls asked for.
 */
module DrmServer {
  import opened Common
  import opened LittleEndian
  import opened InodeCache
  import opened VtestWire
  import opened VtestLink
  import opened BoTable
  import opened DrmShim
  import opened DrmRuns

  // ---------------------------------------------------------------------
  // The protocol
  // ---------------------------------------------------------------------

  const CREATE2_WORDS := 11
  const CREATE2_RES_HANDLE := 0
  const CREATE2_TARGET := 1
  const CREATE2_FORMAT := 2
  const CREATE2_BIND := 3
  const CREATE2_WIDTH := 4
  const CREATE2_HEIGHT := 5
  const CREATE2_DEPTH := 6
  const CREATE2_ARRAY_SIZE := 7
  const CREATE2_LAST_LEVEL := 8
  const CREATE2_NR_SAMPLES := 9
  const CREATE2_DATA_SIZE := 10

  const TRANSFER2_WORDS := 10
  const TRANSFER2_RES_HANDLE := 0
  const TRANSFER2_LEVEL := 1
  const TRANSFER2_X := 2
  const TRANSFER2_Y := 3
  const TRANSFER2_Z := 4
  const TRANSFER2_WIDTH := 5
  const TRANSFER2_HEIGHT := 6
  const TRANSFER2_DEPTH := 7
  const TRANSFER2_DATA_SIZE := 8
  const TRANSFER2_OFFSET := 9

  /** A box of a resource, with how many bytes of it travel over the socket. */
  datatype Area = Area(res: Word, box: Box, dataSize: Word)

  /** What a command asks of the server. */
  datatype Request =
    | Renderer(name: seq<byte>)
    | Ping
    | Speak(version: Word)
    | Capabilities(second: bool)
    | NewResource(id: Word, target: Word, format: Word, bind: Word, width: Word, height: Word, depth: Word,
                  arraySize: Word, lastLevel: Word, nrSamples: Word, dataSize: Word)
    | GiveBack(res: Word)
    | Submit(words: seq<Word>)
    | Put(area: Area)
    | Get(area: Area)
    | Busy(res: Word, block: bool)
    | Other(command: Command)

  function AreaOf(p: seq<Word>): Area
    requires |p| == TRANSFER2_WORDS
  {
    Area(p[TRANSFER2_RES_HANDLE],
         Box(level := p[TRANSFER2_LEVEL], x := p[TRANSFER2_X], y := p[TRANSFER2_Y], z := p[TRANSFER2_Z],
             w := p[TRANSFER2_WIDTH], h := p[TRANSFER2_HEIGHT], d := p[TRANSFER2_DEPTH], offset := p[TRANSFER2_OFFSET]),
         p[TRANSFER2_DATA_SIZE])
  }

  function Understood(c: Command): Request {
    match c
    case CreateRenderer(name) => Renderer(name)
    case Command(id, p) =>
      if id == VCMD_PING_PROTOCOL_VERSION && p == [] then Ping
      else if id == VCMD_PROTOCOL_VERSION && |p| == 1 then Speak(p[0])
      else if id == VCMD_GET_CAPS && p == [] then Capabilities(false)
      else if id == VCMD_GET_CAPS2 && p == [] then Capabilities(true)
      else if id == VCMD_RESOURCE_CREATE2 && |p| == CREATE2_WORDS then
        NewResource(id := p[CREATE2_RES_HANDLE], target := p[CREATE2_TARGET], format := p[CREATE2_FORMAT],
                    bind := p[CREATE2_BIND], width := p[CREATE2_WIDTH], height := p[CREATE2_HEIGHT],
                    depth := p[CREATE2_DEPTH], arraySize := p[CREATE2_ARRAY_SIZE], lastLevel := p[CREATE2_LAST_LEVEL],
                    nrSamples := p[CREATE2_NR_SAMPLES], dataSize := p[CREATE2_DATA_SIZE])
      else if id == VCMD_RESOURCE_UNREF && |p| == 1 then GiveBack(p[0])
      else if id == VCMD_SUBMIT_CMD then Submit(p)
      else if id == VCMD_TRANSFER_PUT2 && |p| == TRANSFER2_WORDS then Put(AreaOf(p))
      else if id == VCMD_TRANSFER_GET2 && |p| == TRANSFER2_WORDS then Get(AreaOf(p))
      else if id == VCMD_RESOURCE_BUSY_WAIT && |p| == 2 then Busy(p[0], p[1] % 2 == VCMD_BUSY_WAIT_FLAG_WAIT)
      else Other(c)
  }

  function UnderstoodAll(cs: seq<Command>): (rs: seq<Request>)
    ensures |rs| == |cs|
  {
    if cs == [] then [] else UnderstoodAll(cs[..|cs| - 1]) + [Understood(cs[|cs| - 1])]
  }

  lemma {:induction false} UnderstoodConcat(a: seq<Command>, b: seq<Command>)
    ensures UnderstoodAll(a + b) == UnderstoodAll(a) + UnderstoodAll(b)
    decreases |b|
  {
    if b == [] {
      assert a + b == a;
    } else {
      UnderstoodConcat(a, b[..|b| - 1]);
      assert (a + b)[..|a + b| - 1] == a + b[..|b| - 1];
    }
  }

  // ---------------------------------------------------------------------
  // What the ioctls mean
  // ---------------------------------------------------------------------

  /** The whole of a BO. */
  function WholeOf(bo: Bo): Box {
    Box(level := 0, x := 0, y := 0, z := 0, w := bo.width, h := bo.height, d := 1, offset := 0)
  }

  /** The server is asked for no answer over the socket but what the ioctl itself waits for:
      pixels travel through the file that the BO is on. A BO that is handed out is waited
      for, and its pixels are fetched first unless they are in a hardware buffer. */
  function Meant(s: State, op: Ioctl): seq<Request>
    requires Allowed(s, op)
  {
    match op
    case GetCaps(capSet, _, _) => if capSet == 1 || capSet == 2 then [Capabilities(second := capSet == 2)] else []
    case Create(args, _) =>
      [NewResource(id := if s.version < 3 then s.table.next else 0, target := args.target, format := args.format,
                   bind := args.bind, width := args.width, height := args.height, depth := args.depth,
                   arraySize := args.arraySize, lastLevel := args.lastLevel, nrSamples := args.nrSamples,
                   dataSize := DataSize(args))]
    case Exec(command, _) => [Submit(Submitted(command))]
    case TransferToHost(h, box, _) =>
      if Nameless(s, h) then [] else [Put(Area(res := s.table.live[h].res, box := box, dataSize := 0))]
    case TransferFromHost(h, box, _) =>
      if Nameless(s, h) then [] else [Get(Area(res := s.table.live[h].res, box := box, dataSize := 0))]
    case Wait(h, noWait, _) => if Nameless(s, h) then [] else [Busy(res := s.table.live[h].res, block := !noWait)]
    case GemClose(h, _) =>
      if Nameless(s, h) || s.table.live[h].isAhb then [] else [GiveBack(s.table.live[h].res)]
    case HandleToFd(h, _, _) =>
      if Nameless(s, h) || s.table.live[h].backing.None? then []
      else
        var bo := s.table.live[h];
        (if bo.isAhb then [] else [Get(Area(res := bo.res, box := WholeOf(bo), dataSize := 0))])
        + [Busy(res := bo.res, block := true)]
    case MapBo(_) => []
    case FdToHandle(_, _) => []
  }

  /** There is no BO or it has no resource. */
  predicate Nameless(s: State, h: nat) {
    h !in s.table.live || s.table.live[h].res == 0
  }

  function MeantAll(s: State, ops: seq<Ioctl>): seq<Request>
    requires Schedule(s, ops)
    decreases |ops|
  {
    if ops == [] then [] else Meant(s, ops[0]) + MeantAll(Step(s, ops[0]), ops[1..])
  }

  // ---------------------------------------------------------------------
  // The server learns exactly that
  // ---------------------------------------------------------------------

  /** The commands of one ioctl. */
  function Issued(s: State, op: Ioctl): seq<Command>
    requires Allowed(s, op)
  {
    match op
    case GetCaps(capSet, _, _) =>
      if capSet == 1 then [Command(VCMD_GET_CAPS, [])] else if capSet == 2 then [Command(VCMD_GET_CAPS2, [])] else []
    case Create(args, _) => [Command(VCMD_RESOURCE_CREATE2, CreatePayload(args, s.version, s.table.next))]
    case Exec(command, _) => [Command(VCMD_SUBMIT_CMD, Submitted(command))]
    case TransferToHost(h, box, _) =>
      if Nameless(s, h) then [] else [Command(VCMD_TRANSFER_PUT2, TransferPayload(ResOf(s.table, h), box))]
    case TransferFromHost(h, box, _) =>
      if Nameless(s, h) then [] else [Command(VCMD_TRANSFER_GET2, TransferPayload(ResOf(s.table, h), box))]
    case Wait(h, noWait, _) =>
      if Nameless(s, h) then [] else [BusyWaitFor(ResOf(s.table, h), if noWait then 0 else VCMD_BUSY_WAIT_FLAG_WAIT)]
    case GemClose(h, _) => if Nameless(s, h) || s.table.live[h].isAhb then [] else [Unref(ResOf(s.table, h))]
    case HandleToFd(h, _, _) => if h in s.table.live then Flushes(s.table.live[h]) else []
    case MapBo(_) => []
    case FdToHandle(_, _) => []
  }

  lemma StepIssues(s: State, op: Ioctl)
    requires Allowed(s, op)
    ensures Step(s, op).cmds == s.cmds + Issued(s, op)
  {
  }

  lemma UnderstoodOne(c: Command)
    ensures UnderstoodAll([]) == [] && UnderstoodAll([c]) == [Understood(c)]
  {
    assert [c][..0] == [];
  }

  lemma FlushIsUnderstood(bo: Bo)
    requires bo.res != 0 && bo.backing.Some?
    ensures UnderstoodAll(Flushes(bo))
         == (if bo.isAhb then [] else [Get(Area(res := bo.res, box := WholeOf(bo), dataSize := 0))])
            + [Busy(res := bo.res, block := true)]
  {
    var wait := BusyWaitFor(bo.res, VCMD_BUSY_WAIT_FLAG_WAIT);
    UnderstoodOne(wait);
    UnderstoodOne(Flush(bo));
    UnderstoodConcat([Flush(bo)], [wait]);
    assert [Flush(bo)] + [wait] == [Flush(bo), wait];
  }

  lemma OneIsMeant(s: State, op: Ioctl)
    requires Allowed(s, op) && !op.HandleToFd? && Issued(s, op) != []
    ensures |Issued(s, op)| == |Meant(s, op)| == 1 && Understood(Issued(s, op)[0]) == Meant(s, op)[0]
  {
    match op
    case TransferToHost(h, box, _) => TransferIsMeant(ResOf(s.table, h), box);
    case TransferFromHost(h, box, _) => TransferIsMeant(ResOf(s.table, h), box);
    case _ =>
  }

  lemma TransferIsMeant(res: Word, box: Box)
    ensures AreaOf(TransferPayload(res, box)) == Area(res := res, box := box, dataSize := 0)
  {
  }

  lemma IssuedIsMeant(s: State, op: Ioctl)
    requires Allowed(s, op)
    ensures UnderstoodAll(Issued(s, op)) == Meant(s, op)
  {
    if op.HandleToFd? {
      if op.h in s.table.live && s.table.live[op.h].backing.Some? && s.table.live[op.h].res != 0 {
        FlushIsUnderstood(s.table.live[op.h]);
      }
    } else if Issued(s, op) != [] {
      OneIsMeant(s, op);
      UnderstoodOne(Issued(s, op)[0]);
    }
  }

  /** The handshake names the renderer, asks whether versions are spoken of at all, and
      offers version 3. */
  lemma GreetingIsUnderstood(version: Word, name: seq<byte>)
    ensures UnderstoodAll(Connected(version, name).cmds) == [Renderer(name), Ping, Speak(3)]
  {
    var cs := Greeting(name);
    UnderstoodOne(cs[0]);
    UnderstoodConcat([cs[0]], [cs[1]]);
    UnderstoodOne(cs[1]);
    UnderstoodConcat([cs[0]] + [cs[1]], [cs[2]]);
    UnderstoodOne(cs[2]);
    assert cs == [cs[0]] + [cs[1]] + [cs[2]];
  }

  /** Over every run the server is asked for what the ioctls mean, in their order. */
  lemma {:induction false} RunIsUnderstood(s: State, ops: seq<Ioctl>)
    requires Schedule(s, ops)
    ensures UnderstoodAll(Run(s, ops).cmds) == UnderstoodAll(s.cmds) + MeantAll(s, ops)
    decreases |ops|
  {
    if ops != [] {
      var s' := Step(s, ops[0]);
      assert UnderstoodAll(s'.cmds) == UnderstoodAll(s.cmds) + Meant(s, ops[0]) by {
        StepIssues(s, ops[0]);
        IssuedIsMeant(s, ops[0]);
        UnderstoodConcat(s.cmds, Issued(s, ops[0]));
      }
      RunIsUnderstood(s', ops[1..]);
      Regroup(UnderstoodAll(s.cmds), Meant(s, ops[0]), MeantAll(s', ops[1..]));
    }
  }

  // ---------------------------------------------------------------------
  // What the callers get
  // ---------------------------------------------------------------------

  /** A handle given out is a live one, new from a creation and on the caller's file from an
      import; the capabilities are as much as fits of the server's; and a call that names no
      BO, no resource or no set of capabilities fails and changes nothing. */
  lemma OutcomeFits(s: State, op: Ioctl)
    requires Inv(s) && Allowed(s, op)
    ensures var s', r := Step(s, op), Result(s, op);
            match op
            case GetCaps(capSet, size, a) =>
              if r.Caps? then r.caps <= a.caps && |r.caps| <= size && (|r.caps| == size || r.caps == a.caps)
              else capSet != 1 && capSet != 2 && r == Error(EINVAL) && s' == s
            case Create(_, _) => r.Handle? && r.handle !in s.table.live && r.handle in s'.table.live
            case MapBo(h) =>
              if h in s.table.live then r.Offset? && AtOffset(s'.table, r.offset, h) else r == Error(ENOENT) && s' == s
            case Exec(_, _) => r == Done
            case TransferToHost(h, _, _) => if Nameless(s, h) then r == Error(ENOENT) && s' == s else r == Done
            case TransferFromHost(h, _, _) => if Nameless(s, h) then r == Error(ENOENT) && s' == s else r == Done
            case Wait(h, noWait, a) =>
              if Nameless(s, h) then r == Error(ENOENT) && s' == s
              else (r == Error(EBUSY) <==> noWait && a.busy != 0) && (r != Error(EBUSY) ==> r == Done)
            case GemClose(h, _) => r == Done && h !in s'.table.live && (h !in s.table.live ==> s' == s)
            case HandleToFd(h, placeholder, _) =>
              if h !in s.table.live then r == Error(ENOENT) && s' == s
              else r.Fd? && (if s.table.live[h].backing.Some? then Some(r.file) == s.table.live[h].backing else r.file == placeholder)
            case FdToHandle(fd, _) =>
              r.Handle? && r.handle in s'.table.live && s'.table.live[r.handle].backing == fd
  {
    match op
    case MapBo(h) =>
      if h in s.table.live {
        assert BoOk(s.table.live[h], h);
      }
    case FdToHandle(fd, _) =>
      if fd.Some? && Known(s.table, fd.value.key) {
        assert BackingSeen(s, s.table.live[FindBacked(s.table, fd.value.key)]);
      }
    case _ =>
  }

  /** A file of which nothing is known gets a BO with the length of the file, no resource and
      no geometry. */
  lemma UnknownImported(s: State, f: File, size: nat)
    requires Inv(s) && Allowed(s, FdToHandle(Some(f), size))
    requires !Known(s.table, f.key) && Latest(s.stores, f.key).None?
    ensures var t, h := Step(s, FdToHandle(Some(f), size)).table, s.table.next;
            h in t.live && t.live[h] == FREE.(handle := h, backing := Some(f), size := Wrap32(size), isAhb := !f.memfd)
  {
    CacheTellsLatest(s.stores, f.key);
  }

  /** A BO is marked as a hardware buffer exactly if it is on a file that is no memfd. */
  predicate KindIs(bo: Bo) {
    bo.isAhb <==> bo.backing.Some? && !bo.backing.value.memfd
  }

  lemma StepKeepsKinds(s: State, op: Ioctl)
    requires Inv(s) && Allowed(s, op) && forall h :: h in s.table.live ==> KindIs(s.table.live[h])
    ensures forall h :: h in Step(s, op).table.live ==> KindIs(Step(s, op).table.live[h])
  {
    if op.FdToHandle? && op.fd.Some? && Latest(s.stores, op.fd.value.key).Some? {
      CacheTellsLatest(s.stores, op.fd.value.key);
      LatestIsSeen(s, s.stores, op.fd.value.key);
    } else if op.FdToHandle? && op.fd.Some? {
      CacheTellsLatest(s.stores, op.fd.value.key);
    }
  }

  lemma {:induction false} LatestIsSeen(s: State, h: seq<Entry>, k: Key)
    requires (forall i :: 0 <= i < |h| ==> RecordSeen(s, h[i])) && Latest(h, k).Some?
    ensures k in s.files && Latest(h, k).value.isAhb == !s.files[k].memfd
  {
    if h[|h| - 1].key == k {
      assert RecordSeen(s, h[|h| - 1]);
    } else {
      LatestIsSeen(s, h[..|h| - 1], k);
    }
  }

  lemma {:induction false} RunKeepsKinds(s: State, ops: seq<Ioctl>)
    requires Inv(s) && Schedule(s, ops) && forall h :: h in s.table.live ==> KindIs(s.table.live[h])
    ensures forall h :: h in Run(s, ops).table.live ==> KindIs(Run(s, ops).table.live[h])
    decreases |ops|
  {
    if ops != [] {
      StepKeepsKinds(s, ops[0]);
      StepKeepsInv(s, ops[0]);
      RunKeepsKinds(Step(s, ops[0]), ops[1..]);
    }
  }

  /** Server, BO and cache agree on a new resource: what the server is asked for is what the
      caller gave, the BO has its geometry and data size, and the id of both is the BO's
      handle below version 3 and the server's from version 3 on. */
  lemma CreatedAsAsked(s: State, args: CreateArgs, a: Answer)
    requires Allowed(s, Create(args, a))
    ensures var s', h := Step(s, Create(args, a)), s.table.next;
            && h in s'.table.live && |s'.cmds| == |s.cmds| + 1
            && var bo, r := s'.table.live[h], Understood(s'.cmds[|s.cmds|]);
               && r.NewResource? && r.target == args.target && r.format == args.format && r.bind == args.bind
               && r.width == args.width == bo.width && r.height == args.height == bo.height && r.depth == args.depth
               && r.arraySize == args.arraySize && r.lastLevel == args.lastLevel && r.nrSamples == args.nrSamples
               && r.dataSize == bo.size >= args.size && bo.stride == args.stride
               && (s.version < 3 ==> r.id == bo.handle == bo.res) && (s.version >= 3 ==> r.id == 0 && bo.res == a.resId)
               && bo.backing == (if args.size > 0 then Some(a.file) else None)
               && (args.size > 0 && bo.res != 0 ==> s'.stores == s.stores + [Entry(a.file.key, RecordOf(bo))])
  {
  }
}
