/**
 Runs of the DRM shim, from the handshake on, in which one of its promises fails. Module
 DrmRuns says exactly when that happens.
 */
module DrmFailures {
  import opened Common
  import opened LittleEndian
  import opened InodeCache
  import opened VtestWire
  import opened BoTable
  import opened DrmShim
  import opened DrmRuns

  /** A small texture of the given data size, and the answers to its creation. */
  function Texture(size: Word): CreateArgs {
    CreateArgs(2, 1, 0, 4, 1, 1, 1, 0, 0, size, 16)
  }

  function Reply(res: Word, file: File): Answer {
    Answer(3, [], res, file, 0, [])
  }

  const MEMFD: File := File(Key(1, 1), true)
  const HARDWARE: File := File(Key(1, 2), false)

  function RecordFor(res: Word, isAhb: bool): Record {
    Record(res, 4, 1, 16, 16, isAhb)
  }

  /** One buffer more in a table and a cache that hold few. */
  lemma CreateTexture(s: State, a: Answer)
    requires s.version == 3 && s.table.next < U32 && a.resId !in s.resources && a.file.key !in s.files && a.resId != 0
    ensures Allowed(s, Create(Texture(16), a))
    ensures var bo := Bo(s.table.next, a.resId, Some(a.file), 16, 16, 4, 1, false, 0, !a.file.memfd);
            var s' := Step(s, Create(Texture(16), a));
            && s'.table == Table(s.table.next + 1, s.table.live[s.table.next := bo])
            && s'.stores == s.stores + [Entry(a.file.key, RecordFor(a.resId, !a.file.memfd))]
            && s'.ahb == (if a.file.memfd then s.ahb else s.ahb + {a.resId})
            && s'.resources == s.resources + {a.resId} && s'.files == s.files[a.file.key := a.file] && s'.version == 3
  {
    AddedIs(s.table, Created(Texture(16), a, s.table.next, a.resId));
  }

  lemma FirstStep(s: State, op: Ioctl, ops: seq<Ioctl>)
    requires Allowed(s, op) && Schedule(Step(s, op), ops)
    ensures Schedule(s, [op] + ops) && Run(s, [op] + ops) == Run(Step(s, op), ops)
  {
    assert ([op] + ops)[1..] == ops;
  }

  /** The state in which a memfd resource has been created under the id 7 and given back. */
  lemma CreatedAndClosed(name: seq<byte>) returns (s: State)
    ensures var c, a := Connected(3, name), Reply(7, MEMFD);
            && Allowed(c, Create(Texture(16), a)) && s == Step(Step(c, Create(Texture(16), a)), GemClose(1, a))
    ensures s.table == Table(2, map[]) && s.stores == [Entry(MEMFD.key, RecordFor(7, false))] && s.version == 3
    ensures s.ahb == {} && s.resources == {} && s.files == map[MEMFD.key := MEMFD] && Unref(7) in s.cmds
  {
    var c, a := Connected(3, name), Reply(7, MEMFD);
    CreateTexture(c, a);
    var s1 := Step(c, Create(Texture(16), a));
    assert s1.stores == [Entry(MEMFD.key, RecordFor(7, false))];
    s := Step(s1, GemClose(1, a));
    ClosingGivesBack(s1, 1, a);
    assert s.table.live == map[];
    assert s.cmds[|s1.cmds|] == Unref(7);
  }

  lemma ImportsStale(s: State)
    requires s.table == Table(2, map[]) && s.stores == [Entry(MEMFD.key, RecordFor(7, false))]
    requires s.resources == {} && s.files == map[MEMFD.key := MEMFD]
    ensures var op := FdToHandle(Some(MEMFD), 16);
            && Allowed(s, op) && Step(s, op).resources == {} && Step(s, op).cmds == s.cmds
            && 2 in Step(s, op).table.live && Step(s, op).table.live[2].res == 7
  {
    RecalledAlone(s.stores, []);
    AddedIs(s.table, Imported(s, Some(MEMFD), 16));
  }

  /** A memfd BO imported again after its close names a resource that the server has taken
      back. */
  lemma ReimportedMemfdIsStale(name: seq<byte>)
    ensures var a := Reply(7, MEMFD);
            var ops := [Create(Texture(16), a)] + ([GemClose(1, a)] + [FdToHandle(Some(MEMFD), 16)]);
            && Schedule(Connected(3, name), ops)
            && var s := Run(Connected(3, name), ops);
               2 in s.table.live && s.table.live[2].res == 7 && s.resources == {} && Unref(7) in s.cmds
  {
    var a := Reply(7, MEMFD);
    var c := Connected(3, name);
    var s := CreatedAndClosed(name);
    ImportsStale(s);
    RunOne(s, FdToHandle(Some(MEMFD), 16));
    FirstStep(Step(c, Create(Texture(16), a)), GemClose(1, a), [FdToHandle(Some(MEMFD), 16)]);
    FirstStep(c, Create(Texture(16), a), [GemClose(1, a)] + [FdToHandle(Some(MEMFD), 16)]);
  }

  lemma RecalledAlone(stores: seq<Entry>, others: seq<Entry>)
    requires stores == [Entry(MEMFD.key, RecordFor(7, false))] + others && |others| <= 1
    requires forall i :: 0 <= i < |others| ==> others[i].key == HARDWARE.key
    ensures Recall(Cached(stores), MEMFD.key) == Some(RecordFor(7, false))
  {
    var keys := if others == [] then {MEMFD.key} else {MEMFD.key, HARDWARE.key};
    assert KeysOf(stores) <= {MEMFD.key, HARDWARE.key};
    SmallerSet(KeysOf(stores), {MEMFD.key, HARDWARE.key});
    FewKeysNoneForgotten(stores, MEMFD.key);
    if others != [] {
      assert stores[..|stores| - 1] == [Entry(MEMFD.key, RecordFor(7, false))];
      assert stores[..|stores| - 1][..0] == [];
    }
  }

  /** From there the server uses the id 7 again, for a hardware buffer, and the memfd file is
      imported. */
  lemma ReissuedAndImported(s: State) returns (s': State)
    requires s.table == Table(2, map[]) && s.stores == [Entry(MEMFD.key, RecordFor(7, false))] && s.version == 3
    requires s.ahb == {} && s.resources == {} && s.files == map[MEMFD.key := MEMFD]
    ensures var a := Reply(7, HARDWARE);
            && Allowed(s, Create(Texture(16), a))
            && Allowed(Step(s, Create(Texture(16), a)), FdToHandle(Some(MEMFD), 16))
            && s' == Step(Step(s, Create(Texture(16), a)), FdToHandle(Some(MEMFD), 16))
    ensures s'.ahb == {7} && 2 in s'.table.live && 3 in s'.table.live
    ensures s'.table.live[2].res == 7 && s'.table.live[2].isAhb && s'.table.live[3].res == 7 && !s'.table.live[3].isAhb
  {
    var a := Reply(7, HARDWARE);
    CreateTexture(s, a);
    var s1 := Step(s, Create(Texture(16), a));
    assert !Backs(s1.table.live[2], MEMFD.key);
    assert !Known(s1.table, MEMFD.key);
    RecalledAlone(s1.stores, [Entry(HARDWARE.key, RecordFor(7, true))]);
    AddedIs(s1.table, Imported(s1, Some(MEMFD), 16));
    s' := Step(s1, FdToHandle(Some(MEMFD), 16));
  }

  /** A server that uses an id again has the resource of a live hardware buffer taken back:
      a memfd BO is created under the id and closed, a hardware buffer gets the same id, the
      memfd file is imported again, and that BO is closed. */
  lemma ReissuedIdIsGivenBack(name: seq<byte>)
    ensures var m, a := Reply(7, MEMFD), Reply(7, HARDWARE);
            var ops := [Create(Texture(16), m)] + ([GemClose(1, m)]
                       + ([Create(Texture(16), a)] + ([FdToHandle(Some(MEMFD), 16)] + [GemClose(3, m)])));
            && Schedule(Connected(3, name), ops)
            && var s := Run(Connected(3, name), ops);
               && 2 in s.table.live && s.table.live[2].res == 7 && s.table.live[2].isAhb && s.table.live[2].backing == Some(HARDWARE)
               && s.ahb == {} && s.cmds != [] && s.cmds[|s.cmds| - 1] == Unref(7)
  {
    var m, a := Reply(7, MEMFD), Reply(7, HARDWARE);
    var c := Connected(3, name);
    var c1 := Step(c, Create(Texture(16), m));
    var s := CreatedAndClosed(name);
    var s1 := Step(s, Create(Texture(16), a));
    var s2 := ReissuedAndImported(s);
    CreateTexture(s, a);
    AddedIs(s1.table, Imported(s1, Some(MEMFD), 16));
    LastClose(s2, m);
    RunOne(s2, GemClose(3, m));
    FirstStep(s1, FdToHandle(Some(MEMFD), 16), [GemClose(3, m)]);
    var rest := [FdToHandle(Some(MEMFD), 16)] + [GemClose(3, m)];
    FirstStep(s, Create(Texture(16), a), rest);
    FirstStep(c1, GemClose(1, m), [Create(Texture(16), a)] + rest);
    FirstStep(c, Create(Texture(16), m), [GemClose(1, m)] + ([Create(Texture(16), a)] + rest));
  }

  lemma LastClose(s: State, a: Answer)
    requires s.ahb == {7} && 3 in s.table.live && s.table.live[3].res == 7 && !s.table.live[3].isAhb && 2 in s.table.live
    ensures var s' := Step(s, GemClose(3, a));
            && s'.ahb == {} && s'.cmds != [] && s'.cmds[|s'.cmds| - 1] == Unref(7)
            && 2 in s'.table.live && s'.table.live[2] == s.table.live[2]
  {
  }

  /** A BO created without a size comes back from an export and import as another BO. */
  lemma SizelessExportIsAnother(name: seq<byte>)
    ensures var a := Reply(7, HARDWARE);
            && Allowed(Connected(3, name), Create(Texture(0), a))
            && var s1 := Step(Connected(3, name), Create(Texture(0), a));
               && Allowed(s1, HandleToFd(1, MEMFD, a)) && Result(s1, HandleToFd(1, MEMFD, a)) == Fd(MEMFD)
               && var s2 := Step(s1, HandleToFd(1, MEMFD, a));
                  && Allowed(s2, FdToHandle(Some(MEMFD), 0)) && Result(s2, FdToHandle(Some(MEMFD), 0)) == Handle(2)
  {
    var a := Reply(7, HARDWARE);
    var s1 := Step(Connected(3, name), Create(Texture(0), a));
    AddedIs(NO_BOS, Created(Texture(0), a, 1, 7));
    assert s1.table.live[1].backing == None;
    assert !Known(s1.table, MEMFD.key);
  }

  /** Rows that need 2^32 bytes are computed as 0, and the data size stays at 16. */
  lemma RowsOverflow()
    ensures var args := Texture(16).(stride := 0x1_0000, height := 0x1_0000);
            DataSize(args) == 16 && args.stride * args.height == U32
  {
  }

  /** The largest command buffer is submitted empty. */
  lemma LargestIsSubmittedEmpty()
    ensures Submitted(seq(U32 - 1, _ => 0)) == []
  {
    SubmitsAllIff(seq(U32 - 1, _ => 0));
  }
}
