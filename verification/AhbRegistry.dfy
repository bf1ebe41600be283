/**
 The table from inodes to Android hardware buffers (compositor/native/src/ahb_registry.c):
 a compacting array that must act as a bounded map, and whose entries each hold one
 reference to their buffer.
 */
module AhbRegistry {
  import opened Common

  const AHB_REGISTRY_MAX: nat := 256

  /** A hardware buffer, by identity. */
  type Ahb = nat
  type Inode = nat

  datatype Entry = Entry(inode: Inode, ahb: Ahb)

  // ---------------------------------------------------------------------
  // The bounded map
  // ---------------------------------------------------------------------

  function Registered(m: map<Inode, Ahb>, inode: Inode, ahb: Ahb): map<Inode, Ahb> {
    if inode in m || |m| < AHB_REGISTRY_MAX then m[inode := ahb] else m
  }

  function Unregistered(m: map<Inode, Ahb>, inode: Inode): map<Inode, Ahb> {
    m - {inode}
  }

  // ---------------------------------------------------------------------
  // An array of entries as a map and as a bag of references
  // ---------------------------------------------------------------------

  function AsMap(es: seq<Entry>): map<Inode, Ahb> {
    if es == [] then map[]
    else var last := es[|es| - 1]; AsMap(es[..|es| - 1])[last.inode := last.ahb]
  }

  /** How many entries name the buffer. */
  function Naming(es: seq<Entry>, ahb: Ahb): nat {
    if es == [] then 0 else Naming(es[..|es| - 1], ahb) + (if es[|es| - 1].ahb == ahb then 1 else 0)
  }

  /** No two entries have the same inode: none overwrites another in the map. */
  predicate Distinct(es: seq<Entry>) {
    |AsMap(es)| == |es|
  }

  lemma {:induction false} MapSize(es: seq<Entry>)
    ensures |AsMap(es)| <= |es|
    ensures es != [] && Distinct(es) ==> Distinct(es[..|es| - 1]) && es[|es| - 1].inode !in AsMap(es[..|es| - 1])
  {
    if es != [] {
      MapSize(es[..|es| - 1]);
    }
  }

  /** The map has exactly the inodes of the entries, whatever their order. */
  lemma {:induction false} MapKeys(es: seq<Entry>, inode: Inode)
    ensures inode in AsMap(es) <==> exists i :: 0 <= i < |es| && es[i].inode == inode
  {
    if es != [] {
      var front := es[..|es| - 1];
      MapKeys(front, inode);
      assert forall i :: 0 <= i < |front| ==> front[i] == es[i];
      if es[|es| - 1].inode == inode {
        assert inode in AsMap(es);
      }
    }
  }

  lemma {:induction false} MapAt(es: seq<Entry>, i: nat)
    requires Distinct(es) && i < |es|
    ensures es[i].inode in AsMap(es) && AsMap(es)[es[i].inode] == es[i].ahb
  {
    MapSize(es);
    if i < |es| - 1 {
      MapAt(es[..|es| - 1], i);
    }
  }

  lemma Append(es: seq<Entry>, e: Entry)
    ensures AsMap(es + [e]) == AsMap(es)[e.inode := e.ahb]
    ensures Distinct(es) && e.inode !in AsMap(es) ==> Distinct(es + [e])
  {
    assert (es + [e])[..|es|] == es;
  }

  /** Overwriting one entry, by one with the same inode or a new one. */
  lemma {:induction false} ReplaceInMap(es: seq<Entry>, i: nat, e: Entry)
    requires Distinct(es) && i < |es|
    requires e.inode == es[i].inode || e.inode !in AsMap(es)
    ensures AsMap(es[i := e]) == (AsMap(es) - {es[i].inode})[e.inode := e.ahb]
  {
    var front, last := es[..|es| - 1], es[|es| - 1];
    MapSize(es);
    UpdateFront(es, i, e);
    if i == |front| {
      assert AsMap(es) - {last.inode} == AsMap(front);
    } else {
      MapAt(front, i);
      ReplaceInMap(front, i, e);
      Swap(AsMap(front), front[i].inode, e.inode, e.ahb, last.inode, last.ahb);
    }
  }

  lemma UpdateFront(es: seq<Entry>, i: nat, e: Entry)
    requires i < |es|
    ensures var front, es' := es[..|es| - 1], es[i := e];
            && es'[..|es| - 1] == (if i == |front| then front else front[i := e])
            && es'[|es| - 1] == if i == |front| then e else es[|es| - 1]
  {}

  lemma Swap(m: map<Inode, Ahb>, out: Inode, inode: Inode, ahb: Ahb, last: Inode, lastAhb: Ahb)
    requires out != last && inode != last
    ensures (m - {out})[inode := ahb][last := lastAhb] == (m[last := lastAhb] - {out})[inode := ahb]
  {}

  lemma {:induction false} NamingReplaced(es: seq<Entry>, i: nat, e: Entry, ahb: Ahb)
    requires i < |es|
    ensures Naming(es[i := e], ahb)
         == Naming(es, ahb) - (if es[i].ahb == ahb then 1 else 0) + (if e.ahb == ahb then 1 else 0)
  {
    UpdateFront(es, i, e);
    if i < |es| - 1 {
      NamingReplaced(es[..|es| - 1], i, e, ahb);
    }
  }

  lemma NamingAppended(es: seq<Entry>, e: Entry, ahb: Ahb)
    ensures Naming(es + [e], ahb) == Naming(es, ahb) + (if e.ahb == ahb then 1 else 0)
  {
    assert (es + [e])[..|es|] == es;
  }

  /** Swap-with-last removal. */
  function Removed(es: seq<Entry>, i: nat): seq<Entry>
    requires i < |es|
  {
    es[i := es[|es| - 1]][..|es| - 1]
  }

  /** Although it reorders the slots, it removes exactly one key ... */
  lemma RemoveFromMap(es: seq<Entry>, i: nat)
    requires Distinct(es) && i < |es|
    ensures AsMap(Removed(es, i)) == AsMap(es) - {es[i].inode}
    ensures es[i].inode in AsMap(es)
  {
    var front, last := es[..|es| - 1], es[|es| - 1];
    MapSize(es);
    MapAt(es, i);
    UpdateFront(es, i, last);
    if i == |front| {
      assert AsMap(es) - {last.inode} == AsMap(front);
    } else {
      assert front[i] == es[i];
      MapAt(front, i);
      ReplaceInMap(front, i, last);
      SwapOut(AsMap(front), es[i].inode, last.inode, last.ahb);
    }
  }

  lemma SwapOut(m: map<Inode, Ahb>, out: Inode, inode: Inode, ahb: Ahb)
    requires out in m && inode !in m
    ensures (m - {out})[inode := ahb] == m[inode := ahb] - {out}
  {}

  /** ... and one reference. */
  lemma NamingRemoved(es: seq<Entry>, i: nat, ahb: Ahb)
    requires i < |es|
    ensures Naming(Removed(es, i), ahb) == Naming(es, ahb) - (if es[i].ahb == ahb then 1 else 0)
  {
    var front, last := es[..|es| - 1], es[|es| - 1];
    UpdateFront(es, i, last);
    if i < |front| {
      NamingReplaced(front, i, last, ahb);
    }
  }

  /** Where the linear scan of every operation stops: at the inode's entry or at the end. */
  function Slot(es: seq<Entry>, inode: Inode): (i: nat)
    ensures i <= |es| && (i < |es| ==> es[i].inode == inode)
    ensures forall j :: 0 <= j < i ==> es[j].inode != inode
  {
    if es == [] || es[0].inode == inode then 0 else 1 + Slot(es[1..], inode)
  }

  lemma SlotInMap(es: seq<Entry>, inode: Inode)
    ensures Slot(es, inode) < |es| <==> inode in AsMap(es)
  {
    MapKeys(es, inode);
  }

  /** The entries after ahb_registry_register and after ahb_registry_unregister. */
  function Put(es: seq<Entry>, e: Entry): seq<Entry> {
    var i := Slot(es, e.inode);
    if i < |es| then es[i := e] else if |es| < AHB_REGISTRY_MAX then es + [e] else es
  }

  function Cut(es: seq<Entry>, inode: Inode): seq<Entry> {
    var i := Slot(es, inode);
    if i < |es| then Removed(es, i) else es
  }

  /** What each operation does to the entries, as a map. */
  lemma UpdateIsRegistered(es: seq<Entry>, i: nat, e: Entry)
    requires Distinct(es) && i < |es| && es[i].inode == e.inode
    ensures AsMap(es[i := e]) == Registered(AsMap(es), e.inode, e.ahb) && Distinct(es[i := e])
  {
    MapAt(es, i);
    ReplaceInMap(es, i, e);
    var m := AsMap(es);
    assert (m - {e.inode})[e.inode := e.ahb] == m[e.inode := e.ahb];
    assert m[e.inode := e.ahb].Keys == m.Keys;
  }

  lemma AppendIsRegistered(es: seq<Entry>, e: Entry)
    requires Distinct(es) && e.inode !in AsMap(es) && |es| < AHB_REGISTRY_MAX
    ensures AsMap(es + [e]) == Registered(AsMap(es), e.inode, e.ahb) && Distinct(es + [e])
  {
    Append(es, e);
  }

  lemma RemovedIsUnregistered(es: seq<Entry>, i: nat)
    requires Distinct(es) && i < |es|
    ensures AsMap(Removed(es, i)) == Unregistered(AsMap(es), es[i].inode) && Distinct(Removed(es, i))
  {
    RemoveFromMap(es, i);
    var m, m' := AsMap(es), AsMap(Removed(es, i));
    assert m'.Keys == m.Keys - {es[i].inode};
  }

  lemma PutIsRegistered(es: seq<Entry>, e: Entry)
    requires Distinct(es) && |es| <= AHB_REGISTRY_MAX
    ensures AsMap(Put(es, e)) == Registered(AsMap(es), e.inode, e.ahb)
    ensures Distinct(Put(es, e)) && |Put(es, e)| <= AHB_REGISTRY_MAX
  {
    SlotInMap(es, e.inode);
    if Slot(es, e.inode) < |es| {
      UpdateIsRegistered(es, Slot(es, e.inode), e);
    } else if |es| < AHB_REGISTRY_MAX {
      AppendIsRegistered(es, e);
    }
  }

  lemma CutIsUnregistered(es: seq<Entry>, inode: Inode)
    requires Distinct(es)
    ensures AsMap(Cut(es, inode)) == Unregistered(AsMap(es), inode)
    ensures Distinct(Cut(es, inode)) && |Cut(es, inode)| <= |es|
  {
    SlotInMap(es, inode);
    if Slot(es, inode) < |es| {
      RemovedIsUnregistered(es, Slot(es, inode));
    } else {
      assert AsMap(es) - {inode} == AsMap(es);
    }
  }

  // ---------------------------------------------------------------------
  // Who holds references
  // ---------------------------------------------------------------------

  /** Reference counts; a buffer without references has been freed. */
  type Counts = map<Ahb, nat>

  function Count(c: Counts, ahb: Ahb): nat {
    if ahb in c then c[ahb] else 0
  }

  function Inc(c: Counts, ahb: Ahb): Counts {
    c[ahb := Count(c, ahb) + 1]
  }

  function Dec(c: Counts, ahb: Ahb): Counts {
    c[ahb := if Count(c, ahb) > 0 then Count(c, ahb) - 1 else 0]
  }

  /** Every reference is accounted for: each buffer's count is the number of entries naming
      it, plus the lookups not yet released, plus what anyone else holds. */
  ghost predicate Conserved(refs: Counts, es: seq<Entry>, lookups: Counts, owners: Counts) {
    forall b: Ahb :: Count(refs, b) == Naming(es, b) + Count(lookups, b) + Count(owners, b)
  }

  lemma {:induction false} NamedAtLeastOnce(es: seq<Entry>, i: nat)
    requires i < |es|
    ensures Naming(es, es[i].ahb) >= 1
  {
    if i < |es| - 1 {
      NamedAtLeastOnce(es[..|es| - 1], i);
    }
  }

  /** Releasing the old buffer of an entry and acquiring its new one, which the caller owns:
      neither is freed in between, even when they are the same. */
  lemma ReplaceConserves(refs: Counts, es: seq<Entry>, lookups: Counts, owners: Counts, i: nat, e: Entry)
    requires Conserved(refs, es, lookups, owners) && i < |es| && Count(owners, e.ahb) > 0
    ensures Count(refs, es[i].ahb) > 0 && Count(Dec(refs, es[i].ahb), e.ahb) > 0
    ensures Conserved(Inc(Dec(refs, es[i].ahb), e.ahb), es[i := e], lookups, owners)
  {
    NamedAtLeastOnce(es, i);
    var refs' := Inc(Dec(refs, es[i].ahb), e.ahb);
    forall b: Ahb ensures Count(refs', b) == Naming(es[i := e], b) + Count(lookups, b) + Count(owners, b) {
      NamingReplaced(es, i, e, b);
    }
  }

  lemma AppendConserves(refs: Counts, es: seq<Entry>, lookups: Counts, owners: Counts, e: Entry)
    requires Conserved(refs, es, lookups, owners)
    ensures Conserved(Inc(refs, e.ahb), es + [e], lookups, owners)
  {
    forall b: Ahb ensures Count(Inc(refs, e.ahb), b) == Naming(es + [e], b) + Count(lookups, b) + Count(owners, b) {
      NamingAppended(es, e, b);
    }
  }

  lemma RemoveConserves(refs: Counts, es: seq<Entry>, lookups: Counts, owners: Counts, i: nat)
    requires Conserved(refs, es, lookups, owners) && i < |es|
    ensures Count(refs, es[i].ahb) > 0
    ensures Conserved(Dec(refs, es[i].ahb), Removed(es, i), lookups, owners)
  {
    NamedAtLeastOnce(es, i);
    var refs' := Dec(refs, es[i].ahb);
    forall b: Ahb ensures Count(refs', b) == Naming(Removed(es, i), b) + Count(lookups, b) + Count(owners, b) {
      NamingRemoved(es, i, b);
    }
  }

  /** The counts after ahb_registry_register, after ahb_registry_unregister and after
      ahb_registry_lookup. */
  function PutRefs(refs: Counts, es: seq<Entry>, e: Entry): Counts {
    var i := Slot(es, e.inode);
    if i < |es| then Inc(Dec(refs, es[i].ahb), e.ahb) else if |es| < AHB_REGISTRY_MAX then Inc(refs, e.ahb) else refs
  }

  function CutRefs(refs: Counts, es: seq<Entry>, inode: Inode): Counts {
    var i := Slot(es, inode);
    if i < |es| then Dec(refs, es[i].ahb) else refs
  }

  function Taken(c: Counts, found: Option<Ahb>): Counts {
    match found
    case None => c
    case Some(ahb) => Inc(c, ahb)
  }

  lemma {:induction false} NamingFirst(es: seq<Entry>, ahb: Ahb)
    requires es != []
    ensures Naming(es, ahb) == Naming(es[1..], ahb) + (if es[0].ahb == ahb then 1 else 0)
  {
    if |es| > 1 {
      NamingFirst(es[..|es| - 1], ahb);
      assert es[..|es| - 1][1..] == es[1..][..|es| - 2];
    }
  }

  lemma ConservedTail(refs: Counts, es: seq<Entry>, lookups: Counts, owners: Counts)
    requires Conserved(refs, es, lookups, owners) && es != []
    ensures Count(refs, es[0].ahb) > 0
    ensures Conserved(Dec(refs, es[0].ahb), es[1..], lookups, owners)
  {
    NamedAtLeastOnce(es, 0);
    forall b: Ahb ensures Count(Dec(refs, es[0].ahb), b) == Naming(es[1..], b) + Count(lookups, b) + Count(owners, b) {
      NamingFirst(es, b);
    }
  }

  // ---------------------------------------------------------------------
  // The registry
  // ---------------------------------------------------------------------

  class Registry {
    var entries: array<Entry>
    var count: nat
    /** The reference counts of all buffers, kept by the system. */
    var refs: Counts
    /** The first count entries. */
    ghost var live: seq<Entry>
    /** References handed out by lookup and not yet released, and those of anyone else. */
    ghost var lookups: Counts
    ghost var owners: Counts

    /** Inodes are distinct and every reference is accounted for. */
    ghost predicate Valid()
      reads this, entries
    {
      Compact() && Distinct(live) && Conserved(refs, live, lookups, owners)
    }

    ghost predicate Compact()
      reads this`entries, this`count, this`live, entries
    {
      entries.Length == AHB_REGISTRY_MAX && count <= AHB_REGISTRY_MAX && live == entries[..count]
    }

    ghost function Map(): map<Inode, Ahb>
      reads this`live
    {
      AsMap(live)
    }

    constructor (outside: Counts)
      ensures Valid() && Map() == map[] && fresh(entries)
      ensures owners == outside && lookups == map[]
    {
      entries := new Entry[AHB_REGISTRY_MAX](_ => Entry(0, 0));
      count, refs, live, lookups, owners := 0, outside, [], map[], outside;
    }

    /** AHardwareBuffer_acquire is only for live buffers. */
    method Acquire(ahb: Ahb)
      requires Count(refs, ahb) > 0
      modifies this`refs
      ensures refs == Inc(old(refs), ahb)
    {
      refs := Inc(refs, ahb);
    }

    /** AHardwareBuffer_release frees the buffer with its last reference. */
    method Release(ahb: Ahb)
      requires Count(refs, ahb) > 0
      modifies this`refs
      ensures refs == Dec(old(refs), ahb)
    {
      refs := Dec(refs, ahb);
    }

    /** A reference comes with a handle, and goes again when its owner releases it. */
    method Arrive(ahb: Ahb)
      requires Valid()
      modifies this`refs, this`owners
      ensures Valid() && refs == Inc(old(refs), ahb) && owners == Inc(old(owners), ahb)
    {
      refs, owners := Inc(refs, ahb), Inc(owners, ahb);
    }

    method GiveBack(ahb: Ahb)
      requires Valid() && Count(owners, ahb) > 0
      modifies this`refs, this`owners
      ensures Valid() && refs == Dec(old(refs), ahb) && owners == Dec(old(owners), ahb)
    {
      Release(ahb);
      owners := Dec(owners, ahb);
    }

    /** The linear scan of every operation. */
    method IndexOf(inode: Inode) returns (i: nat)
      requires Compact()
      ensures i == Slot(live, inode) && i <= count && (i < count <==> inode in Map())
      ensures i < count ==> entries[i] == live[i]
    {
      i := 0;
      SlotInMap(live, inode);
      while i < count
        invariant i <= count && forall j :: 0 <= j < i ==> live[j].inode != inode
      {
        if entries[i].inode == inode {
          assert live[i] == entries[i];
          return;
        }
        i := i + 1;
      }
    }

    method SetEntry(i: nat, e: Entry)
      requires Compact() && i < count
      modifies this`live, entries
      ensures Compact() && live == old(live)[i := e]
    {
      entries[i] := e;
      live := live[i := e];
    }

    method PushEntry(e: Entry)
      requires Compact() && count < AHB_REGISTRY_MAX
      modifies this`live, this`count, entries
      ensures Compact() && live == old(live) + [e]
    {
      entries[count] := e;
      count := count + 1;
      live := live + [e];
    }

    method SwapWithLast(i: nat)
      requires Compact() && i < count
      modifies this`live, this`count, entries
      ensures Compact() && live == Removed(old(live), i)
    {
      entries[i] := entries[count - 1];
      entries[count - 1] := Entry(0, 0);
      count := count - 1;
      live := Removed(live, i);
    }

    /** The entry of an inode gets another buffer. */
    method Update(i: nat, e: Entry)
      requires Valid() && i < count && entries[i].inode == e.inode && Count(owners, e.ahb) > 0
      modifies this`refs, this`live, entries
      ensures Valid() && Map() == Registered(old(Map()), e.inode, e.ahb)
      ensures live == old(live)[i := e] && refs == Inc(Dec(old(refs), old(live)[i].ahb), e.ahb)
    {
      UpdateIsRegistered(live, i, e);
      ReplaceConserves(refs, live, lookups, owners, i, e);
      Release(entries[i].ahb);
      Acquire(e.ahb);
      SetEntry(i, e);
    }

    /** A new inode gets an entry. */
    method Add(e: Entry)
      requires Valid() && count < AHB_REGISTRY_MAX && e.inode !in Map() && Count(owners, e.ahb) > 0
      modifies this`refs, this`count, this`live, entries
      ensures Valid() && Map() == Registered(old(Map()), e.inode, e.ahb)
      ensures live == old(live) + [e] && refs == Inc(old(refs), e.ahb)
    {
      ghost var was := live;
      AppendConserves(refs, was, lookups, owners, e);
      Acquire(e.ahb);
      PushEntry(e);
      AppendIsRegistered(was, e);
    }

    /** An entry goes. */
    method Remove(i: nat)
      requires Valid() && i < count
      modifies this`refs, this`count, this`live, entries
      ensures Valid() && Map() == Unregistered(old(Map()), old(live)[i].inode)
      ensures live == Removed(old(live), i) && refs == Dec(old(refs), old(live)[i].ahb)
    {
      RemovedIsUnregistered(live, i);
      RemoveConserves(refs, live, lookups, owners, i);
      Release(entries[i].ahb);
      SwapWithLast(i);
    }

    /** ahb_registry_register. The caller owns a reference, so a buffer registered again
        under its own inode survives the release that comes before the acquire. */
    method Register(inode: Inode, ahb: Ahb)
      requires Valid() && Count(owners, ahb) > 0
      modifies this`refs, this`count, this`live, entries
      ensures Valid() && Map() == Registered(old(Map()), inode, ahb)
      ensures var e := Entry(inode, ahb); live == Put(old(live), e) && refs == PutRefs(old(refs), old(live), e)
    {
      var i := IndexOf(inode);
      var e := Entry(inode, ahb);
      if i < count {
        Update(i, e);
        return;
      }
      if count >= AHB_REGISTRY_MAX {
        return;
      }
      Add(e);
    }

    /** ahb_registry_unregister. */
    method Unregister(inode: Inode)
      requires Valid()
      modifies this`refs, this`count, this`live, entries
      ensures Valid() && Map() == Unregistered(old(Map()), inode)
      ensures live == Cut(old(live), inode) && refs == CutRefs(old(refs), old(live), inode)
    {
      var i := IndexOf(inode);
      if i < count {
        Remove(i);
      } else {
        assert AsMap(live) - {inode} == AsMap(live);
      }
    }

    /** ahb_registry_lookup: the caller gets a reference of its own. */
    method Lookup(inode: Inode) returns (result: Option<Ahb>)
      requires Valid()
      modifies this`refs, this`lookups
      ensures Valid() && Map() == old(Map())
      ensures (result.Some? <==> inode in Map()) && (result.Some? ==> result.value == Map()[inode])
      ensures lookups == Taken(old(lookups), result) && refs == Taken(old(refs), result)
    {
      result := None;
      var i := IndexOf(inode);
      if i < count {
        MapAt(live, i);
        NamedAtLeastOnce(live, i);
        Acquire(entries[i].ahb);
        result := Some(entries[i].ahb);
        lookups := Inc(lookups, entries[i].ahb);
      }
    }

    /** A caller of lookup is done with its buffer. */
    method EndLookup(ahb: Ahb)
      requires Valid() && Count(lookups, ahb) > 0
      modifies this`refs, this`lookups
      ensures Valid() && Map() == old(Map())
      ensures lookups == Dec(old(lookups), ahb) && refs == Dec(old(refs), ahb)
    {
      Release(ahb);
      lookups := Dec(lookups, ahb);
    }

    /** ahb_registry_destroy. */
    method Destroy()
      requires Valid()
      modifies this`refs, this`count, this`live, entries
      ensures Valid() && Map() == map[]
    {
      ReleaseAll();
      forall j | 0 <= j < entries.Length {
        entries[j] := Entry(0, 0);
      }
      count, live := 0, [];
    }

    method ReleaseAll()
      requires Valid()
      modifies this`refs
      ensures Conserved(refs, [], lookups, owners)
    {
      var i := 0;
      assert live[0..] == live;
      while i < count
        invariant i <= count && Conserved(refs, live[i..], lookups, owners)
      {
        ConservedTail(refs, live[i..], lookups, owners);
        assert live[i..][1..] == live[i + 1..];
        Release(entries[i].ahb);
        i := i + 1;
      }
      assert live[i..] == [];
    }

    /** A registered buffer is never freed. */
    lemma RegisteredIsAlive(inode: Inode)
      requires Valid() && inode in Map()
      ensures Count(refs, Map()[inode]) > 0
    {
      MapKeys(live, inode);
      var i :| 0 <= i < |live| && live[i].inode == inode;
      MapAt(live, i);
      NamedAtLeastOnce(live, i);
    }
  }
}
