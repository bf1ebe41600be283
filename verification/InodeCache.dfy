/**
 The inode cache of shims/native/drm-shim/src/drm_shim.c: 64 slots that remember, beyond
 the life of a buffer handle, which server resource and geometry belong to a buffer. A
 buffer is known by the (device, inode) pair that fstat gives for its descriptor.
 */
module InodeCache {
  import opened Common
  import opened LittleEndian

  const SLOTS: nat := 64

  datatype Key = Key(dev: nat, ino: nat)
  datatype Record = Record(res: Word, width: Word, height: Word, stride: Word, size: Word, isAhb: bool)
  datatype Entry = Entry(key: Key, record: Record)

  predicate Distinct(es: seq<Entry>) {
    forall i, j :: 0 <= i < j < |es| ==> es[i].key != es[j].key
  }

  predicate Holds(es: seq<Entry>, k: Key) {
    exists i :: 0 <= i < |es| && es[i].key == k
  }

  function Find(es: seq<Entry>, k: Key): (r: Option<nat>)
    ensures r.Some? ==> r.value < |es| && es[r.value].key == k
    ensures r.Some? <==> Holds(es, k)
  {
    if es == [] then None
    else if es[|es| - 1].key == k then Some(|es| - 1)
    else
      assert forall i :: 0 <= i < |es| - 1 ==> es[..|es| - 1][i] == es[i];
      Find(es[..|es| - 1], k)
  }

  /** What a lookup answers. */
  function Recall(es: seq<Entry>, k: Key): Option<Record> {
    match Find(es, k)
    case Some(i) => Some(es[i].record)
    case None => None
  }

  /** The entries after a store: in place, in the first free slot, or in slot 0. */
  function Stored(es: seq<Entry>, e: Entry): seq<Entry>
    requires |es| <= SLOTS
  {
    match Find(es, e.key)
    case Some(i) => es[i := e]
    case None => if |es| < SLOTS then es + [e] else es[0 := e]
  }

  /** A store that throws out the entry in slot 0. */
  predicate Evicts(es: seq<Entry>, e: Entry) {
    |es| == SLOTS && !Holds(es, e.key)
  }

  lemma FindsTheOnly(es: seq<Entry>, i: nat)
    requires Distinct(es) && i < |es|
    ensures Find(es, es[i].key) == Some(i)
  {
    assert Holds(es, es[i].key);
  }

  lemma StoredKeepsDistinct(es: seq<Entry>, e: Entry)
    requires Distinct(es) && |es| <= SLOTS
    ensures Distinct(Stored(es, e)) && |es| <= |Stored(es, e)| <= SLOTS
  {
    if Find(es, e.key).None? {
      assert forall i :: 0 <= i < |es| ==> es[i].key != e.key;
    }
  }

  /** A store is remembered, and what else was there is untouched, except that a full
      cache forgets the buffer in slot 0 for a new one. */
  lemma StoredRecalls(es: seq<Entry>, e: Entry, k: Key)
    requires Distinct(es) && |es| <= SLOTS
    ensures Recall(Stored(es, e), k)
         == if k == e.key then Some(e.record)
            else if Evicts(es, e) && es[0].key == k then None
            else Recall(es, k)
  {
    var es' := Stored(es, e);
    StoredKeepsDistinct(es, e);
    var at := match Find(es, e.key) case Some(i) => i case None => if |es| < SLOTS then |es| else 0;
    assert es'[at] == e;
    FindsTheOnly(es', at);
    if k != e.key && Find(es, k).Some? {
      var i := Find(es, k).value;
      if i != at {
        assert es'[i] == es[i];
        FindsTheOnly(es', i);
      } else {
        assert Evicts(es, e);
        ForgotFirst(es, e);
      }
    }
    if Find(es', k).Some? {
      var i := Find(es', k).value;
      if i != at {
        assert es[i] == es'[i];
        FindsTheOnly(es, i);
      }
    }
  }

  lemma ForgotFirst(es: seq<Entry>, e: Entry)
    requires Distinct(es) && Evicts(es, e)
    ensures !Holds(Stored(es, e), es[0].key)
  {
    assert Find(es, e.key).None?;
    assert Stored(es, e) == es[0 := e];
    assert forall i :: 0 < i < |es| ==> Stored(es, e)[i] == es[i];
  }

  // ---------------------------------------------------------------------
  // Whole runs of stores
  // ---------------------------------------------------------------------

  function Cached(h: seq<Entry>): (es: seq<Entry>)
    ensures |es| <= SLOTS && Distinct(es)
  {
    if h == [] then []
    else
      StoredKeepsDistinct(Cached(h[..|h| - 1]), h[|h| - 1]);
      Stored(Cached(h[..|h| - 1]), h[|h| - 1])
  }

  lemma CachedAfter(stores: seq<Entry>, e: Entry)
    ensures Cached(stores + [e]) == Stored(Cached(stores), e)
  {
    assert (stores + [e])[..|stores|] == stores;
  }

  /** What was stored last under the key. */
  function Latest(h: seq<Entry>, k: Key): Option<Record> {
    if h == [] then None
    else if h[|h| - 1].key == k then Some(h[|h| - 1].record)
    else Latest(h[..|h| - 1], k)
  }

  /** The n-th store of the run found the cache full, was for a new key, and k in slot 0. */
  predicate ThrewOut(h: seq<Entry>, n: nat, k: Key)
    requires n < |h|
  {
    Evicts(Cached(h[..n]), h[n]) && Cached(h[..n])[0].key == k
  }

  /** k was thrown out and has not been stored again since. */
  predicate Forgotten(h: seq<Entry>, k: Key) {
    exists n :: 0 <= n < |h| && ForgottenSince(h, n, k)
  }

  predicate ForgottenSince(h: seq<Entry>, n: nat, k: Key)
    requires n < |h|
  {
    ThrewOut(h, n, k) && forall m :: n <= m < |h| ==> h[m].key != k
  }

  /** A hit gives what was stored last; a key that has been stored is missed exactly when
      it sat in slot 0 of a full cache as another key came, and has not been stored since. */
  lemma {:induction false} CacheTellsLatest(h: seq<Entry>, k: Key)
    ensures Recall(Cached(h), k) == if Forgotten(h, k) then None else Latest(h, k)
  {
    if h != [] {
      var h', e := h[..|h| - 1], h[|h| - 1];
      CacheTellsLatest(h', k);
      StoredRecalls(Cached(h'), e, k);
      ForgottenStep(h, k);
    }
  }

  lemma ForgottenSinceStep(h: seq<Entry>, n: nat, k: Key)
    requires n < |h| - 1
    ensures ForgottenSince(h, n, k) <==> h[|h| - 1].key != k && ForgottenSince(h[..|h| - 1], n, k)
  {
    var h' := h[..|h| - 1];
    assert h'[..n] == h[..n];
    assert forall m :: n <= m < |h'| ==> h'[m] == h[m];
  }

  lemma ForgottenStep(h: seq<Entry>, k: Key)
    requires h != []
    ensures Forgotten(h, k) <==> h[|h| - 1].key != k && (ThrewOut(h, |h| - 1, k) || Forgotten(h[..|h| - 1], k))
  {
    if Forgotten(h[..|h| - 1], k) {
      var n :| 0 <= n < |h| - 1 && ForgottenSince(h[..|h| - 1], n, k);
      ForgottenSinceStep(h, n, k);
    }
    if Forgotten(h, k) {
      var n :| 0 <= n < |h| && ForgottenSince(h, n, k);
      if n < |h| - 1 {
        ForgottenSinceStep(h, n, k);
      }
    }
    if h[|h| - 1].key != k && ThrewOut(h, |h| - 1, k) {
      assert ForgottenSince(h, |h| - 1, k);
    }
  }

  function KeysOf(h: seq<Entry>): set<Key> {
    set e | e in h :: e.key
  }

  /** Distinct entries have as many keys. */
  lemma {:induction false} AsManyKeys(es: seq<Entry>)
    requires Distinct(es)
    ensures |KeysOf(es)| == |es|
  {
    if es != [] {
      var es', e := es[..|es| - 1], es[|es| - 1];
      AsManyKeys(es');
      assert es == es' + [e];
      assert KeysOf(es) == KeysOf(es') + {e.key};
      assert e.key !in KeysOf(es');
    }
  }

  lemma {:induction false} CachedKeysWereStored(h: seq<Entry>)
    ensures KeysOf(Cached(h)) <= KeysOf(h)
  {
    if h != [] {
      var h', e := h[..|h| - 1], h[|h| - 1];
      CachedKeysWereStored(h');
      forall x | x in Cached(h) ensures x.key in KeysOf(h) {
        assert x in Cached(h') || x == e;
        assert x in Cached(h') ==> x.key in KeysOf(Cached(h'));
        assert KeysOf(h') <= KeysOf(h);
      }
    }
  }

  /** As long as no more than 64 buffers have been stored, nothing is forgotten. */
  lemma FewKeysNoneForgotten(h: seq<Entry>, k: Key)
    requires |KeysOf(h)| <= SLOTS
    ensures Recall(Cached(h), k) == Latest(h, k)
  {
    CacheTellsLatest(h, k);
    forall n | 0 <= n < |h| ensures !Evicts(Cached(h[..n]), h[n]) {
      var es := Cached(h[..n]);
      AsManyKeys(es);
      CachedKeysWereStored(h[..n]);
      assert KeysOf(es) + {h[n].key} <= KeysOf(h);
      SmallerSet(KeysOf(es) + {h[n].key}, KeysOf(h));
      if !Holds(es, h[n].key) {
        assert h[n].key !in KeysOf(es);
      }
    }
  }

  lemma {:induction false} SmallerSet(a: set<Key>, b: set<Key>)
    requires a <= b
    ensures |a| <= |b|
  {
    if a != {} {
      var k :| k in a;
      SmallerSet(a - {k}, b - {k});
    }
  }

  /** n stores for n different buffers. */
  function Different(n: nat): (h: seq<Entry>)
    ensures |h| == n && forall i :: 0 <= i < n ==> h[i].key == Key(0, i)
  {
    if n == 0 then [] else Different(n - 1) + [Entry(Key(0, n - 1), Record(1, 0, 0, 0, 0, true))]
  }

  lemma StoresNew(es: seq<Entry>, e: Entry)
    requires |es| < SLOTS && forall i :: 0 <= i < |es| ==> es[i].key != e.key
    ensures Stored(es, e) == es + [e]
  {
    assert !Holds(es, e.key);
  }

  lemma {:induction false} DifferentFill(n: nat)
    requires n <= SLOTS
    ensures Cached(Different(n)) == Different(n)
  {
    if n > 0 {
      var h, e := Different(n - 1), Entry(Key(0, n - 1), Record(1, 0, 0, 0, 0, true));
      DifferentFill(n - 1);
      StoresNew(h, e);
      CachedAfter(h, e);
    }
  }

  /** Of 65 different buffers the first one is missed, although it has been stored. */
  lemma FirstOfMoreIsForgotten()
    ensures var h := Different(SLOTS + 1);
            Latest(h, Key(0, 0)).Some? && Recall(Cached(h), Key(0, 0)) == None
  {
    var h := Different(SLOTS + 1);
    DifferentFill(SLOTS);
    assert h[..SLOTS] == Different(SLOTS) && h[SLOTS].key == Key(0, SLOTS);
    assert ThrewOut(h, SLOTS, Key(0, 0)) && ForgottenSince(h, SLOTS, Key(0, 0));
    CacheTellsLatest(h, Key(0, 0));
    StoredIsLatest(h, 0);
  }

  /** Whatever is in the run has a latest store. */
  lemma {:induction false} StoredIsLatest(h: seq<Entry>, i: nat)
    requires i < |h|
    ensures Latest(h, h[i].key).Some?
  {
    if i < |h| - 1 {
      StoredIsLatest(h[..|h| - 1], i);
    }
  }

  // ---------------------------------------------------------------------
  // The array
  // ---------------------------------------------------------------------

  datatype Slot = Slot(valid: bool, key: Key, record: Record)

  class Cache {
    const slots: array<Slot>
    ghost var es: seq<Entry>

    ghost predicate Valid()
      reads this, slots
    {
      && slots.Length == SLOTS && |es| <= SLOTS && Distinct(es)
      && (forall i :: 0 <= i < |es| ==> slots[i] == Slot(true, es[i].key, es[i].record))
      && (forall i :: |es| <= i < SLOTS ==> !slots[i].valid)
    }

    constructor ()
      ensures Valid() && es == [] && fresh(slots)
    {
      slots := new Slot[SLOTS](_ => Slot(false, Key(0, 0), Record(0, 0, 0, 0, 0, false)));
      es := [];
    }

    /** The slot a store writes to. */
    method Choose(key: Key) returns (slot: nat)
      requires Valid()
      ensures slot < SLOTS
      ensures match Find(es, key)
              case Some(i) => slot == i
              case None => slot == if |es| < SLOTS then |es| else 0
    {
      var found := -1;
      var i := 0;
      while i < SLOTS
        invariant 0 <= i <= SLOTS
        invariant forall j :: 0 <= j < i && j < |es| ==> es[j].key != key
        invariant found == if i <= |es| then -1 else |es|
      {
        if slots[i].valid && slots[i].key == key {
          found := i;
          break;
        }
        if !slots[i].valid && found < 0 {
          found := i;
        }
        i := i + 1;
      }
      if i < SLOTS {
        FindsTheOnly(es, i);
      } else {
        assert !Holds(es, key);
      }
      if found < 0 {
        found := 0;
      }
      slot := found;
    }

    /** inode_cache_store; key is what fstat gives for the descriptor, None if it fails. */
    method Store(key: Option<Key>, record: Record)
      requires Valid()
      modifies this, slots
      ensures Valid()
      ensures es == if key.None? || record.res == 0 then old(es) else Stored(old(es), Entry(key.value, record))
    {
      if key.None? || record.res == 0 {
        return;
      }
      var slot := Choose(key.value);
      slots[slot] := Slot(true, key.value, record);
      StoredKeepsDistinct(es, Entry(key.value, record));
      es := Stored(es, Entry(key.value, record));
    }

    /** inode_cache_lookup. */
    method Lookup(key: Option<Key>) returns (r: Option<Record>)
      requires Valid()
      ensures r == if key.None? then None else Recall(es, key.value)
    {
      if key.None? {
        return None;
      }
      for i := 0 to SLOTS
        invariant forall j :: 0 <= j < i && j < |es| ==> es[j].key != key.value
      {
        if slots[i].valid && slots[i].key == key.value {
          FindsTheOnly(es, i);
          return Some(slots[i].record);
        }
      }
      assert !Holds(es, key.value);
      return None;
    }
  }
}
