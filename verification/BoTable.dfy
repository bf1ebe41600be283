/**
 The buffer-object table of shims/native/drm-shim/src/drm_shim.c: an array indexed by
 handle that doubles when it is full, with fake mmap offsets derived from the handle.
 */
module BoTable {
  import opened Common
  import opened LittleEndian
  import opened InodeCache
  import opened VtestWire

  const MAX_BO_TABLE_INITIAL: nat := 1024
  const MMAP_OFFSET_BASE: nat := 0x1000_0000
  const MMAP_OFFSET_STRIDE: nat := 0x10_0000

  /** struct drm_shim_bo; a slot with handle 0 is free. */
  datatype Bo = Bo(
    handle: nat, res: Word, backing: Option<File>, size: Word, stride: Word, width: Word, height: Word,
    mapped: bool, offset: nat, isAhb: bool)

  const FREE: Bo := Bo(0, 0, None, 0, 0, 0, 0, false, 0, false)

  function OffsetOf(handle: nat): nat {
    MMAP_OFFSET_BASE + handle * MMAP_OFFSET_STRIDE
  }

  /** The abstract table: the handles given out so far are those below next, the live ones
      are those of the map. */
  datatype Table = Table(next: nat, live: map<nat, Bo>)

  const NO_BOS: Table := Table(1, map[])

  predicate TableInv(t: Table) {
    && t.next >= 1
    && (forall h :: h in t.live ==> 0 < h < t.next && BoOk(t.live[h], h))
  }

  predicate BoOk(bo: Bo, h: nat) {
    bo.handle == h && (bo.mapped ==> bo.offset == OffsetOf(h))
  }

  /** bo_alloc. */
  function Allocated(t: Table): Table {
    Table(t.next + 1, t.live[t.next := FREE.(handle := t.next)])
  }

  function Get(t: Table, h: nat): Option<Bo> {
    if h in t.live then Some(t.live[h]) else None
  }

  function Set(t: Table, bo: Bo): Table {
    t.(live := t.live[bo.handle := bo])
  }

  /** gem_close on the table. */
  function Dropped(t: Table, h: nat): Table {
    t.(live := t.live - {h})
  }

  function WithOffset(bo: Bo): Bo {
    if bo.mapped then bo else bo.(mapped := true, offset := OffsetOf(bo.handle))
  }

  /** The live BO that has been given the offset. */
  predicate AtOffset(t: Table, offset: nat, h: nat) {
    h in t.live && t.live[h].mapped && t.live[h].offset == offset
  }

  /** Offsets tell handles apart. */
  lemma OffsetsDiffer(t: Table, offset: nat, a: nat, b: nat)
    requires TableInv(t) && AtOffset(t, offset, a) && AtOffset(t, offset, b)
    ensures a == b
  {
    assert BoOk(t.live[a], a) && BoOk(t.live[b], b);
  }

  function Doubled(capacity: nat): nat {
    if capacity == 0 then MAX_BO_TABLE_INITIAL else 2 * capacity
  }

  predicate Backs(bo: Bo, key: Key) {
    bo.backing.Some? && bo.backing.value.key == key
  }

  // ---------------------------------------------------------------------
  // The array
  // ---------------------------------------------------------------------

  class Bos {
    var table: array<Bo>
    var next: nat
    ghost var t: Table

    /** Every handle given out has a slot. */
    ghost predicate Valid()
      reads this, table
    {
      Slots() && (next == 1 || next <= table.Length)
    }

    ghost predicate Slots()
      reads this, table
    {
      && TableInv(t) && next == t.next
      && (forall h :: h in t.live ==> h < table.Length && table[h] == t.live[h])
      && (forall i :: 0 <= i < table.Length && i !in t.live ==> table[i].handle == 0)
    }

    constructor ()
      ensures Valid() && t == NO_BOS && fresh(table)
    {
      table := new Bo[0];
      next, t := 1, NO_BOS;
    }

    /** The capacity that bo_alloc grows to so that handle h has a slot: one doubling, if that
        is enough. */
    method Capacity(h: nat) returns (cap: nat)
      requires h >= table.Length
      ensures cap > h && (h < Doubled(table.Length) ==> cap == Doubled(table.Length))
    {
      cap := if table.Length != 0 then table.Length * 2 else MAX_BO_TABLE_INITIAL;
      while cap <= h
        invariant cap >= 1 && (cap == Doubled(table.Length) || Doubled(table.Length) <= h)
        decreases h - cap
      {
        cap := cap * 2;
      }
    }

    /** realloc, with the new slots zeroed. */
    method Grow(cap: nat)
      requires Slots() && cap > table.Length
      modifies this`table
      ensures Slots() && fresh(table) && table.Length == cap
    {
      var bigger := new Bo[cap](_ => FREE);
      for i := 0 to table.Length
        invariant table == old(table)
        invariant forall j :: 0 <= j < i ==> bigger[j] == table[j]
        invariant forall j :: i <= j < cap ==> bigger[j] == FREE
      {
        bigger[i] := table[i];
      }
      table := bigger;
    }

    /** bo_alloc. */
    method Alloc() returns (h: nat)
      requires Valid()
      modifies this, table
      ensures Valid() && (table == old(table) || fresh(table))
      ensures h == old(next) && h !in old(t).live && t == Allocated(old(t))
      ensures table.Length == if h < old(table.Length) then old(table.Length) else Doubled(old(table.Length))
    {
      h := next;
      next := next + 1;
      t := t.(next := next);
      if h >= table.Length {
        var cap := Capacity(h);
        Grow(cap);
      }
      table[h] := FREE.(handle := h);
      t := t.(live := t.live[h := FREE.(handle := h)]);
    }

    /** bo_lookup. */
    method Lookup(h: nat) returns (r: Option<Bo>)
      requires Valid()
      ensures r == Get(t, h)
    {
      if h == 0 || h >= table.Length {
        return None;
      }
      if table[h].handle == 0 {
        return None;
      }
      r := Some(table[h]);
    }

    /** The fields of a live BO are written. */
    method Write(bo: Bo)
      requires Valid() && bo.handle in t.live && BoOk(bo, bo.handle)
      modifies this`t, table
      ensures Valid() && t == Set(old(t), bo)
    {
      table[bo.handle] := bo;
      t := Set(t, bo);
    }

    /** The slot of a closed BO is zeroed. */
    method Clear(h: nat)
      requires Valid() && h in t.live
      modifies this`t, table
      ensures Valid() && t == Dropped(old(t), h)
    {
      table[h] := FREE;
      t := Dropped(t, h);
    }

    /** shim_map. */
    method MapOffset(h: nat) returns (offset: Option<nat>)
      requires Valid()
      modifies this`t, table
      ensures Valid() && (h !in old(t).live ==> offset == None && t == old(t))
      ensures h in old(t).live ==> offset == Some(OffsetOf(h)) && t == Set(old(t), WithOffset(old(t).live[h]))
    {
      var bo := Lookup(h);
      if bo.None? {
        return None;
      }
      Write(WithOffset(bo.value));
      offset := Some(WithOffset(bo.value).offset);
    }

    /** bo_lookup_by_offset. */
    method LookupByOffset(offset: nat) returns (r: Option<Bo>)
      requires Valid()
      ensures match r case Some(bo) => AtOffset(t, offset, bo.handle) && t.live[bo.handle] == bo
                      case None => forall h :: !AtOffset(t, offset, h)
    {
      var i := 1;
      while i < table.Length
        invariant i >= 1 && forall h: nat :: h < i ==> !AtOffset(t, offset, h)
      {
        if table[i].handle != 0 && table[i].mapped && table[i].offset == offset {
          return Some(table[i]);
        }
        i := i + 1;
      }
      r := None;
    }

    /** bo_find_by_inode. */
    method FindByInode(key: Key) returns (r: Option<nat>)
      requires Valid()
      ensures match r case Some(h) => h in t.live && Backs(t.live[h], key)
                      case None => forall h :: h in t.live ==> !Backs(t.live[h], key)
    {
      for i := 1 to next
        invariant forall h :: h < i && h in t.live ==> !Backs(t.live[h], key)
      {
        if table[i].handle != 0 && Backs(table[i], key) {
          return Some(i);
        }
      }
      r := None;
    }
  }
}
