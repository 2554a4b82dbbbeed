/**
 The pool of media frames of libvMI. Frames are counted references behind handles; an item whose count
 drops to zero is free and will be used again, under a new handle.
 */
module FramePool {

  const INVALID_HANDLE: int := -1

  /** The place of an item in the list stands for the CvMIFrame it points to, which is never replaced. */
  datatype Item = Item(handle: int, refs: int, free: bool)

  datatype Pool = Pool(items: seq<Item>, next: int, max: int)

  /** `size >= g_vMIMaxFramesInList`, an unsigned comparison: a negative limit is no limit. */
  predicate Full(size: nat, max: int) { max >= 0 && size >= max }

  function FirstFree(items: seq<Item>, i: nat): (k: nat)
    requires i <= |items|
    ensures i <= k <= |items| && (k < |items| ==> items[k].free)
    ensures forall j :: i <= j < k ==> !items[j].free
    decreases |items| - i
  {
    if i == |items| || items[i].free then i else FirstFree(items, i + 1)
  }

  function Find(items: seq<Item>, h: int, i: nat): (k: nat)
    requires i <= |items|
    ensures i <= k <= |items| && (k < |items| ==> items[k].handle == h)
    ensures forall j :: i <= j < k ==> items[j].handle != h
    decreases |items| - i
  {
    if i == |items| || items[i].handle == h then i else Find(items, h, i + 1)
  }

  /** libvmi_frame_create */
  function Create(p: Pool): (Pool, int)
  {
    var k := FirstFree(p.items, 0);
    if k < |p.items| then
      (p.(items := p.items[k := Item(p.next, p.items[k].refs + 1, false)], next := p.next + 1), p.next)
    else if Full(|p.items|, p.max) then (p, INVALID_HANDLE)
    else (p.(items := p.items + [Item(p.next, 1, false)], next := p.next + 1), p.next)
  }

  /** libvmi_frame_release */
  function Release(p: Pool, h: int): (Pool, int)
  {
    var k := Find(p.items, h, 0);
    if k == |p.items| then (p, -1)
    else
      var refs := p.items[k].refs - 1;
      var item := if refs == 0 then Item(INVALID_HANDLE, 0, true) else p.items[k].(refs := refs);
      (p.(items := p.items[k := item]), refs)
  }

  /** libvmi_frame_addref */
  function AddRef(p: Pool, h: int): (Pool, int)
  {
    var k := Find(p.items, h, 0);
    if k == |p.items| then (p, -1)
    else (p.(items := p.items[k := p.items[k].(refs := p.items[k].refs + 1)]), p.items[k].refs + 1)
  }

  /** libvMI_frame_get: which frame a handle stands for. */
  function Get(p: Pool, h: int): (k: int)
  {
    var k := Find(p.items, h, 0);
    if k == |p.items| then -1 else k
  }

  // ---- What the pool keeps ----

  predicate ItemOk(p: Pool, i: nat)
    requires i < |p.items|
  {
    var item := p.items[i];
    if item.free then item.handle == INVALID_HANDLE && item.refs == 0 else 0 <= item.handle < p.next && item.refs > 0
  }

  predicate Apart(p: Pool, i: nat, j: nat)
    requires i < j < |p.items|
  {
    p.items[i].free || p.items[i].handle != p.items[j].handle
  }

  /** An item is free exactly when its count is zero, and no two items in use have the same handle. */
  predicate PoolOk(p: Pool)
  {
    && p.next >= 0
    && (forall i :: 0 <= i < |p.items| ==> ItemOk(p, i))
    && (forall i, j :: 0 <= i < j < |p.items| ==> Apart(p, i, j))
  }

  /** The reference count behind a handle; zero if it stands for no frame. */
  function Refs(p: Pool, h: int): (n: int)
    requires PoolOk(p)
    ensures n >= 0 && (h < 0 || h >= p.next ==> n == 0)
  {
    var k := Find(p.items, h, 0);
    if h < 0 || k == |p.items| then 0 else assert ItemOk(p, k); p.items[k].refs
  }

  /** An item in use is the one its handle leads to. */
  lemma FindsItem(p: Pool, i: nat)
    requires PoolOk(p) && i < |p.items| && !p.items[i].free
    ensures Find(p.items, p.items[i].handle, 0) == i
  {
    assert ItemOk(p, i);
    forall k | 0 <= k < i ensures p.items[k].handle != p.items[i].handle {
      assert Apart(p, k, i) && ItemOk(p, k);
    }
  }

  /** Whatever is put in the place of item k, the pool is sound if the item is and its handle is new or its own. */
  lemma PutKeepsOk(p: Pool, p': Pool, k: nat)
    requires PoolOk(p) && k < |p.items| && |p'.items| == |p.items| && p'.next >= p.next
    requires forall i :: 0 <= i < |p.items| && i != k ==> p'.items[i] == p.items[i]
    requires ItemOk(p', k)
    requires || p'.items[k].free || p'.items[k].handle == p.next
             || (!p.items[k].free && p'.items[k].handle == p.items[k].handle)
    ensures PoolOk(p')
  {
    forall i | 0 <= i < |p'.items| ensures ItemOk(p', i) {
      assert ItemOk(p, i);
    }
    forall i, j | 0 <= i < j < |p'.items| ensures Apart(p', i, j) {
      assert Apart(p, i, j) && ItemOk(p, i) && ItemOk(p, j) && ItemOk(p', i) && ItemOk(p', j);
    }
  }

  /** The counts after the item in place k was changed. */
  lemma PutRefs(p: Pool, p': Pool, k: nat, h: int)
    requires PoolOk(p) && PoolOk(p') && k < |p.items| && |p'.items| == |p.items|
    requires forall i :: 0 <= i < |p.items| && i != k ==> p'.items[i] == p.items[i]
    requires h != p.items[k].handle && h != p'.items[k].handle
    ensures Refs(p', h) == Refs(p, h) && (h >= 0 ==> Get(p', h) == Get(p, h))
  {
    var i, i' := Find(p.items, h, 0), Find(p'.items, h, 0);
    if i < |p.items| { assert p'.items[i].handle == h; }
    if i' < |p.items| { assert p.items[i'].handle == h; }
  }

  /** The counts of a pool to which an item was appended. */
  lemma AppendRefs(p: Pool, p': Pool, h: int)
    requires PoolOk(p) && PoolOk(p') && |p'.items| == |p.items| + 1 && p'.items[..|p.items|] == p.items
    requires h != p'.items[|p.items|].handle
    ensures Refs(p', h) == Refs(p, h) && (h >= 0 ==> Get(p', h) == Get(p, h))
  {
    var i, i' := Find(p.items, h, 0), Find(p'.items, h, 0);
    if i < |p.items| { assert p'.items[i].handle == h; }
    if i' < |p.items| { assert p.items[i'].handle == h; }
  }

  /** The frames that handles stand for have not changed, but for this one. */
  ghost predicate Only(p: Pool, p': Pool, h: int, refs: int)
    requires PoolOk(p) && PoolOk(p')
  {
    && Refs(p', h) == refs
    && forall x :: x != h ==> Refs(p', x) == Refs(p, x) && (x >= 0 ==> Get(p', x) == Get(p, x))
  }

  /**
   A new handle has never been used, its count is one; creation fails exactly when all items are in use and
   the list has reached its limit. An item is added only when all are in use, and only up to the limit; a
   negative limit is none.
   */
  lemma CreateOk(p: Pool)
    requires PoolOk(p)
    ensures var (p', h) := Create(p);
            && PoolOk(p') && p'.max == p.max
            && (h == -1 <==> 0 <= p.max <= |p.items| && forall i :: 0 <= i < |p.items| ==> p.items[i].refs > 0)
            && (h == -1 ==> p' == p)
            && (h != -1 ==> h == p.next && p'.next == h + 1 && Only(p, p', h, 1))
            && |p.items| <= |p'.items| <= |p.items| + 1
            && (|p'.items| > |p.items| ==>
                  && (p.max < 0 || |p'.items| <= p.max)
                  && forall i :: 0 <= i < |p.items| ==> p.items[i].refs > 0)
  {
    var (p', h) := Create(p);
    var k := FirstFree(p.items, 0);
    forall i | 0 <= i < |p.items| ensures p.items[i].free <==> p.items[i].refs <= 0 { assert ItemOk(p, i); }
    if k < |p.items| {
      assert ItemOk(p, k) && ItemOk(p', k);
      PutKeepsOk(p, p', k);
      FindsItem(p', k);
      forall x | x != h ensures Refs(p', x) == Refs(p, x) && (x >= 0 ==> Get(p', x) == Get(p, x)) {
        if x >= 0 { PutRefs(p, p', k, x); }
      }
    } else if !Full(|p.items|, p.max) {
      AppendKeepsOk(p, p');
      FindsItem(p', |p.items|);
      forall x | x != h ensures Refs(p', x) == Refs(p, x) && (x >= 0 ==> Get(p', x) == Get(p, x)) {
        AppendRefs(p, p', x);
      }
    }
  }

  lemma AppendKeepsOk(p: Pool, p': Pool)
    requires PoolOk(p) && p'.items == p.items + [Item(p.next, 1, false)] && p'.next == p.next + 1
    ensures PoolOk(p')
  {
    forall i | 0 <= i < |p'.items| ensures ItemOk(p', i) {
      assert i < |p.items| ==> ItemOk(p, i);
    }
    forall i, j | 0 <= i < j < |p'.items| ensures Apart(p', i, j) {
      assert ItemOk(p, i) && (j < |p.items| ==> Apart(p, i, j));
    }
  }

  /** Releasing a handle in use takes one reference off it and no other; the last one frees the item. */
  lemma ReleaseOk(p: Pool, h: int)
    requires PoolOk(p) && Refs(p, h) > 0
    ensures var (p', refs) := Release(p, h);
            && PoolOk(p') && p'.next == p.next && p'.max == p.max
            && Only(p, p', h, Refs(p, h) - 1) && refs == Refs(p, h) - 1
    ensures Refs(p, h) > 1 ==> Get(Release(p, h).0, h) == Get(p, h)
    ensures |Release(p, h).0.items| == |p.items|
  {
    var p', k := Release(p, h).0, Find(p.items, h, 0);
    assert ItemOk(p, k);
    PutKeepsOk(p, p', k);
    forall x | x != h ensures Refs(p', x) == Refs(p, x) && (x >= 0 ==> Get(p', x) == Get(p, x)) {
      if x >= 0 { PutRefs(p, p', k, x); }
    }
    if Refs(p, h) > 1 { FindsItem(p', k); } else { Gone(p, p', h, k); }
  }

  lemma Gone(p: Pool, p': Pool, h: int, k: nat)
    requires PoolOk(p) && PoolOk(p') && h >= 0 && k < |p.items| && Find(p.items, h, 0) == k
    requires p'.items == p.items[k := Item(INVALID_HANDLE, 0, true)]
    ensures Refs(p', h) == 0
  {
    forall i | 0 <= i < |p.items| && i != k ensures p.items[i].handle != h {
      assert ItemOk(p, i);
      if !p.items[i].free { FindsItem(p, i); }
    }
  }

  lemma AddRefOk(p: Pool, h: int)
    requires PoolOk(p) && Refs(p, h) > 0
    ensures var (p', refs) := AddRef(p, h);
            && PoolOk(p') && p'.next == p.next && p'.max == p.max && |p'.items| == |p.items|
            && Only(p, p', h, Refs(p, h) + 1) && refs == Refs(p, h) + 1 && Get(p', h) == Get(p, h)
  {
    var p', k := AddRef(p, h).0, Find(p.items, h, 0);
    assert ItemOk(p, k);
    PutKeepsOk(p, p', k);
    FindsItem(p', k);
    forall x | x != h ensures Refs(p', x) == Refs(p, x) && (x >= 0 ==> Get(p', x) == Get(p, x)) {
      if x >= 0 { PutRefs(p, p', k, x); }
    }
  }

  /** A handle that was given up by all its owners, or never given out, is unknown, and using it has no effect. */
  lemma UnknownHandle(p: Pool, h: int)
    requires PoolOk(p) && h != INVALID_HANDLE && Refs(p, h) == 0
    ensures Get(p, h) == -1 && Release(p, h) == (p, -1) && AddRef(p, h) == (p, -1)
  {
    forall i | 0 <= i < |p.items| ensures p.items[i].handle != h {
      assert ItemOk(p, i);
      if !p.items[i].free { FindsItem(p, i); }
    }
  }

  predicate SomeFree(p: Pool) { exists i :: 0 <= i < |p.items| && p.items[i].free }

  /**
   The invalid handle is not treated as unknown: free items carry it. Releasing or adding a reference keeps
   the pool sound exactly when the handle is not the invalid one, or no item is free.
   */
  lemma SoundIffValidHandle(p: Pool, h: int)
    requires PoolOk(p)
    ensures PoolOk(Release(p, h).0) <==> h != INVALID_HANDLE || !SomeFree(p)
    ensures PoolOk(AddRef(p, h).0) <==> h != INVALID_HANDLE || !SomeFree(p)
  {
    var k := Find(p.items, h, 0);
    if h != INVALID_HANDLE {
      if Refs(p, h) > 0 { ReleaseOk(p, h); AddRefOk(p, h); } else { UnknownHandle(p, h); }
    } else if k < |p.items| {
      assert ItemOk(p, k);
      assert SomeFree(p);
      assert !ItemOk(Release(p, h).0, k) && !ItemOk(AddRef(p, h).0, k);
    } else {
      forall i | 0 <= i < |p.items| ensures !p.items[i].free { assert ItemOk(p, i); }
    }
  }

  // ---- The pool in memory ----

  class FrameList {
    /** `g_vMIFramesArray`, `g_vMIFramesNextHandle`, `g_vMIMaxFramesInList` */
    var items: seq<Item>
    var nextHandle: int
    var maxItems: int

    ghost function Value(): Pool
      reads this
    {
      Pool(items, nextHandle, maxItems)
    }

    constructor ()
      ensures PoolOk(Value()) && Value() == Pool([], 0, 10)
    {
      items, nextHandle, maxItems := [], 0, 10;
    }

    method FrameCreate() returns (h: int)
      modifies this
      ensures (Value(), h) == Create(old(Value()))
    {
      for i := 0 to |items|
        invariant items == old(items) && nextHandle == old(nextHandle) && maxItems == old(maxItems)
        invariant FirstFree(items, 0) == FirstFree(items, i)
      {
        if items[i].free {
          h := nextHandle;
          nextHandle := nextHandle + 1;
          items := items[i := Item(h, items[i].refs + 1, false)];
          return;
        }
      }
      if maxItems >= 0 && |items| >= maxItems {
        return INVALID_HANDLE;
      }
      h := nextHandle;
      nextHandle := nextHandle + 1;
      items := items + [Item(h, 1, false)];
    }

    method FrameRelease(h: int) returns (refs: int)
      modifies this
      ensures (Value(), refs) == Release(old(Value()), h)
    {
      for i := 0 to |items|
        invariant items == old(items) && nextHandle == old(nextHandle) && maxItems == old(maxItems)
        invariant Find(items, h, 0) == Find(items, h, i)
      {
        if items[i].handle == h {
          refs := items[i].refs - 1;
          items := items[i := items[i].(refs := refs)];
          if refs == 0 {
            items := items[i := items[i].(free := true)];
            items := items[i := items[i].(handle := INVALID_HANDLE)];
            assert items == old(items)[i := Item(INVALID_HANDLE, 0, true)];
          }
          return;
        }
      }
      return -1;
    }

    method FrameAddRef(h: int) returns (refs: int)
      modifies this
      ensures (Value(), refs) == AddRef(old(Value()), h)
    {
      for i := 0 to |items|
        invariant items == old(items) && nextHandle == old(nextHandle) && maxItems == old(maxItems)
        invariant Find(items, h, 0) == Find(items, h, i)
      {
        if items[i].handle == h {
          refs := items[i].refs + 1;
          items := items[i := items[i].(refs := refs)];
          return;
        }
      }
      return -1;
    }

    /** The place of the frame in the list, or -1. */
    method FrameGet(h: int) returns (k: int)
      ensures k == Get(Value(), h)
    {
      for i := 0 to |items|
        invariant Find(items, h, 0) == Find(items, h, i)
      {
        if items[i].handle == h {
          return i;
        }
      }
      return -1;
    }
  }
}
