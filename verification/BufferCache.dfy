/** The buffer cache of bio.c over the synchronous disk of memide.c: a fixed set of
    buffers on a doubly linked list in order of last use. */
module BufferCache {
  import opened Blocks
  import opened Options

  const ROOTDEV: nat := 1

  /** struct buf without its list links: valid is B_VALID, dirty is B_DIRTY. */
  datatype Buf = Buf(dev: nat, blockno: nat, valid: bool, dirty: bool, refcnt: nat, data: Block)

  predicate Idle(b: Buf) {
    b.refcnt == 0 && !b.dirty
  }

  // ---- the linked list, as links around a ring of nodes ----

  /** ring lists the nodes from the head sentinel forward and back to it. */
  ghost predicate Linked(next: seq<nat>, prev: seq<nat>, ring: seq<nat>) {
    && |next| == |prev| && |ring| >= 2
    && ring[0] == ring[|ring| - 1]
    && (forall k :: 0 <= k < |ring| ==> ring[k] < |next|)
    && (forall j, k :: 0 <= j < k < |ring| - 1 ==> ring[j] != ring[k])
    && (forall k :: 0 <= k < |ring| - 1 ==> next[ring[k]] == ring[k + 1])
    && (forall k :: 0 < k < |ring| ==> prev[ring[k]] == ring[k - 1])
  }

  lemma UnlinkNode(next: seq<nat>, prev: seq<nat>, ring: seq<nat>, p: nat)
    requires Linked(next, prev, ring) && 0 < p < |ring| - 1
    ensures var b := ring[p];
            && b < |next| && next[b] < |prev| && prev[b] < |next|
            && Linked(next[prev[b] := next[b]], prev[next[b] := prev[b]], ring[..p] + ring[p + 1..])
  {
    var b := ring[p];
    var r := ring[..p] + ring[p + 1..];
    assert next[b] == ring[p + 1] && prev[b] == ring[p - 1];
    assert forall k :: 0 <= k < |r| ==> r[k] == if k < p then ring[k] else ring[k + 1];
  }

  lemma InsertFirst(next: seq<nat>, prev: seq<nat>, ring: seq<nat>, b: nat)
    requires Linked(next, prev, ring) && b < |next| && b !in ring
    ensures var h := ring[0];
            && h < |next| && next[h] < |prev|
            && Linked(next[b := next[h]][h := b], prev[b := h][next[h] := b], [h, b] + ring[1..])
  {
    var h := ring[0];
    var r := [h, b] + ring[1..];
    assert next[h] == ring[1];
    assert forall k :: 0 <= k < |r| ==> r[k] == if k == 0 then h else if k == 1 then b else ring[k - 1];
  }

  /** Takes node b out of the list. */
  method Unlink(next: array<nat>, prev: array<nat>, b: nat, ghost ring: seq<nat>, ghost p: nat)
    requires next != prev && Linked(next[..], prev[..], ring) && 0 < p < |ring| - 1 && ring[p] == b
    modifies next, prev
    ensures Linked(next[..], prev[..], ring[..p] + ring[p + 1..])
  {
    ghost var nx: seq<nat>, pv: seq<nat> := next[..], prev[..];
    UnlinkNode(nx, pv, ring, p);
    prev[next[b]] := prev[b];
    next[prev[b]] := next[b];
    assert prev[..] == pv[nx[b] := pv[b]];
    assert pv[b] == ring[p - 1] && nx[b] == ring[p + 1];
    assert next[..] == nx[pv[b] := nx[b]];
  }

  /** Puts node b behind the head. */
  method PushFront(next: array<nat>, prev: array<nat>, head: nat, b: nat, ghost ring: seq<nat>)
    requires next != prev && Linked(next[..], prev[..], ring) && ring[0] == head && b < next.Length && b !in ring
    modifies next, prev
    ensures Linked(next[..], prev[..], [head, b] + ring[1..])
  {
    ghost var nx: seq<nat>, pv: seq<nat> := next[..], prev[..];
    InsertFirst(nx, pv, ring, b);
    assert nx[head] == ring[1];
    next[b] := next[head];
    prev[b] := head;
    prev[next[head]] := b;
    next[head] := b;
    assert next[..] == nx[b := nx[head]][head := b];
    assert prev[..] == pv[b := head][nx[head] := b];
  }

  /** n-1, n-2, .., 0: the order binit leaves. */
  function Countdown(n: nat): seq<nat> {
    seq(n, i requires 0 <= i < n => n - 1 - i)
  }

  /** The ring of a list whose order of last use is `order`, most recent first. */
  function Ring(head: nat, order: seq<nat>): seq<nat> {
    [head] + order + [head]
  }

  ghost predicate Permutation(order: seq<nat>, n: nat) {
    && |order| == n
    && (forall k :: 0 <= k < n ==> order[k] < n)
    && (forall j, k :: 0 <= j < k < n ==> order[j] != order[k])
    && (forall i: nat :: i < n ==> i in order)
  }

  lemma CountdownPermutation(n: nat)
    ensures Permutation(Countdown(n), n)
  {
    forall i: nat | i < n
      ensures i in Countdown(n)
    {
      assert Countdown(n)[n - 1 - i] == i;
    }
  }

  // ---- what the buffers say about the disk ----

  ghost predicate Cached(bufs: seq<Buf>, b: nat) {
    exists i :: 0 <= i < |bufs| && bufs[i].valid && bufs[i].blockno == b
  }

  /** No two buffers hold one block; a valid buffer holds what readers should see; a
      buffer that may be recycled agrees with the disk; an uncached block is on disk. */
  ghost predicate Coherent(bufs: seq<Buf>, disk: seq<Block>, view: seq<Block>) {
    && |view| == |disk|
    && (forall i, j :: 0 <= i < j < |bufs| && bufs[i].dev == bufs[j].dev != 0 ==>
          bufs[i].blockno != bufs[j].blockno)
    && (forall i :: 0 <= i < |bufs| && bufs[i].valid ==>
          && bufs[i].dev == ROOTDEV && bufs[i].blockno < |disk|
          && bufs[i].data == view[bufs[i].blockno])
    && (forall i :: 0 <= i < |bufs| && bufs[i].valid && Idle(bufs[i]) ==>
          bufs[i].data == disk[bufs[i].blockno])
    && (forall i :: 0 <= i < |bufs| && bufs[i].dirty ==> bufs[i].valid)
    && (forall b :: 0 <= b < |disk| && view[b] != disk[b] ==> Cached(bufs, b))
  }

  predicate Holds(b: Buf, dev: nat, blockno: nat) {
    b.dev == dev && b.blockno == blockno
  }

  ghost predicate Held(bufs: seq<Buf>, dev: nat, blockno: nat) {
    exists i :: 0 <= i < |bufs| && Holds(bufs[i], dev, blockno)
  }

  /** The buffer bget hands out: the one holding the block, else a recycled one. */
  function Handed(b: Buf, dev: nat, blockno: nat): Buf {
    if Holds(b, dev, blockno) then b.(refcnt := b.refcnt + 1)
    else Buf(dev, blockno, false, false, 1, b.data)
  }

  lemma CachedElsewhere(bufs: seq<Buf>, i: nat, nb: Buf, b: nat)
    requires i < |bufs| && Cached(bufs, b)
    requires bufs[i].valid && bufs[i].blockno == b ==> nb.valid && nb.blockno == b
    ensures Cached(bufs[i := nb], b)
  {
    var j :| 0 <= j < |bufs| && bufs[j].valid && bufs[j].blockno == b;
    assert bufs[i := nb][j].valid && bufs[i := nb][j].blockno == b;
  }

  /** Taking another reference to a buffer, or recycling one that is idle, changes
      nothing a reader can see. */
  lemma HandOutCoherent(bufs: seq<Buf>, disk: seq<Block>, view: seq<Block>, i: nat, dev: nat, blockno: nat)
    requires Coherent(bufs, disk, view) && i < |bufs| && dev != 0
    requires Holds(bufs[i], dev, blockno) || (Idle(bufs[i]) && !Held(bufs, dev, blockno))
    ensures Coherent(bufs[i := Handed(bufs[i], dev, blockno)], disk, view)
  {
    var nb := Handed(bufs[i], dev, blockno);
    forall b | 0 <= b < |disk| && view[b] != disk[b]
      ensures Cached(bufs[i := nb], b)
    {
      CachedElsewhere(bufs, i, nb, b);
    }
  }

  /** Filling an invalid buffer from the disk. */
  lemma FillCoherent(bufs: seq<Buf>, disk: seq<Block>, view: seq<Block>, i: nat)
    requires Coherent(bufs, disk, view) && i < |bufs| && !bufs[i].valid
    requires bufs[i].dev == ROOTDEV && bufs[i].blockno < |disk|
    ensures view[bufs[i].blockno] == disk[bufs[i].blockno]
    ensures Coherent(bufs[i := bufs[i].(data := disk[bufs[i].blockno], valid := true)], disk, view)
  {
    var nb := bufs[i].(data := disk[bufs[i].blockno], valid := true);
    forall b | 0 <= b < |disk| && view[b] != disk[b]
      ensures Cached(bufs[i := nb], b)
    {
      CachedElsewhere(bufs, i, nb, b);
    }
    assert forall j :: 0 <= j < |bufs| && bufs[j].valid ==> bufs[j].blockno != bufs[i].blockno;
  }

  /** A client that holds the buffer changes its contents. */
  lemma StoreCoherent(bufs: seq<Buf>, disk: seq<Block>, view: seq<Block>, i: nat, v: Block)
    requires Coherent(bufs, disk, view) && i < |bufs| && bufs[i].valid && bufs[i].refcnt > 0
    ensures Coherent(bufs[i := bufs[i].(data := v)], disk, view[bufs[i].blockno := v])
  {
    var nb, view' := bufs[i].(data := v), view[bufs[i].blockno := v];
    forall b | 0 <= b < |disk| && view'[b] != disk[b]
      ensures Cached(bufs[i := nb], b)
    {
      if b == bufs[i].blockno {
        assert bufs[i := nb][i].valid;
      } else {
        CachedElsewhere(bufs, i, nb, b);
      }
    }
  }

  /** log_write pins the buffer. */
  lemma PinCoherent(bufs: seq<Buf>, disk: seq<Block>, view: seq<Block>, i: nat)
    requires Coherent(bufs, disk, view) && i < |bufs| && bufs[i].valid
    ensures Coherent(bufs[i := bufs[i].(dirty := true)], disk, view)
  {
    forall b | 0 <= b < |disk| && view[b] != disk[b]
      ensures Cached(bufs[i := bufs[i].(dirty := true)], b)
    {
      CachedElsewhere(bufs, i, bufs[i].(dirty := true), b);
    }
  }

  /** bwrite puts the buffer on disk and unpins it. */
  lemma WriteCoherent(bufs: seq<Buf>, disk: seq<Block>, view: seq<Block>, i: nat)
    requires Coherent(bufs, disk, view) && i < |bufs| && bufs[i].valid
    ensures Coherent(bufs[i := bufs[i].(dirty := false)], disk[bufs[i].blockno := bufs[i].data], view)
  {
    forall b | 0 <= b < |disk| && view[b] != disk[bufs[i].blockno := bufs[i].data][b]
      ensures Cached(bufs[i := bufs[i].(dirty := false)], b)
    {
      CachedElsewhere(bufs, i, bufs[i].(dirty := false), b);
    }
  }

  /** The last reference may go only when the contents are on disk or pinned. */
  lemma DropCoherent(bufs: seq<Buf>, disk: seq<Block>, view: seq<Block>, i: nat)
    requires Coherent(bufs, disk, view) && i < |bufs| && bufs[i].valid && bufs[i].refcnt > 0
    requires bufs[i].refcnt == 1 ==> bufs[i].dirty || bufs[i].data == disk[bufs[i].blockno]
    ensures Coherent(bufs[i := bufs[i].(refcnt := bufs[i].refcnt - 1)], disk, view)
  {
    var nb := bufs[i].(refcnt := bufs[i].refcnt - 1);
    forall b | 0 <= b < |disk| && view[b] != disk[b]
      ensures Cached(bufs[i := nb], b)
    {
      CachedElsewhere(bufs, i, nb, b);
    }
  }

  class Cache {
    const bufs: array<Buf>
    const next: array<nat>
    const prev: array<nat>
    const disk: array<Block>
    ghost var order: seq<nat>
    ghost var view: seq<Block>   // what bread returns for each block

    ghost predicate Valid()
      reads this, bufs, next, prev, disk
    {
      && next != prev && next.Length == bufs.Length + 1 == prev.Length
      && Permutation(order, bufs.Length)
      && Linked(next[..], prev[..], Ring(bufs.Length, order))
      && Coherent(bufs[..], disk[..], view)
    }

    /** binit: every buffer is on the list, the last one first; nothing is cached. */
    constructor (nbuf: nat, image: array<Block>)
      ensures Valid() && bufs.Length == nbuf && disk == image && view == image[..]
      ensures fresh(bufs) && fresh(next) && fresh(prev)
      ensures order == Countdown(nbuf)
      ensures forall i :: 0 <= i < nbuf ==> bufs[i] == Buf(0, 0, false, false, 0, ZeroBlock())
    {
      disk := image;
      bufs := new Buf[nbuf](i => Buf(0, 0, false, false, 0, ZeroBlock()));
      next := new nat[nbuf + 1](i => nbuf);
      prev := new nat[nbuf + 1](i => nbuf);
      order := [];
      view := image[..];
      new;
      var b: nat := 0;
      while b < nbuf
        invariant b <= nbuf && order == Countdown(b)
        invariant Linked(next[..], prev[..], Ring(nbuf, order))
        modifies this`order, next, prev
      {
        PushFront(next, prev, nbuf, b, Ring(nbuf, order));
        assert [nbuf, b] + Ring(nbuf, order)[1..] == Ring(nbuf, [b] + order);
        order := [b] + order;
        b := b + 1;
      }
      CountdownPermutation(nbuf);
    }

    /** First scan of bget, from the most recently used end. */
    method FindHolder(dev: nat, blockno: nat) returns (r: Option<nat>)
      requires Valid()
      ensures r.None? <==> !Held(bufs[..], dev, blockno)
      ensures r.Some? ==> r.value < bufs.Length && Holds(bufs[r.value], dev, blockno)
    {
      ghost var ring := Ring(bufs.Length, order);
      var b := next[bufs.Length];
      ghost var k := 1;
      while b != bufs.Length
        invariant 1 <= k <= bufs.Length + 1 && b == ring[k]
        invariant forall j :: 1 <= j < k ==> !Holds(bufs[ring[j]], dev, blockno)
        decreases bufs.Length - k
      {
        if bufs[b].dev == dev && bufs[b].blockno == blockno {
          assert Holds(bufs[..][b], dev, blockno);
          return Some(b);
        }
        b := next[b];
        k := k + 1;
      }
      NotHeld(bufs[..], order, dev, blockno);
      return None;
    }

    /** Second scan of bget, from the least recently used end. */
    method FindIdle() returns (r: Option<nat>)
      requires next.Length == bufs.Length + 1 == prev.Length && Permutation(order, bufs.Length)
      requires Linked(next[..], prev[..], Ring(bufs.Length, order))
      ensures r.None? <==> forall i :: 0 <= i < bufs.Length ==> !Idle(bufs[i])
      ensures r.Some? ==> Oldest(bufs[..], order, r.value)
    {
      ghost var ring := Ring(bufs.Length, order);
      var b := prev[bufs.Length];
      ghost var k := bufs.Length;
      while b != bufs.Length
        invariant 0 <= k <= bufs.Length && b == ring[k]
        invariant forall j :: k < j <= bufs.Length ==> !Idle(bufs[ring[j]])
        decreases k
      {
        if bufs[b].refcnt == 0 && !bufs[b].dirty {
          IdleFound(bufs[..], order, k);
          return Some(b);
        }
        b := prev[b];
        k := k - 1;
      }
      NoneIdle(bufs[..], order);
      return None;
    }

    /** None is the panic "bget: no buffers". Otherwise exactly one buffer changes: the
        one that held the block, or, if none did, the least recently used idle one. */
    method Bget(dev: nat, blockno: nat) returns (r: Option<nat>)
      requires Valid() && dev != 0
      modifies bufs
      ensures Valid()
      ensures r.None? <==> old(!Held(bufs[..], dev, blockno) && forall i :: 0 <= i < bufs.Length ==> !Idle(bufs[i]))
      ensures r.Some? ==>
                && r.value < bufs.Length
                && bufs[..] == old(bufs[..])[r.value := Handed(old(bufs[..])[r.value], dev, blockno)]
                && (if old(Held(bufs[..], dev, blockno)) then Holds(old(bufs[..])[r.value], dev, blockno)
                    else Oldest(old(bufs[..]), order, r.value))
    {
      ghost var was := bufs[..];
      r := FindHolder(dev, blockno);
      if r.Some? {
        bufs[r.value] := bufs[r.value].(refcnt := bufs[r.value].refcnt + 1);
      } else {
        r := FindIdle();
        if r.None? {
          return;
        }
        bufs[r.value] := Buf(dev, blockno, false, false, 1, bufs[r.value].data);
      }
      HandOutCoherent(was, disk[..], view, r.value, dev, blockno);
      assert bufs[..] == was[r.value := Handed(was[r.value], dev, blockno)];
    }

    /** A referenced buffer with the block's current contents; view and disk stay. */
    method Bread(blockno: nat) returns (r: Option<nat>)
      requires Valid() && blockno < disk.Length
      modifies bufs
      ensures Valid()
      ensures r.None? <==> old(!Held(bufs[..], ROOTDEV, blockno) && forall i :: 0 <= i < bufs.Length ==> !Idle(bufs[i]))
      ensures r.Some? ==>
                && r.value < bufs.Length
                && bufs[..] == old(bufs[..])[r.value := Fetched(old(bufs[..])[r.value], blockno, view[blockno])]
                && (if old(Held(bufs[..], ROOTDEV, blockno)) then Holds(old(bufs[..])[r.value], ROOTDEV, blockno)
                    else Oldest(old(bufs[..]), order, r.value))
    {
      r := Bget(ROOTDEV, blockno);
      if r.Some? && !bufs[r.value].valid {
        FillCoherent(bufs[..], disk[..], view, r.value);
        ghost var got := bufs[..];
        bufs[r.value] := bufs[r.value].(data := disk[blockno], valid := true);
        assert bufs[..] == got[r.value := got[r.value].(data := disk[..][blockno], valid := true)];
      }
    }

    /** The holder of a buffer changes its data. */
    method Store(b: nat, v: Block)
      requires Valid() && b < bufs.Length && bufs[b].valid && bufs[b].refcnt > 0
      modifies this`view, bufs
      ensures Valid()
      ensures view == old(view[bufs[b].blockno := v])
      ensures bufs[..] == old(bufs[..])[b := old(bufs[..])[b].(data := v)]
    {
      StoreCoherent(bufs[..], disk[..], view, b, v);
      ghost var was := bufs[..];
      view := view[bufs[b].blockno := v];
      bufs[b] := bufs[b].(data := v);
      assert bufs[..] == was[b := was[b].(data := v)];
    }

    /** The B_DIRTY that log_write sets. */
    method Pin(b: nat)
      requires Valid() && b < bufs.Length && bufs[b].valid
      modifies bufs
      ensures Valid()
      ensures bufs[..] == old(bufs[..])[b := old(bufs[..])[b].(dirty := true)]
    {
      PinCoherent(bufs[..], disk[..], view, b);
      ghost var was := bufs[..];
      bufs[b] := bufs[b].(dirty := true);
      assert bufs[..] == was[b := was[b].(dirty := true)];
    }

    /** bwrite: exactly this block changes on disk, to what readers already saw. */
    method Bwrite(b: nat)
      requires Valid() && b < bufs.Length && bufs[b].valid && bufs[b].refcnt > 0
      modifies bufs, disk
      ensures Valid()
      ensures disk[..] == old(disk[..][bufs[b].blockno := view[bufs[b].blockno]])
      ensures bufs[..] == old(bufs[..])[b := old(bufs[..])[b].(dirty := false)]
    {
      WriteCoherent(bufs[..], disk[..], view, b);
      ghost var was, on := bufs[..], disk[..];
      bufs[b] := bufs[b].(dirty := true);
      bufs[b] := bufs[b].(dirty := false);
      disk[bufs[b].blockno] := bufs[b].data;
      assert bufs[..] == was[b := was[b].(dirty := false)];
      assert disk[..] == on[was[b].blockno := was[b].data];
    }

    /** The relinking at the end of brelse. */
    method MoveToFront(b: nat)
      requires next != prev && next.Length == bufs.Length + 1 == prev.Length && b < bufs.Length
      requires Permutation(order, bufs.Length) && Linked(next[..], prev[..], Ring(bufs.Length, order))
      modifies this`order, next, prev
      ensures order == [b] + Without(old(order), b)
      ensures Permutation(order, bufs.Length) && Linked(next[..], prev[..], Ring(bufs.Length, order))
    {
      ghost var p, ring, after, moved := FrontMove(bufs.Length, order, b);
      Unlink(next, prev, b, ring, p);
      PushFront(next, prev, bufs.Length, b, after);
      order := moved;
    }

    /** brelse: the last user moves the buffer to the recently used end of the list. */
    method Brelse(b: nat)
      requires Valid() && b < bufs.Length && bufs[b].valid && bufs[b].refcnt > 0
      requires bufs[b].refcnt == 1 ==> bufs[b].dirty || bufs[b].data == disk[bufs[b].blockno]
      modifies this`order, bufs, next, prev
      ensures Valid()
      ensures bufs[..] == old(bufs[..])[b := old(bufs[..])[b].(refcnt := old(bufs[..])[b].refcnt - 1)]
      ensures order == if bufs[b].refcnt == 0 then [b] + Without(old(order), b) else old(order)
    {
      DropCoherent(bufs[..], disk[..], view, b);
      ghost var was := bufs[..];
      bufs[b] := bufs[b].(refcnt := bufs[b].refcnt - 1);
      assert bufs[..] == was[b := was[b].(refcnt := was[b].refcnt - 1)];
      if bufs[b].refcnt == 0 {
        MoveToFront(b);
      }
    }
  }

  lemma IdleFound(bufs: seq<Buf>, order: seq<nat>, k: nat)
    requires Permutation(order, |bufs|) && 0 < k <= |bufs| && Idle(bufs[Ring(|bufs|, order)[k]])
    requires forall j :: k < j <= |bufs| ==> !Idle(bufs[Ring(|bufs|, order)[j]])
    ensures Oldest(bufs, order, Ring(|bufs|, order)[k])
  {
    var ring := Ring(|bufs|, order);
    assert order[k - 1] == ring[k] && forall j :: k - 1 < j < |order| ==> order[j] == ring[j + 1];
  }

  /** Having gone round the ring is having seen every buffer. */
  lemma NoneIdle(bufs: seq<Buf>, order: seq<nat>)
    requires Permutation(order, |bufs|)
    requires forall j :: 0 < j <= |bufs| ==> !Idle(bufs[Ring(|bufs|, order)[j]])
    ensures forall i :: 0 <= i < |bufs| ==> !Idle(bufs[i])
  {
    forall i: nat | i < |bufs|
      ensures !Idle(bufs[i])
    {
      PositionOf(order, |bufs|, i);
      var k :| 0 <= k < |order| && order[k] == i;
      assert Ring(|bufs|, order)[k + 1] == i;
    }
  }

  function Fetched(b: Buf, blockno: nat, data: Block): Buf {
    if Holds(b, ROOTDEV, blockno) then b.(refcnt := b.refcnt + 1, valid := true, data := data)
    else Buf(ROOTDEV, blockno, true, false, 1, data)
  }

  function Without(order: seq<nat>, b: nat): seq<nat> {
    if order == [] then []
    else if order[0] == b then order[1..]
    else [order[0]] + Without(order[1..], b)
  }

  lemma {:induction false} WithoutAt(order: seq<nat>, k: nat)
    requires k < |order| && forall j :: 0 <= j < k ==> order[j] != order[k]
    ensures Without(order, order[k]) == order[..k] + order[k + 1..]
  {
    if k > 0 {
      WithoutAt(order[1..], k - 1);
    }
  }

  lemma RingMoves(head: nat, order: seq<nat>, k: nat)
    requires k < |order| && Permutation(order, head)
    ensures var ring, rest := Ring(head, order), order[..k] + order[k + 1..];
            && ring[k + 1] == order[k]
            && ring[..k + 1] + ring[k + 2..] == Ring(head, rest)
            && order[k] !in Ring(head, rest)
            && [head, order[k]] + Ring(head, rest)[1..] == Ring(head, [order[k]] + rest)
  {
  }

  /** The ring before, without b, and with b in front. */
  lemma FrontMove(n: nat, order: seq<nat>, b: nat)
    returns (p: nat, ring: seq<nat>, after: seq<nat>, moved: seq<nat>)
    requires Permutation(order, n) && b < n
    ensures ring == Ring(n, order) && 0 < p < |ring| - 1 && ring[p] == b && after == ring[..p] + ring[p + 1..]
    ensures after[0] == n && b !in after && [n, b] + after[1..] == Ring(n, moved)
    ensures moved == [b] + Without(order, b) && Permutation(moved, n)
  {
    PositionOf(order, n, b);
    var k :| 0 <= k < |order| && order[k] == b;
    WithoutAt(order, k);
    MovedToFront(order, n, k);
    RingMoves(n, order, k);
    p, ring, moved := k + 1, Ring(n, order), [b] + (order[..k] + order[k + 1..]);
    after := ring[..p] + ring[p + 1..];
  }

  lemma MovedToFront(order: seq<nat>, n: nat, k: nat)
    requires Permutation(order, n) && k < n
    ensures Permutation([order[k]] + (order[..k] + order[k + 1..]), n)
  {
    var r := [order[k]] + (order[..k] + order[k + 1..]);
    forall i: nat | i < n
      ensures i in r
    {
      PositionOf(order, n, i);
      var j :| 0 <= j < |order| && order[j] == i;
      assert r[if j == k then 0 else if j < k then j + 1 else j] == i;
    }
  }

  /** i is idle and every buffer used less recently is in use. */
  ghost predicate Oldest(bufs: seq<Buf>, order: seq<nat>, i: nat) {
    && i < |bufs| && Idle(bufs[i])
    && exists k :: 0 <= k < |order| && order[k] == i
                   && forall j :: k < j < |order| && order[j] < |bufs| ==> !Idle(bufs[order[j]])
  }

  lemma PositionOf(order: seq<nat>, n: nat, i: nat)
    requires Permutation(order, n) && i < n
    ensures exists k :: 0 <= k < |order| && order[k] == i
  {
    assert i in order;
  }

  lemma NotHeld(bufs: seq<Buf>, order: seq<nat>, dev: nat, blockno: nat)
    requires Permutation(order, |bufs|)
    requires forall j :: 1 <= j <= |bufs| ==> !Holds(bufs[Ring(|bufs|, order)[j]], dev, blockno)
    ensures !Held(bufs, dev, blockno)
  {
    forall i: nat | i < |bufs|
      ensures !Holds(bufs[i], dev, blockno)
    {
      PositionOf(order, |bufs|, i);
      var k :| 0 <= k < |order| && order[k] == i;
      assert Ring(|bufs|, order)[k + 1] == i;
    }
  }
}
