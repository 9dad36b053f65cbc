/** log.c itself, on the buffer cache: each routine takes the log from one state of
    the step machine to another, one event per single-block disk write. Other processes may
    hold buffers of their own meanwhile, to read them. */
module Log {
  import opened Blocks
  import M = LogMachine
  import C = BufferCache
  import T = Transactions

  ghost predicate HasIdle(bufs: seq<C.Buf>) {
    exists i :: 0 <= i < |bufs| && C.Idle(bufs[i])
  }

  ghost predicate HasTwoIdle(bufs: seq<C.Buf>) {
    exists i, j :: 0 <= i < j < |bufs| && C.Idle(bufs[i]) && C.Idle(bufs[j])
  }

  ghost predicate Pinned(bufs: seq<C.Buf>, b: nat) {
    exists i :: 0 <= i < |bufs| && bufs[i].dirty && bufs[i].blockno == b
  }

  /** What bread shows differs from the disk on pinned blocks only: nobody is between changing
      a block and logging it. */
  ghost predicate Clean(bufs: seq<C.Buf>, disk: seq<Block>, view: seq<Block>) {
    |view| == |disk| && forall b :: 0 <= b < |disk| && view[b] != disk[b] ==> Pinned(bufs, b)
  }

  /** A buffer that has block b is neither pinned nor held. */
  ghost predicate Unused(bufs: seq<C.Buf>, b: nat) {
    forall i :: 0 <= i < |bufs| && bufs[i].blockno == b ==> C.Idle(bufs[i])
  }

  /** Only the log's own routines use the blocks of the log. */
  ghost predicate LogFree(bufs: seq<C.Buf>, l: M.Layout) {
    forall i :: 0 <= i < |bufs| && l.InLog(bufs[i].blockno) ==> C.Idle(bufs[i])
  }

  /** After a routine has given back its buffers: idle buffers are idle, the others have their
      blocks and holders, and the pinned blocks are the old ones except `but`. */
  ghost predicate Settled(was: seq<C.Buf>, bufs: seq<C.Buf>, but: nat) {
    && |bufs| == |was|
    && (forall i :: 0 <= i < |was| && C.Idle(was[i]) ==> C.Idle(bufs[i]))
    && (forall i :: 0 <= i < |was| && !C.Idle(was[i]) ==> bufs[i].blockno == was[i].blockno && bufs[i].refcnt == was[i].refcnt)
    && (forall i :: 0 <= i < |was| ==> (bufs[i].dirty <==> was[i].dirty && was[i].blockno != but))
  }

  /** The two breads that open each round of write_log and install_trans; false is the panic of
      the first one. */
  method ReadPair(cache: C.Cache, slot: nat, home: nat) returns (ok: bool, l: nat, h: nat)
    requires cache.Valid() && slot < cache.disk.Length && home < cache.disk.Length && slot != home
    requires Unused(cache.bufs[..], slot) && (Pinned(cache.bufs[..], home) || HasTwoIdle(cache.bufs[..]))
    modifies cache.bufs
    ensures ok == old(HasIdle(cache.bufs[..]))
    ensures ok ==> cache.Valid() && PairRead(old(cache.bufs[..]), cache.bufs[..], slot, home, cache.view, l, h)
  {
    ghost var was := cache.bufs[..];
    var r := cache.Bread(slot);
    FirstRead(was, slot);
    if r.None? {
      ok, l, h := false, 0, 0;
      return;
    }
    ok, l := true, r.value;
    ghost var mid := cache.bufs[..];
    StillRoom(was, mid, l, slot, home, cache.view[slot]);
    r := cache.Bread(home);
    h := r.value;
    SecondRead(was, mid, cache.bufs[..], cache.disk[..], cache.view, slot, home, l, h);
  }

  /** Buffer l has taken the log block; buffer h has the home block, the one that had it before
      if it was pinned. */
  ghost predicate PairRead(was: seq<C.Buf>, bufs: seq<C.Buf>, slot: nat, home: nat, view: seq<Block>, l: nat, h: nat)
  {
    && slot < |view| && home < |view| && l < |was| && h < |was| && l != h
    && bufs == was[l := C.Buf(C.ROOTDEV, slot, true, false, 1, view[slot])][h := C.Fetched(was[h], home, view[home])]
    && C.Idle(was[l]) && (C.Holds(was[h], C.ROOTDEV, home) || C.Idle(was[h]))
    && (forall i :: 0 <= i < |was| && was[i].dirty && was[i].blockno == home ==> i == h)
  }

  lemma FirstRead(was: seq<C.Buf>, slot: nat)
    requires Unused(was, slot)
    ensures C.Held(was, C.ROOTDEV, slot) ==> HasIdle(was)
    ensures HasIdle(was) <==> !(forall i :: 0 <= i < |was| ==> !C.Idle(was[i]))
  {
  }

  lemma StillRoom(was: seq<C.Buf>, mid: seq<C.Buf>, l: nat, slot: nat, home: nat, data: Block)
    requires (Pinned(was, home) || HasTwoIdle(was)) && slot != home && l < |was|
    requires forall i :: 0 <= i < |was| && was[i].dirty ==> was[i].dev == C.ROOTDEV
    requires C.Idle(was[l]) && mid == was[l := C.Fetched(was[l], slot, data)]
    ensures C.Held(mid, C.ROOTDEV, home) || HasIdle(mid)
    ensures Pinned(was, home) ==> C.Held(mid, C.ROOTDEV, home)
  {
    if Pinned(was, home) {
      var i :| 0 <= i < |was| && was[i].dirty && was[i].blockno == home;
      assert C.Holds(mid[i], C.ROOTDEV, home);
    } else {
      var i, j :| 0 <= i < j < |was| && C.Idle(was[i]) && C.Idle(was[j]);
      assert C.Idle(mid[if i == l then j else i]);
    }
  }

  lemma SecondRead(was: seq<C.Buf>, mid: seq<C.Buf>, bufs: seq<C.Buf>, disk: seq<Block>, view: seq<Block>, slot: nat, home: nat, l: nat, h: nat)
    requires slot < |view| && home < |view| && l < |was| && h < |was| && slot != home && C.Coherent(bufs, disk, view)
    requires C.Idle(was[l]) && mid == was[l := C.Fetched(was[l], slot, view[slot])]
    requires C.Holds(mid[h], C.ROOTDEV, home) || C.Idle(mid[h])
    requires bufs == mid[h := C.Fetched(mid[h], home, view[home])]
    requires forall i :: 0 <= i < |was| && was[i].dirty ==> was[i].dev == C.ROOTDEV
    ensures PairRead(was, bufs, slot, home, view, l, h)
  {
    assert mid[l] == C.Buf(C.ROOTDEV, slot, true, false, 1, view[slot]);
    assert h != l;
    forall i | 0 <= i < |was| && was[i].dirty && was[i].blockno == home
      ensures i == h
    {
      assert i != l;
      assert bufs[h].dev == C.ROOTDEV && bufs[h].blockno == home;
      assert i != h ==> bufs[i] == was[i];
    }
  }

  /** A held buffer gets new contents and goes to disk. */
  method Overwrite(cache: C.Cache, b: nat, v: Block)
    requires cache.Valid() && b < cache.bufs.Length && cache.bufs[b].valid && cache.bufs[b].refcnt > 0
    modifies cache`view, cache.bufs, cache.disk
    ensures cache.Valid()
    ensures cache.bufs[..] == old(cache.bufs[..][b := cache.bufs[b].(data := v, dirty := false)])
    ensures cache.view == old(cache.view[cache.bufs[b].blockno := v])
    ensures cache.disk[..] == old(cache.disk[..][cache.bufs[b].blockno := v])
  {
    cache.Store(b, v);
    cache.Bwrite(b);
  }

  /** A buffer whose holder lets go of it. */
  function Dropped(b: C.Buf): C.Buf
    requires b.refcnt > 0
  {
    b.(refcnt := b.refcnt - 1)
  }

  /** The two brelses of a pair. */
  method ReleasePair(cache: C.Cache, src: nat, dst: nat)
    requires cache.Valid() && dst < cache.bufs.Length && src < cache.bufs.Length && dst != src
    requires cache.bufs[dst].valid && cache.bufs[dst].refcnt > 0
    requires cache.bufs[src].valid && cache.bufs[src].refcnt > 0
    requires cache.bufs[src].dirty || cache.bufs[src].data == cache.disk[cache.bufs[src].blockno]
    requires cache.bufs[dst].data == cache.disk[cache.bufs[dst].blockno]
    modifies cache`order, cache.bufs, cache.next, cache.prev
    ensures cache.Valid()
    ensures cache.bufs[..] == old(cache.bufs[..][src := Dropped(cache.bufs[src])][dst := Dropped(cache.bufs[dst])])
  {
    ghost var was := cache.bufs[..];
    cache.Brelse(src);
    ghost var mid := cache.bufs[..];
    assert mid == was[src := Dropped(was[src])];
    assert mid[dst] == was[dst] == cache.bufs[dst];
    cache.Brelse(dst);
    assert cache.bufs[..] == mid[dst := Dropped(was[dst])];
  }

  /** dst takes over the contents of src on disk and
      in the cache. */
  method CopyOver(cache: C.Cache, dst: nat, src: nat)
    requires cache.Valid() && dst < cache.bufs.Length && src < cache.bufs.Length && dst != src
    requires cache.bufs[dst].valid && cache.bufs[dst].refcnt > 0
    requires cache.bufs[src].valid && cache.bufs[src].refcnt > 0
    requires cache.bufs[src].dirty || cache.bufs[src].data == cache.disk[cache.bufs[src].blockno]
    modifies cache, cache.bufs, cache.next, cache.prev, cache.disk
    ensures cache.Valid()
    ensures var was := old(cache.bufs[..]);
            cache.bufs[..] == was[src := Dropped(was[src])][dst := Dropped(was[dst]).(data := was[src].data, dirty := false)]
    ensures cache.view == old(cache.view[cache.bufs[dst].blockno := cache.bufs[src].data])
    ensures cache.disk[..] == old(cache.disk[..][cache.bufs[dst].blockno := cache.bufs[src].data])
  {
    ghost var was := cache.bufs[..];
    assert was[dst].blockno != was[src].blockno;
    Overwrite(cache, dst, cache.bufs[src].data);
    ReleasePair(cache, src, dst);
  }

  /** A buffer used in between: recycled and idle again, or still with its block and its holders. */
  ghost predicate GivenBack(was: C.Buf, now: C.Buf, b: nat) {
    (C.Idle(was) && C.Idle(now)) || (was.blockno == now.blockno == b && now.refcnt == was.refcnt)
  }

  /** After a round only the two buffers of the pair have changed: the destination is
      clean, the source is as dirty as it was. */
  lemma SettledPair(was: seq<C.Buf>, bufs: seq<C.Buf>, dst: nat, src: nat, to: nat, from: nat)
    requires dst < |was| && src < |was| && dst != src && to != from
    requires |bufs| == |was| && bufs == was[dst := bufs[dst]][src := bufs[src]]
    requires GivenBack(was[dst], bufs[dst], to) && !bufs[dst].dirty
    requires GivenBack(was[src], bufs[src], from) && bufs[src].dirty == was[src].dirty
    requires forall i :: 0 <= i < |was| && was[i].dirty && was[i].blockno == to ==> i == dst
    ensures Settled(was, bufs, to)
  {
  }

  /** The rest of a write_log round: copy the cached block over the log block. */
  method CopyToLog(cache: C.Cache, slot: nat, home: nat) returns (ok: bool)
    requires cache.Valid() && slot < cache.disk.Length && home < cache.disk.Length && slot != home
    requires Unused(cache.bufs[..], slot) && Pinned(cache.bufs[..], home)
    modifies cache, cache.bufs, cache.next, cache.prev, cache.disk
    ensures ok == old(HasIdle(cache.bufs[..]))
    ensures ok ==> cache.Valid() && Settled(old(cache.bufs[..]), cache.bufs[..], slot)
    ensures ok ==> cache.view == old(cache.view[slot := cache.view[home]])
    ensures ok ==> cache.disk[..] == old(cache.disk[..][slot := cache.view[home]])
  {
    ghost var was := cache.bufs[..];
    var to, from;
    ok, to, from := ReadPair(cache, slot, home);
    if ok {
      CopyOver(cache, to, from);
      SettledPair(was, cache.bufs[..], to, from, slot, home);
    }
  }

  /** The rest of an install_trans round: copy the log block over the home block. */
  method CopyHome(cache: C.Cache, slot: nat, home: nat)
    requires cache.Valid() && slot < cache.disk.Length && home < cache.disk.Length && slot != home
    requires Unused(cache.bufs[..], slot) && Clean(cache.bufs[..], cache.disk[..], cache.view)
    requires HasIdle(cache.bufs[..]) && (Pinned(cache.bufs[..], home) || HasTwoIdle(cache.bufs[..]))
    modifies cache, cache.bufs, cache.next, cache.prev, cache.disk
    ensures cache.Valid() && Settled(old(cache.bufs[..]), cache.bufs[..], home)
    ensures cache.view == old(cache.view[home := cache.view[slot]])
    ensures cache.disk[..] == old(cache.disk[..][home := cache.view[slot]])
  {
    ghost var was := cache.bufs[..];
    assert cache.view[slot] == cache.disk[slot];
    var ok, lbuf, dbuf := ReadPair(cache, slot, home);
    CopyOver(cache, dbuf, lbuf);
    SettledPair(was, cache.bufs[..], dbuf, lbuf, home, slot);
  }

  /** Every pinned block is one of lh[from..]. */
  ghost predicate PinsWithin(bufs: seq<C.Buf>, lh: seq<Word>, from: nat) {
    from <= |lh| && forall i :: 0 <= i < |bufs| && bufs[i].dirty ==> bufs[i].blockno in lh[from..]
  }

  /** Every block of lh[from..] is pinned. */
  ghost predicate PinsAll(bufs: seq<C.Buf>, lh: seq<Word>, from: nat) {
    forall k :: from <= k < |lh| ==> Pinned(bufs, lh[k])
  }

  lemma PinnedStays(was: seq<C.Buf>, bufs: seq<C.Buf>, but: nat, b: nat)
    requires Settled(was, bufs, but) && Pinned(was, b) && b != but
    ensures Pinned(bufs, b)
  {
    var i :| 0 <= i < |was| && was[i].dirty && was[i].blockno == b;
    assert bufs[i].dirty && bufs[i].blockno == b;
  }

  lemma SettledIdle(was: seq<C.Buf>, bufs: seq<C.Buf>, but: nat, l: M.Layout)
    requires Settled(was, bufs, but)
    ensures HasIdle(was) ==> HasIdle(bufs)
    ensures HasTwoIdle(was) ==> HasTwoIdle(bufs)
    ensures LogFree(was, l) ==> LogFree(bufs, l)
  {
    if HasIdle(was) {
      var i :| 0 <= i < |was| && C.Idle(was[i]);
      assert C.Idle(bufs[i]);
    }
    if HasTwoIdle(was) {
      var i, j :| 0 <= i < j < |was| && C.Idle(was[i]) && C.Idle(was[j]);
      assert C.Idle(bufs[i]) && C.Idle(bufs[j]);
    }
  }

  lemma SettledClean(was: seq<C.Buf>, bufs: seq<C.Buf>, disk: seq<Block>, view: seq<Block>, but: nat, v: Block)
    requires Settled(was, bufs, but) && Clean(was, disk, view) && but < |disk|
    ensures Clean(bufs, disk[but := v], view[but := v])
  {
    forall b | 0 <= b < |disk| && view[but := v][b] != disk[but := v][b]
      ensures Pinned(bufs, b)
    {
      PinnedStays(was, bufs, but, b);
    }
  }

  lemma LoggedPins(was: seq<C.Buf>, bufs: seq<C.Buf>, slot: nat, lh: seq<Word>)
    requires Settled(was, bufs, slot) && PinsWithin(was, lh, 0) && slot !in lh
    ensures PinsWithin(bufs, lh, 0)
    ensures PinsAll(was, lh, 0) ==> PinsAll(bufs, lh, 0)
  {
    if PinsAll(was, lh, 0) {
      forall k | 0 <= k < |lh|
        ensures Pinned(bufs, lh[k])
      {
        PinnedStays(was, bufs, slot, lh[k]);
      }
    }
  }

  lemma InstalledPins(was: seq<C.Buf>, bufs: seq<C.Buf>, lh: seq<Word>, i: nat)
    requires i < |lh| && Settled(was, bufs, lh[i]) && PinsWithin(was, lh, i) && M.Distinct(lh)
    ensures PinsWithin(bufs, lh, i + 1)
    ensures PinsAll(was, lh, i) ==> PinsAll(bufs, lh, i + 1)
  {
    assert lh[i..] == [lh[i]] + lh[i + 1..];
    if PinsAll(was, lh, i) {
      forall k | i < k < |lh|
        ensures Pinned(bufs, lh[k])
      {
        PinnedStays(was, bufs, lh[i], lh[k]);
      }
    }
  }

  /** Only blocks of lh[from..] are pinned, and a round of the commit or of recovery that finds
      its log block finds its home block too. */
  ghost predicate Steady(bufs: seq<C.Buf>, disk: seq<Block>, view: seq<Block>, l: M.Layout, lh: seq<Word>, from: nat) {
    && Clean(bufs, disk, view) && LogFree(bufs, l) && PinsWithin(bufs, lh, from)
    && (PinsAll(bufs, lh, from) || HasTwoIdle(bufs))
  }

  /** Between calls: exactly the blocks of the header are pinned. */
  ghost predicate Ready(bufs: seq<C.Buf>, disk: seq<Block>, view: seq<Block>, l: M.Layout, lh: seq<Word>) {
    Clean(bufs, disk, view) && LogFree(bufs, l) && PinsWithin(bufs, lh, 0) && PinsAll(bufs, lh, 0)
  }

  lemma SettledReady(was: seq<C.Buf>, bufs: seq<C.Buf>, disk: seq<Block>, view: seq<Block>, l: M.Layout, lh: seq<Word>, b: nat, v: Block)
    requires Settled(was, bufs, b) && b < |disk| && b !in lh
    requires Steady(was, disk, view, l, lh, 0)
    ensures Steady(bufs, disk[b := v], view[b := v], l, lh, 0)
    ensures PinsAll(was, lh, 0) ==> Ready(bufs, disk[b := v], view[b := v], l, lh)
    ensures (HasIdle(was) ==> HasIdle(bufs)) && (HasTwoIdle(was) ==> HasTwoIdle(bufs))
  {
    LoggedPins(was, bufs, b, lh);
    SettledIdle(was, bufs, b, l);
    SettledClean(was, bufs, disk, view, b, v);
  }

  lemma SlotFree(bufs: seq<C.Buf>, l: M.Layout, lh: seq<Word>, b: nat)
    requires M.ListOk(l, lh) && LogFree(bufs, l) && l.InLog(b)
    ensures b !in lh && Unused(bufs, b)
  {
  }

  lemma {:induction false} DistinctFits(q: seq<nat>, lh: seq<nat>)
    requires forall i, j :: 0 <= i < j < |q| ==> q[i] != q[j]
    requires forall i :: 0 <= i < |q| ==> q[i] in lh
    ensures |q| <= |lh|
  {
    if q != [] {
      var p :| 0 <= p < |lh| && lh[p] == q[0];
      var rest := lh[..p] + lh[p + 1..];
      forall i | 0 <= i < |q[1..]|
        ensures q[1..][i] in rest
      {
        var k :| 0 <= k < |lh| && lh[k] == q[1..][i];
        assert rest[if k < p then k else k - 1] == q[1..][i];
      }
      DistinctFits(q[1..], rest);
    }
  }

  lemma {:induction false} NotHeld(n: nat, held: set<nat>) returns (q: seq<nat>)
    ensures |q| + |held| >= n && forall i :: 0 <= i < |q| ==> q[i] < n && q[i] !in held
    ensures forall i, j :: 0 <= i < j < |q| ==> q[i] != q[j]
    decreases n
  {
    if n == 0 {
      q := [];
    } else if n - 1 in held {
      q := NotHeld(n - 1, held - {n - 1});
    } else {
      q := NotHeld(n - 1, held);
      q := q + [n - 1];
    }
  }

  /** The header and the buffers others hold do not fill the cache, so some buffer is idle. */
  lemma SomeIdle(bufs: seq<C.Buf>, disk: seq<Block>, view: seq<Block>, lh: seq<Word>, held: set<nat>)
    requires C.Coherent(bufs, disk, view) && PinsWithin(bufs, lh, 0)
    requires (forall i :: 0 <= i < |bufs| && bufs[i].refcnt > 0 ==> i in held) && |lh| + |held| < |bufs|
    ensures HasIdle(bufs)
  {
    if !HasIdle(bufs) {
      var q := NotHeld(|bufs|, held);
      assert lh[0..] == lh;
      var blocks := seq(|q|, i requires 0 <= i < |q| => bufs[q[i]].blockno);
      assert forall i :: 0 <= i < |q| ==> bufs[q[i]].dirty;
      DistinctFits(blocks, lh);
    }
  }

  /** A transaction as long as the cache pins every buffer: then no log block can be
      read and commit panics. */
  lemma FullCacheBlocks(bufs: seq<C.Buf>, l: M.Layout, lh: seq<Word>, slot: nat)
    requires |lh| == |bufs| && M.Distinct(lh) && (forall k :: 0 <= k < |lh| ==> l.Home(lh[k]) && Pinned(bufs, lh[k]))
    requires l.InLog(slot)
    ensures !HasIdle(bufs) && !C.Held(bufs, C.ROOTDEV, slot)
  {
    if i :| 0 <= i < |bufs| && (C.Idle(bufs[i]) || bufs[i].blockno == slot) {
      var owners := seq(|lh|, k requires 0 <= k < |lh| => PinnedAt(bufs, lh[k]));
      var others := seq(|bufs|, j => j)[..i] + seq(|bufs|, j => j)[i + 1..];
      forall k | 0 <= k < |lh|
        ensures owners[k] in others
      {
        var o := owners[k];
        assert o != i;
        assert others[if o < i then o else o - 1] == o;
      }
      DistinctFits(owners, others);
    }
  }

  ghost function PinnedAt(bufs: seq<C.Buf>, b: nat): (i: nat)
    requires Pinned(bufs, b)
    ensures i < |bufs| && bufs[i].dirty && bufs[i].blockno == b
  {
    var i :| 0 <= i < |bufs| && bufs[i].dirty && bufs[i].blockno == b;
    i
  }

  /** One round of write_log; false is the panic for want of a buffer. */
  method LogRound(cache: C.Cache, slot: nat, home: nat, ghost l: M.Layout, ghost lh: seq<Word>, ghost i: nat) returns (ok: bool)
    requires cache.Valid() && l.Ok() && l.nblocks == cache.disk.Length && M.ListOk(l, lh)
    requires i < |lh| && slot == l.Slot(i) && home == lh[i]
    requires Ready(cache.bufs[..], cache.disk[..], cache.view, l, lh)
    modifies cache, cache.bufs, cache.next, cache.prev, cache.disk
    ensures ok == old(HasIdle(cache.bufs[..]))
    ensures ok ==> cache.Valid() && Ready(cache.bufs[..], cache.disk[..], cache.view, l, lh) && HasIdle(cache.bufs[..])
    ensures ok ==> cache.view == old(cache.view[slot := cache.view[home]])
    ensures ok ==> cache.disk[..] == old(cache.disk[..][slot := cache.view[home]])
  {
    ghost var was, disk, view := cache.bufs[..], cache.disk[..], cache.view;
    SlotFree(was, l, lh, slot);
    ok := CopyToLog(cache, slot, home);
    if ok {
      SettledReady(was, cache.bufs[..], disk, view, l, lh, slot, view[home]);
    }
  }

  /** One round of install_trans. */
  method InstallRound(cache: C.Cache, slot: nat, home: nat, ghost l: M.Layout, ghost lh: seq<Word>, ghost i: nat)
    requires cache.Valid() && l.Ok() && l.nblocks == cache.disk.Length && M.ListOk(l, lh)
    requires i < |lh| && slot == l.Slot(i) && home == lh[i]
    requires Steady(cache.bufs[..], cache.disk[..], cache.view, l, lh, i) && HasIdle(cache.bufs[..])
    modifies cache, cache.bufs, cache.next, cache.prev, cache.disk
    ensures cache.Valid() && Steady(cache.bufs[..], cache.disk[..], cache.view, l, lh, i + 1) && HasIdle(cache.bufs[..])
    ensures old(HasTwoIdle(cache.bufs[..])) ==> HasTwoIdle(cache.bufs[..])
    ensures cache.view == old(cache.view[home := cache.view[slot]])
    ensures cache.disk[..] == old(cache.disk[..][home := cache.view[slot]])
  {
    ghost var was, disk, view := cache.bufs[..], cache.disk[..], cache.view;
    SlotFree(was, l, lh, slot);
    CopyHome(cache, slot, home);
    InstalledPins(was, cache.bufs[..], lh, i);
    SettledIdle(was, cache.bufs[..], home, l);
    SettledClean(was, cache.bufs[..], disk, view, home, view[slot]);
  }

  lemma SettledOne(was: seq<C.Buf>, bufs: seq<C.Buf>, b: nat, blockno: nat)
    requires b < |was| == |bufs| && bufs == was[b := bufs[b]]
    requires C.Idle(was[b]) && C.Idle(bufs[b]) && Unused(was, blockno)
    ensures Settled(was, bufs, blockno)
  {
  }

  /** bread, change the whole block, bwrite, brelse. */
  method RewriteBlock(cache: C.Cache, blockno: nat, b: nat, v: Block, ghost was: seq<C.Buf>)
    requires cache.Valid() && blockno < cache.disk.Length && b < cache.bufs.Length == |was|
    requires C.Idle(was[b]) && Unused(was, blockno)
    requires cache.bufs[..] == was[b := C.Buf(C.ROOTDEV, blockno, true, false, 1, cache.view[blockno])]
    modifies cache, cache.bufs, cache.next, cache.prev, cache.disk
    ensures cache.Valid() && Settled(was, cache.bufs[..], blockno)
    ensures cache.view == old(cache.view[blockno := v])
    ensures cache.disk[..] == old(cache.disk[..][blockno := v])
  {
    Overwrite(cache, b, v);
    cache.Brelse(b);
    SettledOne(was, cache.bufs[..], b, blockno);
  }

  /** bread of a block that nobody uses. */
  method ReadUnused(cache: C.Cache, blockno: nat) returns (b: nat)
    requires cache.Valid() && blockno < cache.disk.Length
    requires HasIdle(cache.bufs[..]) && Unused(cache.bufs[..], blockno)
    modifies cache.bufs
    ensures cache.Valid() && b < cache.bufs.Length && C.Idle(old(cache.bufs[..])[b])
    ensures cache.bufs[..] == old(cache.bufs[..])[b := C.Buf(C.ROOTDEV, blockno, true, false, 1, cache.view[blockno])]
  {
    FirstRead(cache.bufs[..], blockno);
    var r := cache.Bread(blockno);
    b := r.value;
  }

  /** The loop of write_head over the buffer's words. */
  method FillHeader(data: Block, block: array<Word>, n: nat) returns (h: Block)
    requires n <= block.Length == M.LOGSIZE
    ensures h == M.EncodeHeader(data, block[..n])
  {
    h := PutWord(data, 0, n);
    var i := 0;
    while i < n
      invariant 0 <= i <= n
      invariant h == M.PutNumbers(PutWord(data, 0, n), block[..n], i)
    {
      h := PutWord(h, i + 1, block[i]);
      i := i + 1;
    }
  }

  /** The loop of read_head. */
  method TakeHeader(h: Block, block: array<Word>) returns (n: nat)
    requires M.HeaderOk(h) && block.Length == M.LOGSIZE
    modifies block
    ensures n <= block.Length && block[..n] == M.HeaderOf(h)
  {
    n := GetWord(h, 0);
    var i := 0;
    while i < n
      invariant 0 <= i <= n && block[..i] == M.HeaderOf(h)[..i]
    {
      block[i] := GetWord(h, i + 1);
      i := i + 1;
    }
  }

  /** read_head: the in-memory header becomes what the disk says. */
  method ReadHeader(cache: C.Cache, start: nat, block: array<Word>, ghost l: M.Layout) returns (n: nat)
    requires cache.Valid() && l.Ok() && l.nblocks == cache.disk.Length && start == l.start && block.Length == M.LOGSIZE
    requires block as object != cache.next && block as object != cache.prev
    requires Steady(cache.bufs[..], cache.disk[..], cache.view, l, [], 0) && HasTwoIdle(cache.bufs[..])
    requires M.HeaderOk(cache.view[start])
    modifies block, cache, cache.bufs, cache.next, cache.prev
    ensures cache.Valid() && cache.view == old(cache.view)
    ensures Steady(cache.bufs[..], cache.disk[..], cache.view, l, [], 0) && HasTwoIdle(cache.bufs[..])
    ensures n <= block.Length && block[..n] == M.HeaderOf(cache.view[start])
  {
    ghost var was := cache.bufs[..];
    SlotFree(was, l, [], start);
    var b := ReadUnused(cache, start);
    n := TakeHeader(cache.bufs[b].data, block);
    GiveBack(cache, b, was, l);
  }

  /** brelse of the header block after reading it. */
  method GiveBack(cache: C.Cache, b: nat, ghost was: seq<C.Buf>, ghost l: M.Layout)
    requires cache.Valid() && l.Ok() && l.nblocks == cache.disk.Length && b < cache.bufs.Length == |was| && C.Idle(was[b])
    requires cache.bufs[..] == was[b := C.Buf(C.ROOTDEV, l.start, true, false, 1, cache.view[l.start])]
    requires Steady(was, cache.disk[..], cache.view, l, [], 0) && HasTwoIdle(was)
    modifies cache, cache.bufs, cache.next, cache.prev
    ensures cache.Valid() && cache.view == old(cache.view)
    ensures Steady(cache.bufs[..], cache.disk[..], cache.view, l, [], 0) && HasTwoIdle(cache.bufs[..])
  {
    ghost var mid, disk, view := cache.bufs[..], cache.disk[..], cache.view;
    OnDisk(was, disk, view, l);
    cache.Brelse(b);
    assert cache.bufs[..] == mid[b := Dropped(mid[b])];
    ReadBack(was, cache.bufs[..], disk, view, l, b);
    assert cache.disk[..] == disk;
  }

  lemma OnDisk(bufs: seq<C.Buf>, disk: seq<Block>, view: seq<Block>, l: M.Layout)
    requires l.Ok() && |disk| == l.nblocks && Steady(bufs, disk, view, l, [], 0)
    ensures view[l.start] == disk[l.start]
  {
  }

  lemma ReadBack(was: seq<C.Buf>, bufs: seq<C.Buf>, disk: seq<Block>, view: seq<Block>, l: M.Layout, b: nat)
    requires l.Ok() && |disk| == l.nblocks && Steady(was, disk, view, l, [], 0) && HasTwoIdle(was)
    requires b < |was| == |bufs| && bufs == was[b := bufs[b]] && C.Idle(was[b]) && C.Idle(bufs[b]) && view[l.start] == disk[l.start]
    ensures Steady(bufs, disk, view, l, [], 0) && HasTwoIdle(bufs)
  {
    SettledOne(was, bufs, b, l.start);
    SettledIdle(was, bufs, l.start, l);
    SettledReady(was, bufs, disk, view, l, [], l.start, disk[l.start]);
    assert disk[l.start := disk[l.start]] == disk && view[l.start := disk[l.start]] == view;
  }

  /** write_head: the header block becomes the encoding of block[..n]. */
  method WriteHeader(cache: C.Cache, start: nat, block: array<Word>, n: nat, ghost l: M.Layout, ghost lh: seq<Word>)
    requires cache.Valid() && l.Ok() && l.nblocks == cache.disk.Length && start == l.start
    requires n <= block.Length == M.LOGSIZE && block as object != cache.next && block as object != cache.prev
    requires M.ListOk(l, lh) && Steady(cache.bufs[..], cache.disk[..], cache.view, l, lh, 0) && HasIdle(cache.bufs[..])
    modifies cache, cache.bufs, cache.next, cache.prev, cache.disk
    ensures cache.Valid() && Steady(cache.bufs[..], cache.disk[..], cache.view, l, lh, 0) && HasIdle(cache.bufs[..])
    ensures old(HasTwoIdle(cache.bufs[..])) ==> HasTwoIdle(cache.bufs[..])
    ensures cache.view == old(cache.view[start := M.EncodeHeader(cache.disk[start], block[..n])])
    ensures cache.disk[..] == old(cache.disk[..][start := M.EncodeHeader(cache.disk[start], block[..n])])
  {
    ghost var was, disk, view := cache.bufs[..], cache.disk[..], cache.view;
    SlotFree(was, l, lh, start);
    assert cache.view[start] == cache.disk[start];
    var b := ReadUnused(cache, start);
    var h := FillHeader(cache.bufs[b].data, block, n);
    RewriteBlock(cache, start, b, h, was);
    SettledReady(was, cache.bufs[..], disk, view, l, lh, start, h);
  }

  /** How a logged update can end. NoBuffers, TooBig and OutsideTrans are panics. */
  datatype Status = Done | NoBuffers | TooBig | OutsideTrans

  ghost predicate Available(bufs: seq<C.Buf>, b: nat) {
    C.Held(bufs, C.ROOTDEV, b) || HasIdle(bufs)
  }

  /** bread and the client's change to the data. */
  method ReadAndStore(cache: C.Cache, blockno: nat, v: Block) returns (ok: bool, b: nat)
    requires cache.Valid() && blockno < cache.disk.Length
    modifies cache`view, cache.bufs
    ensures ok == old(Available(cache.bufs[..], blockno))
    ensures ok ==>
              && cache.Valid() && cache.view == old(cache.view[blockno := v]) && b < cache.bufs.Length
              && Stored(old(cache.bufs[..]), cache.bufs[..], b, blockno)
              && cache.bufs[b].refcnt == (if C.Holds(old(cache.bufs[..])[b], C.ROOTDEV, blockno) then old(cache.bufs[..])[b].refcnt else 0) + 1
  {
    var got := cache.Bread(blockno);
    if got.None? {
      ok, b := false, 0;
      return;
    }
    ok, b := true, got.value;
    cache.Store(b, v);
  }

  /** Only buffer b has changed: it was idle or had the block before. */
  ghost predicate Stored(was: seq<C.Buf>, bufs: seq<C.Buf>, b: nat, blockno: nat) {
    && b < |was| == |bufs| && bufs == was[b := bufs[b]] && bufs[b].valid && bufs[b].blockno == blockno
    && (C.Idle(was[b]) || C.Holds(was[b], C.ROOTDEV, blockno))
  }

  lemma OneUsed(was: seq<C.Buf>, bufs: seq<C.Buf>, b: nat, blockno: nat)
    requires Stored(was, bufs, b, blockno)
    ensures HasTwoIdle(was) ==> HasIdle(bufs)
  {
    if HasTwoIdle(was) {
      var i, j :| 0 <= i < j < |was| && C.Idle(was[i]) && C.Idle(was[j]);
      assert C.Idle(bufs[if i == b then j else i]);
    }
  }

  lemma AbsorbedOk(l: M.Layout, lh: seq<Word>, b: Word)
    requires M.ListOk(l, lh) && l.Home(b) && |lh| < M.LOGSIZE && |lh| < l.size - 1
    ensures M.ListOk(l, T.Absorbed(lh, b))
  {
  }

  /** The updated buffer is pinned, everything else as it was. */
  lemma UpdatedPins(was: seq<C.Buf>, bufs: seq<C.Buf>, b: nat, blockno: Word, lh: seq<Word>)
    requires PinsWithin(was, lh, 0) && PinsAll(was, lh, 0) && Stored(was, bufs, b, blockno) && bufs[b].dirty
    ensures PinsWithin(bufs, T.Absorbed(lh, blockno), 0) && PinsAll(bufs, T.Absorbed(lh, blockno), 0)
    ensures forall c :: Pinned(was, c) ==> Pinned(bufs, c)
    ensures Pinned(bufs, blockno)
  {
    var lh' := T.Absorbed(lh, blockno);
    forall c | Pinned(was, c)
      ensures Pinned(bufs, c)
    {
      var i :| 0 <= i < |was| && was[i].dirty && was[i].blockno == c;
      assert bufs[i].dirty && bufs[i].blockno == c;
    }
    assert bufs[b].dirty;
    assert lh[0..] == lh && lh'[0..] == lh';
    assert blockno in lh';
    forall k | 0 <= k < |lh'|
      ensures Pinned(bufs, lh'[k])
    {
      assert k < |lh| ==> lh'[k] == lh[k];
    }
  }

  lemma UpdatedReady(was: seq<C.Buf>, bufs: seq<C.Buf>, disk: seq<Block>, view: seq<Block>, l: M.Layout, lh: seq<Word>, b: nat, blockno: Word, v: Block)
    requires Ready(was, disk, view, l, lh) && Stored(was, bufs, b, blockno) && bufs[b].dirty && l.Home(blockno) && blockno < |view|
    ensures Ready(bufs, disk, view[blockno := v], l, T.Absorbed(lh, blockno))
  {
    UpdatedPins(was, bufs, b, blockno, lh);
  }

  class Log {
    const cache: C.Cache
    const start: nat
    const size: nat
    const block: array<Word>   // log.lh.block
    var n: nat                 // log.lh.n
    var outstanding: nat
    var committing: bool
    ghost var ops: map<nat, M.Op>
    ghost var mode: M.Mode

    ghost function Layout(): M.Layout {
      M.Layout(start, size, cache.disk.Length)
    }

    ghost function State(): M.State
      requires n <= block.Length
      reads this, block, cache, cache.disk
    {
      M.State(cache.disk[..], cache.view, block[..n], ops, outstanding, committing, mode)
    }

    ghost predicate Valid()
      reads this, block, cache, cache.bufs, cache.next, cache.prev, cache.disk
    {
      && cache.Valid() && Layout().Ok()
      && block as object != cache.next && block as object != cache.prev
      && n <= block.Length == M.LOGSIZE
      && M.ListOk(Layout(), block[..n])
    }

    ghost predicate ReadyNow()
      requires n <= block.Length
      reads this, block, cache, cache.bufs, cache.disk
    {
      Ready(cache.bufs[..], cache.disk[..], cache.view, Layout(), block[..n])
    }

    ghost predicate SteadyNow(from: nat)
      requires n <= block.Length
      reads this, block, cache, cache.bufs, cache.disk
    {
      Steady(cache.bufs[..], cache.disk[..], cache.view, Layout(), block[..n], from)
    }

    /** A buffer is left for bget to recycle. */
    ghost predicate Spare()
      reads cache.bufs
    {
      HasIdle(cache.bufs[..])
    }

    ghost predicate TwoSpare()
      reads cache.bufs
    {
      HasTwoIdle(cache.bufs[..])
    }

    /** initlog up to its call of recover_from_log: a booted machine. */
    constructor (cache: C.Cache, start: nat, size: nat)
      requires cache.Valid() && M.Layout(start, size, cache.disk.Length).Ok()
      ensures Valid() && fresh(block)
      ensures this.cache == cache && this.start == start && this.size == size && n == 0
      ensures State() == M.State(cache.disk[..], cache.view, [], map[], 0, false, M.Down)
    {
      this.cache, this.start, this.size := cache, start, size;
      block := new Word[M.LOGSIZE](i => 0);
      n, outstanding, committing := 0, 0, false;
      ops, mode := map[], M.Down;
    }

    /** write_log: n single-block writes, each a LogBlock event. It panics exactly when there is
        a block to log and no buffer to read the log into. */
    method WriteLog() returns (ok: bool)
      requires Valid() && mode == M.Logging(0) && ReadyNow()
      modifies this`mode, cache, cache.bufs, cache.next, cache.prev, cache.disk
      ensures ok == old(n == 0 || Spare())
      ensures ok ==> Valid() && mode == M.Logging(n) && ReadyNow() && (n > 0 ==> Spare())
      ensures ok ==> M.Run(Layout(), old(State()), T.Repeat(M.LogBlock, n)) == M.Next(State())
    {
      ghost var l, s0 := Layout(), State();
      var tail := 0;
      while tail < n
        invariant 0 <= tail <= n && mode == M.Logging(tail) && Valid() && ReadyNow()
        invariant Spare() == old(Spare()) && (tail > 0 ==> Spare())
        invariant M.Run(l, s0, T.Repeat(M.LogBlock, tail)) == M.Next(State())
      {
        ghost var done := tail;
        ok, tail := LogNext(tail);
        T.RunRepeat(l, s0, M.LogBlock, done, tail);
        if !ok {
          return;
        }
      }
      ok := true;
    }

    /** One round of write_log as a LogBlock event. */
    method LogNext(tail: nat) returns (ok: bool, next: nat)
      requires Valid() && tail < n && mode == M.Logging(tail) && ReadyNow()
      modifies this`mode, cache, cache.bufs, cache.next, cache.prev, cache.disk
      ensures ok == old(Spare()) && next == tail + 1
      ensures ok ==> Valid() && mode == M.Logging(next) && ReadyNow() && Spare()
      ensures ok ==> M.Step(Layout(), old(State()), M.LogBlock) == M.Next(State())
    {
      ghost var l, lh, s := Layout(), block[..n], State();
      next := tail + 1;
      ok := LogRound(cache, start + tail + 1, block[tail], l, lh, tail);
      if ok {
        mode := M.Logging(next);
        assert block[..n] == lh;
        T.LogBlockStep(l, s, State(), tail);
      }
    }

    /** install_trans: n single-block writes, each an Install event. */
    method InstallTrans()
      requires Valid() && mode == M.Installing(0) && SteadyNow(0) && Spare()
      modifies this`mode, cache, cache.bufs, cache.next, cache.prev, cache.disk
      ensures Valid() && mode == M.Installing(n) && SteadyNow(n) && Spare() && (old(TwoSpare()) ==> TwoSpare())
      ensures M.Run(Layout(), old(State()), T.Repeat(M.Install, n)) == M.Next(State())
    {
      ghost var l, s0 := Layout(), State();
      var tail := 0;
      while tail < n
        invariant 0 <= tail <= n && mode == M.Installing(tail) && Valid() && SteadyNow(tail) && Spare()
        invariant old(TwoSpare()) ==> TwoSpare()
        invariant M.Run(l, s0, T.Repeat(M.Install, tail)) == M.Next(State())
      {
        ghost var done := tail;
        tail := InstallNext(tail);
        T.RunRepeat(l, s0, M.Install, done, tail);
      }
    }

    /** One round of install_trans as an Install event. */
    method InstallNext(tail: nat) returns (next: nat)
      requires Valid() && tail < n && mode == M.Installing(tail) && SteadyNow(tail) && Spare()
      modifies this`mode, cache, cache.bufs, cache.next, cache.prev, cache.disk
      ensures next == tail + 1 && Valid() && mode == M.Installing(next) && SteadyNow(next) && Spare()
      ensures old(TwoSpare()) ==> TwoSpare()
      ensures M.Step(Layout(), old(State()), M.Install) == M.Next(State())
    {
      ghost var l, lh, s := Layout(), block[..n], State();
      next := tail + 1;
      InstallRound(cache, start + tail + 1, block[tail], l, lh, tail);
      mode := M.Installing(next);
      assert block[..n] == lh;
      T.InstallStep(l, s, State(), tail);
    }

    /** One pass through the loop of begin_op; false is the branch that sleeps. */
    method BeginOp(ghost op: nat) returns (ok: bool)
      requires Valid() && op !in ops && (committing || mode == M.Running)
      modifies this`outstanding, this`ops
      ensures M.Step(Layout(), old(State()), M.Begin(op)) == if ok then M.Next(State()) else M.Blocked
      ensures !ok ==> State() == old(State())
    {
      if committing {
        return false;
      } else if n + (outstanding + 1) * M.MAXOPBLOCKS > M.LOGSIZE {
        return false;
      }
      outstanding := outstanding + 1;
      ops := ops[op := M.Op(0, false)];
      return true;
    }

    /** The locked part of log_write: record the block number unless it is there. */
    method Absorb(blockno: Word)
      requires n < block.Length
      modifies this`n, block
      ensures n <= block.Length
      ensures block[..n] == old(T.Absorbed(block[..n], blockno))
    {
      ghost var lh := block[..n];
      var i := 0;
      while i < n
        invariant 0 <= i <= n && blockno !in lh[..i] && block[..n] == lh
      {
        if block[i] == blockno {
          break;
        }
        i := i + 1;
      }
      assert i < n ==> lh[i] == blockno;
      block[i] := blockno;
      if i == n {
        n := n + 1;
      }
    }

    /** log_write on a held buffer. */
    method LogWrite(b: nat, ghost op: nat) returns (r: Status)
      requires cache.Valid() && b < cache.bufs.Length && cache.bufs[b].valid
      requires Layout().Ok() && n <= block.Length == M.LOGSIZE && (outstanding >= 1 ==> op in ops)
      modifies this`n, this`ops, block, cache.bufs
      ensures cache.Valid() && n <= block.Length
      ensures r == old(Verdict())
      ensures r == Done ==>
                && block[..n] == old(T.Absorbed(block[..n], cache.bufs[b].blockno))
                && cache.bufs[..] == old(cache.bufs[..])[b := old(cache.bufs[..])[b].(dirty := true)]
                && ops == old(T.Charged(ops, op, cache.bufs[b].blockno in block[..n]))
      ensures r != Done ==> cache.bufs[..] == old(cache.bufs[..]) && block[..n] == old(block[..n]) && ops == old(ops)
    {
      if n >= M.LOGSIZE || n >= size - 1 {
        return TooBig;
      }
      if outstanding < 1 {
        return OutsideTrans;
      }
      ops := T.Charged(ops, op, cache.bufs[b].blockno in block[..n]);
      Absorb(cache.bufs[b].blockno);
      cache.Pin(b);
      return Done;
    }

    /** The two panics of log_write, in the order they are tried. */
    ghost function Verdict(): Status
      reads this
    {
      if n >= M.LOGSIZE || n >= size - 1 then TooBig else if outstanding < 1 then OutsideTrans else Done
    }

    /** log_write and brelse of the buffer that now has the block. */
    method LogAndRelease(b: nat, ghost op: nat, ghost was: seq<C.Buf>, ghost blockno: Word) returns (r: Status)
      requires cache.Valid() && Stored(was, cache.bufs[..], b, blockno) && b < cache.bufs.Length
      requires cache.bufs[b].refcnt == (if C.Holds(was[b], C.ROOTDEV, blockno) then was[b].refcnt else 0) + 1
      requires block as object != cache.next && block as object != cache.prev
      requires Layout().Ok() && n <= block.Length == M.LOGSIZE && (outstanding >= 1 ==> op in ops)
      modifies this`n, this`ops, block, cache`order, cache.bufs, cache.next, cache.prev
      ensures r == old(Verdict())
      ensures r == Done ==>
                && cache.Valid() && n <= block.Length && block[..n] == old(T.Absorbed(block[..n], blockno))
                && ops == old(T.Charged(ops, op, blockno in block[..n]))
                && Stored(was, cache.bufs[..], b, blockno) && cache.bufs[b].dirty
    {
      r := LogWrite(b, op);
      if r == Done {
        cache.Brelse(b);
      }
    }

    /** The use of log_write its comment describes: bread, modify, log_write, brelse. It is the
        pair of machine steps Check and Append, or one of three panics. */
    method Update(blockno: Word, v: Block, ghost op: nat) returns (r: Status)
      requires Valid() && ReadyNow() && mode == M.Running && Layout().Home(blockno)
      requires outstanding >= 1 ==> op in ops && !ops[op].passed && (blockno in block[..n] || ops[op].used < M.MAXOPBLOCKS)
      modifies this`n, this`ops, block, cache, cache.bufs, cache.next, cache.prev
      ensures r == old(if Available(cache.bufs[..], blockno) then Verdict() else NoBuffers)
      ensures r == Done ==>
                && Valid() && ReadyNow() && (old(TwoSpare()) ==> Spare())
                && M.Run(Layout(), old(State()), [M.Check(op), M.Append(op, blockno, v)]) == M.Next(State())
    {
      ghost var was, lh, s := cache.bufs[..], block[..n], State();
      var ok, b := ReadAndStore(cache, blockno, v);
      if !ok {
        return NoBuffers;
      }
      r := LogStored(b, op, was, lh, s, blockno, v);
    }

    /** log_write and brelse, as machine steps. */
    method LogStored(b: nat, ghost op: nat, ghost was: seq<C.Buf>, ghost lh: seq<Word>, ghost s: M.State, ghost blockno: Word, ghost v: Block) returns (r: Status)
      requires Valid() && Layout().Home(blockno) && block[..n] == lh && Ready(was, s.disk, s.view, Layout(), lh)
      requires outstanding >= 1 ==> op in ops && !ops[op].passed && (blockno in lh || ops[op].used < M.MAXOPBLOCKS)
      requires |s.view| == cache.disk.Length && State() == s.(view := s.view[blockno := v]) && s.lh == lh
      requires Stored(was, cache.bufs[..], b, blockno) && b < cache.bufs.Length
      requires cache.bufs[b].refcnt == (if C.Holds(was[b], C.ROOTDEV, blockno) then was[b].refcnt else 0) + 1
      modifies this`n, this`ops, block, cache`order, cache.bufs, cache.next, cache.prev
      ensures r == old(Verdict())
      ensures r == Done ==>
                && Valid() && ReadyNow() && (HasTwoIdle(was) ==> Spare())
                && M.Run(Layout(), s, [M.Check(op), M.Append(op, blockno, v)]) == M.Next(State())
    {
      r := LogAndRelease(b, op, was, blockno);
      if r == Done {
        OneUsed(was, cache.bufs[..], b, blockno);
        assert State() == s.(view := s.view[blockno := v], lh := T.Absorbed(lh, blockno), ops := T.Charged(s.ops, op, blockno in lh));
        Updated(was, lh, s, op, b, blockno, v);
      }
    }

    lemma Updated(was: seq<C.Buf>, lh: seq<Word>, s: M.State, op: nat, b: nat, blockno: Word, v: Block)
      requires n <= block.Length && M.Sized(Layout(), s) && s.lh == lh && M.ListOk(Layout(), lh)
      requires Layout().Home(blockno) && |lh| < M.LOGSIZE && |lh| < size - 1 && s.outstanding >= 1
      requires op in s.ops && !s.ops[op].passed && (blockno in lh || s.ops[op].used < M.MAXOPBLOCKS)
      requires Ready(was, s.disk, s.view, Layout(), lh) && Stored(was, cache.bufs[..], b, blockno) && cache.bufs[..][b].dirty
      requires State() == s.(view := s.view[blockno := v], lh := T.Absorbed(lh, blockno), ops := T.Charged(s.ops, op, blockno in lh))
      ensures ReadyNow() && M.ListOk(Layout(), block[..n])
      ensures M.Run(Layout(), s, [M.Check(op), M.Append(op, blockno, v)]) == M.Next(State())
    {
      UpdatedReady(was, cache.bufs[..], s.disk, s.view, Layout(), lh, b, blockno, v);
      AbsorbedOk(Layout(), lh, blockno);
      T.AppendRun(Layout(), s, State(), op, blockno, v);
    }

    /** The locked part of end_op before the commit. */
    method Leave(ghost op: nat)
      requires n <= block.Length && Layout().Ok() && |cache.view| == cache.disk.Length
      requires mode == M.Running && !committing && outstanding >= 1 && op in ops && !ops[op].passed
      modifies this`outstanding, this`committing, this`ops, this`mode
      ensures outstanding == old(outstanding) - 1 && mode == (if outstanding == 0 then M.Logging(0) else M.Running)
      ensures M.Step(Layout(), old(State()), M.End(op)) == M.Next(State())
    {
      outstanding := outstanding - 1;
      ops := ops - {op};
      if outstanding == 0 {
        committing := true;
        mode := M.Logging(0);
      }
    }

    /** The commit or the recovery is over. */
    method Finish()
      requires n == 0 <= block.Length && Layout().Ok() && |cache.view| == cache.disk.Length
      requires mode == M.Cleared || mode == M.Logging(0)
      modifies this`committing, this`mode
      ensures !committing && mode == M.Running
      ensures M.Step(Layout(), old(State()), M.Finish) == M.Next(State())
    {
      committing := false;
      mode := M.Running;
    }

    /** end_op: the last one out commits; false is the panic of a commit without a spare buffer. */
    method EndOp(ghost op: nat) returns (ok: bool)
      requires Valid() && ReadyNow()
      requires mode == M.Running && !committing && outstanding >= 1
      requires op in ops && !ops[op].passed
      modifies this, cache, cache.bufs, cache.next, cache.prev, cache.disk
      ensures ok == old(outstanding > 1 || n == 0 || Spare())
      ensures ok ==> Valid() && ReadyNow() && (old(outstanding == 1 && Spare()) ==> Spare())
      ensures ok ==> M.Run(Layout(), old(State()),
                           [M.End(op)] + if old(outstanding) == 1 then T.CommitEvents(old(n)) + [M.Finish] else [])
                     == M.Next(State())
    {
      ghost var l, s0, k := Layout(), State(), n;
      Leave(op);
      if outstanding == 0 {
        ghost var s1 := State();
        ok := Commit();
        if ok {
          ghost var s2 := State();
          Finish();
          T.EndRun(l, s0, s1, s2, State(), op, k);
        }
      } else {
        M.RunOne(l, s0, M.End(op));
        assert [M.End(op)] + [] == [M.End(op)];
        ok := true;
      }
    }

    /** write_head with n > 0: the commit point. */
    method WriteHead()
      requires Valid() && mode == M.Logging(n) && n > 0 && SteadyNow(0) && Spare()
      modifies this`mode, cache, cache.bufs, cache.next, cache.prev, cache.disk
      ensures Valid() && mode == M.Installing(0) && SteadyNow(0) && Spare()
      ensures M.Step(Layout(), old(State()), M.WriteHead) == M.Next(State())
    {
      ghost var s, lh := State(), block[..n];
      WriteHeader(cache, start, block, n, Layout(), lh);
      mode := M.Installing(0);
      assert block[..n] == lh;
      T.WriteHeadStep(Layout(), s, State());
    }

    /** commit: the disk writes are exactly CommitEvents, so a crash between any two of
        them leaves the disk in a state the crash theorem speaks about. */
    method Commit() returns (ok: bool)
      requires Valid() && mode == M.Logging(0) && ReadyNow()
      modifies this`mode, this`n, cache, cache.bufs, cache.next, cache.prev, cache.disk
      ensures ok == old(n == 0 || Spare())
      ensures ok ==> Valid() && n == 0 && ReadyNow() && (mode == M.Cleared || mode == M.Logging(0)) && (old(Spare()) ==> Spare())
      ensures ok ==> M.Run(Layout(), old(State()), T.CommitEvents(old(n))) == M.Next(State())
    {
      ghost var l, lh, s0 := Layout(), block[..n], State();
      if n > 0 {
        ok := WriteLog();
        if !ok {
          return;
        }
        ghost var s1 := State();
        WriteHead();
        ghost var s2 := State();
        InstallTrans();
        EraseHeader(s2);
        T.CommitRun(l, s0, s1, s2, State(), |lh|);
      }
      ok := true;
    }

    /** The list is emptied and the empty header written. */
    method EraseHeader(ghost s: M.State)
      requires Valid() && mode == M.Installing(n) && SteadyNow(n) && Spare()
      requires M.Sized(Layout(), s) && M.Run(Layout(), s, T.Repeat(M.Install, n)) == M.Next(State())
      modifies this`mode, this`n, cache, cache.bufs, cache.next, cache.prev, cache.disk
      ensures Valid() && n == 0 && mode == M.Cleared && ReadyNow() && Spare() && (old(TwoSpare()) ==> TwoSpare())
      ensures M.Run(Layout(), s, T.Repeat(M.Install, old(n)) + [M.ClearHead]) == M.Next(State())
    {
      ghost var t, k := State(), n;
      n := 0;
      WriteHeader(cache, start, block, n, Layout(), []);
      mode := M.Cleared;
      T.ClearStep(Layout(), t, State());
      M.RunConcat(Layout(), s, T.Repeat(M.Install, k), [M.ClearHead]);
      M.RunOne(Layout(), t, M.ClearHead);
    }

    /** The in-memory list becomes the one on disk. */
    method ReadHead()
      requires Valid() && M.Booted(Layout(), State())
      requires SteadyNow(0) && TwoSpare()
      modifies this`mode, this`n, block, cache, cache.bufs, cache.next, cache.prev
      ensures Valid() && SteadyNow(0) && Spare() && TwoSpare() && mode == M.Installing(0) && n == |M.HeaderOf(cache.disk[start])|
      ensures M.Step(Layout(), old(State()), M.ReadHead) == M.Next(State())
    {
      ghost var s, l := State(), Layout();
      n := ReadHeader(cache, start, block, l);
      mode := M.Installing(0);
      T.ReadHeadStep(l, s, State());
      SteadyBegin(cache.bufs[..], cache.disk[..], cache.view, Layout(), block[..n]);
    }

    /** initlog's recover_from_log, on a machine where nothing else runs yet; afterwards the
        system is ready for begin_op. */
    method Recover()
      requires Valid() && M.Booted(Layout(), State())
      requires SteadyNow(0) && TwoSpare()
      modifies this`mode, this`n, this`committing, block, cache, cache.bufs, cache.next, cache.prev, cache.disk
      ensures Valid() && ReadyNow() && TwoSpare() && M.Fresh(Layout(), State())
      ensures M.Run(Layout(), old(State()), T.RecoverEvents(|M.HeaderOf(old(cache.disk[start]))|)) == M.Next(State())
    {
      ghost var l, s0 := Layout(), State();
      ReadHead();
      ghost var s1, k := State(), n;
      InstallTrans();
      EraseHeader(s1);
      ghost var s2 := State();
      Finish();
      T.RecoverRun(l, s0, s1, s2, State(), k);
      T.BootAtRest(l, s0, T.RecoverEvents(k), State());
    }
  }

  lemma SteadyBegin(bufs: seq<C.Buf>, disk: seq<Block>, view: seq<Block>, l: M.Layout, lh: seq<Word>)
    requires Steady(bufs, disk, view, l, [], 0) && HasTwoIdle(bufs)
    ensures Steady(bufs, disk, view, l, lh, 0) && HasIdle(bufs)
  {
  }
}
