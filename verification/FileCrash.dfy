/** Crash consistency of filewrite: file system and log together. */
module FileCrash {
  import opened Blocks
  import opened Inodes
  import opened Growth
  import opened Writing
  import M = LogMachine
  import T = Transactions
  import Fs

  /** Agreement from the inode blocks on is all that a file system depends on. */
  ghost predicate SameFs(sb: Super, view: seq<Block>, view': seq<Block>) {
    |view'| == |view| && forall b :: sb.inodestart <= b < |view| ==> view'[b] == view[b]
  }

  lemma SameOwned(sb: Super, view: seq<Block>, view': seq<Block>, inodes: seq<Inode>, owner: map<nat, Slot>)
    requires Owned(sb, view, inodes, owner) && SameFs(sb, view, view')
    ensures Owned(sb, view', inodes, owner)
    ensures forall j, k: nat :: 0 <= j < |inodes| ==> Ref(view', inodes[j], k) == Ref(view, inodes[j], k)
  {
    AllSameRefs(sb, view, view', inodes, owner, 0, 0);
    forall b: nat | b < sb.size
      ensures InUse(sb, view', b) == InUse(sb, view, b)
    {
      assert sb.inodestart <= sb.BBlock(b) < sb.nmeta;
    }
    SameOwners(sb, view, view', inodes, owner);
  }

  lemma SameContent(sb: Super, view: seq<Block>, view': seq<Block>, inodes: seq<Inode>, owner: map<nat, Slot>, j: nat)
    requires Owned(sb, view, inodes, owner) && SameFs(sb, view, view') && j < |inodes| && Dense(view, inodes[j])
    requires forall k: nat :: Ref(view', inodes[j], k) == Ref(view, inodes[j], k)
    ensures Dense(view', inodes[j]) && Content(view', inodes[j]) == Content(view, inodes[j])
  {
    forall p: nat | p < inodes[j].size
      ensures ByteAt(view', inodes[j], p) == ByteAt(view, inodes[j], p)
    {
      DenseAt(view, inodes[j], p);
      RefRange(sb, view, inodes, owner, j, DataSlot(p / BSIZE));
    }
  }

  lemma SameConsistent(sb: Super, view: seq<Block>, view': seq<Block>, inodes: seq<Inode>, owner: map<nat, Slot>)
    requires Consistent(sb, view, inodes, owner) && SameFs(sb, view, view')
    ensures Consistent(sb, view', inodes, owner)
    ensures forall j :: 0 <= j < |inodes| ==> Content(view', inodes[j]) == Content(view, inodes[j])
  {
    SameOwned(sb, view, view', inodes, owner);
    forall j: nat | j < |inodes|
      ensures Dense(view', inodes[j]) && Content(view', inodes[j]) == Content(view, inodes[j]) && StoredAt(sb, view', inodes, j)
    {
      SameContent(sb, view, view', inodes, owner, j);
      StoredStays(sb, view, view', inodes, j);
    }
  }

  lemma SameReached(sb: Super, s0: Stage, s: Stage, view': seq<Block>, i: nat, off: nat, addr: seq<Byte>)
    requires Reached(sb, s0, s, i, off, addr) && SameFs(sb, s.view, view')
    ensures Reached(sb, s0, s.(view := view'), i, off, addr)
  {
    SameConsistent(sb, s.view, view', s.inodes, s.owner);
  }

  // ---- the stages are what the transactions make of the first one ----

  lemma {:induction false} ApplyMore(disk: seq<Block>, ws: seq<M.Write>, us: seq<M.Write>)
    ensures M.Apply(disk, ws + us) == M.Apply(M.Apply(disk, ws), us)
    decreases |us|
  {
    if us == [] {
      assert ws + us == ws;
    } else {
      assert (ws + us)[..|ws + us| - 1] == ws + us[..|us| - 1];
      ApplyMore(disk, ws, us[..|us| - 1]);
    }
  }

  lemma {:induction false} StageView(sb: Super, stages: seq<Stage>, txns: seq<seq<M.Write>>, i: nat, off: nat, addr: seq<Byte>, c: nat)
    requires Chronicle(sb, stages, txns, i, off, addr) && c <= |txns|
    ensures M.Apply(stages[0].view, T.Concat(txns[..c])) == stages[c].view
    decreases c
  {
    if c > 0 {
      StageView(sb, stages, txns, i, off, addr, c - 1);
      assert Leads(sb, stages[c - 1], stages[c - 1 + 1], txns[c - 1], |addr|);
      assert txns[..c][..c - 1] == txns[..c - 1];
      ApplyMore(stages[0].view, T.Concat(txns[..c - 1]), txns[c - 1]);
    }
  }

  lemma ChronicleFits(l: M.Layout, sb: Super, stages: seq<Stage>, txns: seq<seq<M.Write>>, torn: seq<M.Write>, i: nat, off: nat, addr: seq<Byte>)
    requires Chronicle(sb, stages, txns, i, off, addr) && Within(sb, torn)
    requires l.nblocks == sb.size && l.start + l.size <= sb.inodestart && M.MAXOPBLOCKS < l.size - 1
    ensures T.Fits(l, txns + [torn]) && forall t :: 0 <= t < |txns| ==> txns[t] != []
  {
    forall t | 0 <= t < |txns|
      ensures txns[t] != [] && Within(sb, txns[t])
    {
      assert Leads(sb, stages[t], stages[t + 1], txns[t], |addr|);
    }
    var both := txns + [torn];
    forall t | 0 <= t < |both|
      ensures |T.Listed(both[t])| <= M.MAXOPBLOCKS && forall k :: 0 <= k < |both[t]| ==> l.Home(both[t][k].0)
    {
      assert Within(sb, both[t]);
    }
  }

  /** What recovery finds after filewrite has been stopped: a consistent file system with exactly
      the chunks written whose transactions have committed, and all other files as they were. */
  ghost predicate Recovered(l: M.Layout, sb: Super, disk: seq<Block>, stages: seq<Stage>, c: nat, i: nat, off: nat, addr: seq<Byte>) {
    && l.Ok() && |disk| == l.nblocks && M.HeaderOk(disk[l.start]) && |M.HeaderOf(disk[l.start])| < l.size && c < |stages|
    && Reached(sb, stages[0], stages[c].(view := M.Recover(l, disk)), i, off, addr)
  }

  /** Crash consistency. filewrite's transactions, the last of them perhaps unfinished because it
      ran out of blocks, are stopped after any k events: any single disk write of a commit, any
      single log_write. Recovery then gives one of the stages, the one that the commits so far
      have reached. */
  lemma CrashConsistency(l: M.Layout, sb: Super, s0: M.State, stages: seq<Stage>, txns: seq<seq<M.Write>>, torn: seq<M.Write>,
                         i: nat, off: nat, addr: seq<Byte>, op: nat, all: seq<M.Event>, k: nat, es: seq<M.Event>)
    requires M.Fresh(l, s0) && l.nblocks == sb.size && l.start + l.size <= sb.inodestart && M.MAXOPBLOCKS < l.size - 1
    requires Chronicle(sb, stages, txns, i, off, addr) && s0.view == stages[0].view && Within(sb, torn)
    requires all == T.AllEvents(op, txns) + T.Unfinished(op, torn) && k <= |all| && es == all[..k]
    ensures M.Run(l, s0, es).Next? && Recovered(l, sb, M.Run(l, s0, es).s.disk, stages, T.Commits(es), i, off, addr)
    ensures k >= |T.AllEvents(op, txns)| ==> T.Commits(es) == |txns|
  {
    ChronicleFits(l, sb, stages, txns, torn, i, off, addr);
    T.TxnAtomicity(l, s0, op, txns, torn, all, k, es);
    var c, disk := T.Commits(es), M.Run(l, s0, es).s.disk;
    StageView(sb, stages, txns, i, off, addr, c);
    BehindLog(l, sb, M.Recover(l, disk), stages[c].view);
    assert Reached(sb, stages[0], stages[c], i, off, addr);
    SameReached(sb, stages[0], stages[c], M.Recover(l, disk), i, off, addr);
  }

  lemma BehindLog(l: M.Layout, sb: Super, found: seq<Block>, view: seq<Block>)
    requires l.Ok() && l.nblocks == sb.size && l.start + l.size <= sb.inodestart && |found| == |view| == l.nblocks
    requires forall b: Word :: l.Home(b) ==> found[b] == view[b]
    ensures SameFs(sb, view, found)
  {
    forall b | sb.inodestart <= b < |view|
      ensures found[b] == view[b]
    {
      assert l.Home(b);
    }
  }

  ghost predicate StoppedAt(l: M.Layout, sb: Super, s0: M.State, es: seq<M.Event>, k: nat, stages: seq<Stage>, i: nat, off: nat, addr: seq<Byte>)
    requires M.Sized(l, s0) && k <= |es|
  {
    M.Run(l, s0, es[..k]).Next? && Recovered(l, sb, M.Run(l, s0, es[..k]).s.disk, stages, T.Commits(es[..k]), i, off, addr)
  }

  /** filewrite on a mounted file system: es are the events of the log while it runs. Power may
      fail after any of them. */
  method SafeWrite(fs: Fs.FileSystem, i: nat, addr: seq<Byte>, off: Word, ghost l: M.Layout, ghost s0: M.State, ghost op: nat)
    returns (r: FileResult, foff: Word, ghost stages: seq<Stage>, ghost es: seq<M.Event>)
    requires fs.Valid() && i < |fs.inodes| && |addr| < 0x8000_0000
    requires M.Fresh(l, s0) && s0.view == fs.view && l.start + l.size <= fs.sb.inodestart && M.MAXOPBLOCKS < l.size - 1
    modifies fs
    ensures |stages| > 0 && stages[0] == old(fs.Now(0)) && off <= foff <= off + |addr| && (r == Count <==> foff == off + |addr|)
    ensures r != Panicked ==> fs.Valid() && stages[|stages| - 1] == fs.Now(foff - off)
    ensures forall k: nat :: k <= |es| ==> StoppedAt(l, fs.sb, s0, es, k, stages, i, off, addr)
    ensures r != Panicked ==> T.Commits(es) == |stages| - 1
  {
    ghost var txns, torn;
    r, foff, stages, txns, torn := fs.FileWrite(i, addr, off);
    torn := if r == Panicked then torn else [];
    es := T.AllEvents(op, txns) + T.Unfinished(op, torn);
    forall k: nat | k <= |es|
      ensures StoppedAt(l, fs.sb, s0, es, k, stages, i, off, addr)
    {
      CrashConsistency(l, fs.sb, s0, stages, txns, torn, i, off, addr, op, es, k, es[..k]);
    }
    CrashConsistency(l, fs.sb, s0, stages, txns, torn, i, off, addr, op, es, |es|, es[..|es|]);
    assert es[..|es|] == es;
  }
}
