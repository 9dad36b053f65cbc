/** A caller of the log from power-on: recovery, then one whole operation. */
module Boot {
  import opened Blocks
  import M = LogMachine
  import T = Transactions
  import C = BufferCache
  import opened Log

  /** Stopped after the events es, the disk recovers to the contents before the update of block b
      if its header write is still to come, and to those after it if it is done. */
  ghost predicate AllOrNothing(l: M.Layout, s0: M.State, es: seq<M.Event>, b: Word, v: Block)
    requires M.Booted(l, s0) && l.Home(b)
  {
    && M.Run(l, s0, es).Next?
    && var disk, base := M.Run(l, s0, es).s.disk, M.Recover(l, s0.disk);
       && M.HeaderOk(disk[l.start]) && |M.HeaderOf(disk[l.start])| < l.size
       && forall c: Word :: l.Home(c) ==>
            M.Recover(l, disk)[c] == (if M.WriteHead in es then base[b := v] else base)[c]
  }

  /** recovery, begin_op, one logged update and end_op. */
  function Events(n: nat, b: Word, v: Block): seq<M.Event> {
    T.RecoverEvents(n) + T.AllEvents(0, [[(b, v)]])
  }

  lemma OneTxnEvents(b: Word, v: Block, ws: seq<M.Write>, txns: seq<seq<M.Write>>)
    requires ws == [(b, v)] && txns == [ws]
    ensures T.AllEvents(0, txns) == [M.Begin(0)] + [M.Check(0), M.Append(0, b, v)] + ([M.End(0)] + (T.CommitEvents(1) + [M.Finish]))
    ensures T.Listed(ws) == [b]
  {
    assert ws[..0] == [] && txns[..0] == [];
    assert T.Listed(ws) == [] + [b];
    assert T.WriteEvents(0, ws) == [] + [M.Check(0), M.Append(0, b, v)];
    assert T.AllEvents(0, txns) == [] + T.TxnEvents(0, ws);
  }

  lemma OneTxnEffect(b: Word, v: Block, ws: seq<M.Write>, txns: seq<seq<M.Write>>, disk: seq<Block>)
    requires ws == [(b, v)] && txns == [ws] && b < |disk|
    ensures M.Apply(disk, T.Concat(txns)) == disk[b := v]
    ensures M.Apply(disk, T.Concat([])) == disk
  {
    assert ws[..0] == [] && txns[..0] == [];
    assert T.Concat(txns) == [] + ws == ws;
    assert M.Apply(disk, ws[..0]) == disk;
  }

  lemma {:induction false} HeadIn(es: seq<M.Event>)
    ensures T.Commits(es) > 0 <==> M.WriteHead in es
    decreases |es|
  {
    if es != [] {
      HeadIn(es[..|es| - 1]);
    }
  }

  lemma CrashAnywhere(l: M.Layout, s0: M.State, b: Word, v: Block, all: seq<M.Event>, k: nat)
    requires M.Booted(l, s0) && l.Home(b) && M.MAXOPBLOCKS < l.size - 1
    requires all == Events(|M.HeaderOf(s0.disk[l.start])|, b, v) && k <= |all|
    ensures AllOrNothing(l, s0, all[..k], b, v) && (k == |all| ==> M.WriteHead in all[..k])
  {
    var ws: seq<M.Write>, es := [(b, v)], all[..k];
    var txns := [ws];
    OneTxnEvents(b, v, ws, txns);
    OneTxnEffect(b, v, ws, txns, M.Recover(l, s0.disk));
    T.BootTxnAtomicity(l, s0, 0, txns, T.RecoverEvents(|M.HeaderOf(s0.disk[l.start])|), all, k, es);
    HeadIn(es);
    assert txns[..0] == [] && txns[..1] == txns;
  }

  lemma Joined(l: M.Layout, s0: M.State, s1: M.State, s2: M.State, s3: M.State, s4: M.State, b: Word, v: Block, n: nat)
    requires M.Sized(l, s0) && M.Run(l, s0, T.RecoverEvents(n)) == M.Next(s1)
    requires b < l.nblocks && M.Step(l, s1, M.Begin(0)) == M.Next(s2)
    requires M.Run(l, s2, [M.Check(0), M.Append(0, b, v)]) == M.Next(s3)
    requires M.Run(l, s3, [M.End(0)] + (T.CommitEvents(1) + [M.Finish])) == M.Next(s4)
    ensures M.Run(l, s0, Events(n, b, v)) == M.Next(s4)
  {
    OneTxnEvents(b, v, [(b, v)], [[(b, v)]]);
    M.RunOne(l, s1, M.Begin(0));
    M.RunConcat(l, s1, [M.Begin(0)], [M.Check(0), M.Append(0, b, v)]);
    M.RunConcat(l, s1, [M.Begin(0)] + [M.Check(0), M.Append(0, b, v)], [M.End(0)] + (T.CommitEvents(1) + [M.Finish]));
    M.RunConcat(l, s0, T.RecoverEvents(n), T.AllEvents(0, [[(b, v)]]));
  }

  /** A machine at rest has nothing to recover. */
  lemma NothingLogged(l: M.Layout, s: M.State)
    requires M.Fresh(l, s)
    ensures M.Recover(l, s.disk) == s.disk
  {
  }

  lemma Admitted(l: M.Layout, s1: M.State)
    requires M.Fresh(l, s1)
    ensures M.Step(l, s1, M.Begin(0)).Next?
  {
  }

  lemma Logged(l: M.Layout, s1: M.State, s2: M.State, s3: M.State, b: Word, v: Block)
    requires M.Fresh(l, s1) && M.Step(l, s1, M.Begin(0)) == M.Next(s2)
    requires M.Run(l, s2, [M.Check(0), M.Append(0, b, v)]) == M.Next(s3)
    ensures s3.lh == [b] && s3.outstanding == 1 && !s3.committing && s3.mode == M.Running
    ensures 0 in s3.ops && !s3.ops[0].passed
  {
    var es := [M.Check(0), M.Append(0, b, v)];
    assert es[..1] == [M.Check(0)];
    M.RunOne(l, s2, M.Check(0));
    assert M.Run(l, s2, es) == M.Step(l, M.Step(l, s2, M.Check(0)).s, es[1]);
  }

  /** begin_op, an update of one block, end_op, on a machine at rest. */
  method WholeOperation(log: Log, blockno: Word, v: Block, ghost s0: M.State, ghost n: nat)
    requires log.Valid() && log.ReadyNow() && log.TwoSpare() && M.Fresh(log.Layout(), log.State())
    requires log.Layout().Home(blockno) && M.MAXOPBLOCKS < log.size - 1
    requires M.Sized(log.Layout(), s0) && M.Run(log.Layout(), s0, T.RecoverEvents(n)) == M.Next(log.State())
    modifies log, log.block, log.cache, log.cache.bufs, log.cache.next, log.cache.prev, log.cache.disk
    ensures log.Valid() && log.ReadyNow()
    ensures M.Run(log.Layout(), s0, Events(n, blockno, v)) == M.Next(log.State())
  {
    ghost var l, s1 := log.Layout(), log.State();
    Admitted(l, s1);
    var ok := log.BeginOp(0);
    ghost var s2 := log.State();
    var r := log.Update(blockno, v, 0);
    ghost var s3 := log.State();
    Logged(l, s1, s2, s3, blockno, v);
    ok := log.EndOp(0);
    Joined(l, s0, s1, s2, s3, log.State(), blockno, v, n);
  }

  /** initlog, begin_op, an update of one block, end_op: the disk ends up recovered and updated,
      and stopped after any single disk write it recovers to the old or to the new contents. */
  method FirstUpdate(cache: C.Cache, start: nat, size: nat, blockno: Word, v: Block)
    returns (log: Log, ghost s0: M.State, ghost es: seq<M.Event>)
    requires cache.Valid() && M.MAXOPBLOCKS < size - 1
    requires var l := M.Layout(start, size, cache.disk.Length);
             && l.Ok() && l.Home(blockno) && LogFree(cache.bufs[..], l)
             && M.HeaderOk(cache.disk[start]) && M.ListOk(l, M.HeaderOf(cache.disk[start]))
    requires cache.view == cache.disk[..] && PinsWithin(cache.bufs[..], [], 0) && HasTwoIdle(cache.bufs[..])
    modifies cache, cache.bufs, cache.next, cache.prev, cache.disk
    ensures fresh(log) && log.cache == cache && log.start == start && log.size == size
    ensures log.Valid() && log.ReadyNow() && M.Fresh(log.Layout(), log.State())
    ensures s0.disk == old(cache.disk[..]) && M.Booted(log.Layout(), s0) && M.Run(log.Layout(), s0, es) == M.Next(log.State())
    ensures forall k: nat :: k <= |es| ==> AllOrNothing(log.Layout(), s0, es[..k], blockno, v)
    ensures forall b: Word :: log.Layout().Home(b) ==> cache.disk[b] == M.Recover(log.Layout(), s0.disk)[blockno := v][b]
  {
    log := new Log(cache, start, size);
    s0 := log.State();
    ghost var l, n := log.Layout(), |M.HeaderOf(cache.disk[start])|;
    log.Recover();
    WholeOperation(log, blockno, v, s0, n);
    es := Events(n, blockno, v);
    Finally(l, s0, log.State(), blockno, v, es);
  }

  lemma Finally(l: M.Layout, s0: M.State, s: M.State, b: Word, v: Block, es: seq<M.Event>)
    requires M.Booted(l, s0) && l.Home(b) && M.MAXOPBLOCKS < l.size - 1
    requires es == Events(|M.HeaderOf(s0.disk[l.start])|, b, v) && M.Run(l, s0, es) == M.Next(s)
    ensures M.Fresh(l, s) && forall k: nat :: k <= |es| ==> AllOrNothing(l, s0, es[..k], b, v)
    ensures forall c: Word :: l.Home(c) ==> s.disk[c] == M.Recover(l, s0.disk)[b := v][c]
  {
    var txns: seq<seq<M.Write>> := [[(b, v)]];
    OneTxnEvents(b, v, txns[0], txns);
    var a := T.RecoverRuns(l, s0);
    var t := T.AllRun(l, a, 0, txns);
    M.RunConcat(l, s0, T.RecoverEvents(|M.HeaderOf(s0.disk[l.start])|), T.AllEvents(0, txns));
    NothingLogged(l, s);
    forall k: nat | k <= |es|
      ensures AllOrNothing(l, s0, es[..k], b, v)
    {
      CrashAnywhere(l, s0, b, v, es, k);
    }
    CrashAnywhere(l, s0, b, v, es, |es|);
    assert es[..|es|] == es;
  }
}
