/** Whole transactions of one caller: begin_op, a log_write per changed block, end_op and the
    commit, as events of the log machine. */
module Transactions {
  import opened Blocks
  import opened LogMachine

  function Repeat(e: Event, k: nat): seq<Event> {
    seq(k, i => e)
  }

  /** The disk writes of commit, in order. */
  function CommitEvents(n: nat): seq<Event> {
    if n == 0 then []
    else Repeat(LogBlock, n) + [WriteHead] + (Repeat(Install, n) + [ClearHead])
  }

  /** recover_from_log when the header lists n blocks. */
  function RecoverEvents(n: nat): seq<Event> {
    [ReadHead] + (Repeat(Install, n) + [ClearHead]) + [Finish]
  }

  /** log_write's absorption. */
  function Absorbed(lh: seq<Word>, b: Word): seq<Word> {
    if b in lh then lh else lh + [b]
  }

  /** The list after these log_writes, starting from an empty one. */
  function Listed(ws: seq<Write>): seq<Word> {
    if ws == [] then [] else Absorbed(Listed(ws[..|ws| - 1]), ws[|ws| - 1].0)
  }

  function WriteEvents(op: nat, ws: seq<Write>): seq<Event> {
    if ws == [] then [] else WriteEvents(op, ws[..|ws| - 1]) + [Check(op), Append(op, ws[|ws| - 1].0, ws[|ws| - 1].1)]
  }

  function TxnEvents(op: nat, ws: seq<Write>): seq<Event> {
    [Begin(op)] + WriteEvents(op, ws) + ([End(op)] + (CommitEvents(|Listed(ws)|) + [Finish]))
  }

  /** One transaction after the other. */
  function AllEvents(op: nat, txns: seq<seq<Write>>): seq<Event> {
    if txns == [] then [] else AllEvents(op, txns[..|txns| - 1]) + TxnEvents(op, txns[|txns| - 1])
  }

  // ---- single steps and their sequences ----

  lemma RunRepeat(l: Layout, s: State, e: Event, k: nat, next: nat)
    requires Sized(l, s) && Run(l, s, Repeat(e, k)).Next? && next == k + 1
    ensures Run(l, s, Repeat(e, next)) == Step(l, Run(l, s, Repeat(e, k)).s, e)
  {
    assert Repeat(e, next)[..k] == Repeat(e, k);
  }

  lemma LogBlockStep(l: Layout, s: State, t: State, i: nat)
    requires Sized(l, s) && ListOk(l, s.lh) && s.mode == Logging(i) && i < |s.lh|
    requires l.Slot(i) < l.nblocks && s.lh[i] < l.nblocks
    requires t == s.(disk := s.disk[l.Slot(i) := s.view[s.lh[i]]], view := s.view[l.Slot(i) := s.view[s.lh[i]]],
                     mode := Logging(i + 1))
    ensures Step(l, s, LogBlock) == Next(t)
  {
  }

  lemma InstallStep(l: Layout, s: State, t: State, i: nat)
    requires Sized(l, s) && ListOk(l, s.lh) && s.mode == Installing(i) && i < |s.lh|
    requires l.Slot(i) < l.nblocks && s.lh[i] < l.nblocks
    requires t == s.(disk := s.disk[s.lh[i] := s.view[l.Slot(i)]], view := s.view[s.lh[i] := s.view[l.Slot(i)]],
                     mode := Installing(i + 1))
    ensures Step(l, s, Install) == Next(t)
  {
  }

  lemma ClearStep(l: Layout, s: State, t: State)
    requires Sized(l, s) && s.mode == Installing(|s.lh|)
    requires t == s.(disk := s.disk[l.start := EncodeHeader(s.disk[l.start], [])],
                     view := s.view[l.start := EncodeHeader(s.disk[l.start], [])], lh := [], mode := Cleared)
    ensures Step(l, s, ClearHead) == Next(t)
  {
  }

  lemma WriteHeadStep(l: Layout, s: State, t: State)
    requires Sized(l, s) && s.mode == Logging(|s.lh|) && 0 < |s.lh| <= LOGSIZE
    requires t == s.(disk := s.disk[l.start := EncodeHeader(s.disk[l.start], s.lh)],
                     view := s.view[l.start := EncodeHeader(s.disk[l.start], s.lh)], mode := Installing(0))
    ensures Step(l, s, WriteHead) == Next(t)
  {
  }

  lemma ReadHeadStep(l: Layout, s: State, t: State)
    requires Booted(l, s) && t == s.(lh := HeaderOf(s.disk[l.start]), mode := Installing(0))
    ensures Step(l, s, ReadHead) == Next(t)
  {
  }

  lemma EndRun(l: Layout, s0: State, s1: State, s2: State, s3: State, op: nat, n: nat)
    requires Sized(l, s0) && Step(l, s0, End(op)) == Next(s1)
    requires Run(l, s1, CommitEvents(n)) == Next(s2) && Step(l, s2, Finish) == Next(s3)
    ensures Run(l, s0, [End(op)] + (CommitEvents(n) + [Finish])) == Next(s3)
  {
    RunOne(l, s0, End(op));
    RunOne(l, s2, Finish);
    RunConcat(l, s1, CommitEvents(n), [Finish]);
    RunConcat(l, s0, [End(op)], CommitEvents(n) + [Finish]);
  }

  lemma CommitRun(l: Layout, s0: State, s1: State, s2: State, s3: State, n: nat)
    requires Sized(l, s0) && Run(l, s0, Repeat(LogBlock, n)) == Next(s1) && n > 0
    requires Step(l, s1, WriteHead) == Next(s2)
    requires Run(l, s2, Repeat(Install, n) + [ClearHead]) == Next(s3)
    ensures Run(l, s0, CommitEvents(n)) == Next(s3)
  {
    RunConcat(l, s0, Repeat(LogBlock, n), [WriteHead]);
    RunOne(l, s1, WriteHead);
    RunConcat(l, s0, Repeat(LogBlock, n) + [WriteHead], Repeat(Install, n) + [ClearHead]);
  }

  lemma RecoverRun(l: Layout, s0: State, s1: State, s2: State, s3: State, n: nat)
    requires Sized(l, s0) && Step(l, s0, ReadHead) == Next(s1)
    requires Run(l, s1, Repeat(Install, n) + [ClearHead]) == Next(s2) && Step(l, s2, Finish) == Next(s3)
    ensures Run(l, s0, RecoverEvents(n)) == Next(s3)
  {
    RunOne(l, s0, ReadHead);
    RunConcat(l, s0, [ReadHead], Repeat(Install, n) + [ClearHead]);
    RunOne(l, s2, Finish);
    RunConcat(l, s0, [ReadHead] + (Repeat(Install, n) + [ClearHead]), [Finish]);
  }

  /** The two steps of a log_write that passes the check. */
  lemma AppendRun(l: Layout, s: State, t: State, op: nat, b: Word, v: Block)
    requires Sized(l, s) && |s.lh| < LOGSIZE && |s.lh| < l.size - 1 && s.outstanding >= 1
    requires op in s.ops && !s.ops[op].passed && l.Home(b) && (b in s.lh || s.ops[op].used < MAXOPBLOCKS)
    requires t.disk == s.disk && t.view == s.view[b := v] && t.lh == Absorbed(s.lh, b)
    requires t.outstanding == s.outstanding && t.committing == s.committing && t.mode == s.mode
    requires t.ops == Charged(s.ops, op, b in s.lh)
    ensures Run(l, s, [Check(op), Append(op, b, v)]) == Next(t)
  {
    var m := s.(ops := s.ops[op := s.ops[op].(passed := true)]);
    RunOne(l, s, Check(op));
    RunOne(l, m, Append(op, b, v));
    RunConcat(l, s, [Check(op)], [Append(op, b, v)]);
    assert [Check(op)] + [Append(op, b, v)] == [Check(op), Append(op, b, v)];
    assert Step(l, m, Append(op, b, v)) == Next(t) by {
      assert m.ops[op := Op(s.ops[op].used + (if b in s.lh then 0 else 1), false)] == t.ops;
    }
  }

  /** The operation's budget after it has logged a block. */
  function Charged(ops: map<nat, Op>, op: nat, absorbed: bool): map<nat, Op>
    requires op in ops
  {
    ops[op := Op(ops[op].used + (if absorbed then 0 else 1), false)]
  }

  lemma {:induction false} RunPrefix(l: Layout, s: State, es: seq<Event>, k: nat)
    requires Sized(l, s) && Run(l, s, es).Next? && k <= |es|
    ensures Run(l, s, es[..k]).Next?
    decreases |es|
  {
    if k == |es| {
      assert es[..k] == es;
    } else {
      RunPrefix(l, s, es[..|es| - 1], k);
      assert es[..|es| - 1][..k] == es[..k];
    }
  }

  // ---- a transaction runs to its end ----

  /** t is s but for the blocks and the stage of the commit. */
  ghost predicate SameBooks(s: State, t: State) {
    t.lh == s.lh && t.ops == s.ops && t.outstanding == s.outstanding && t.committing == s.committing
  }

  lemma {:induction false} LogBlocksRun(l: Layout, s: State, k: nat) returns (t: State)
    requires Sized(l, s) && ListOk(l, s.lh) && s.mode == Logging(0) && k <= |s.lh|
    ensures Run(l, s, Repeat(LogBlock, k)) == Next(t) && Sized(l, t) && SameBooks(s, t) && t.mode == Logging(k)
    decreases k
  {
    if k == 0 {
      t := s;
    } else {
      var m := LogBlocksRun(l, s, k - 1);
      RunRepeat(l, s, LogBlock, k - 1, k);
      t := Step(l, m, LogBlock).s;
    }
  }

  lemma {:induction false} InstallsRun(l: Layout, s: State, k: nat) returns (t: State)
    requires Sized(l, s) && ListOk(l, s.lh) && s.mode == Installing(0) && k <= |s.lh|
    ensures Run(l, s, Repeat(Install, k)) == Next(t) && Sized(l, t) && SameBooks(s, t) && t.mode == Installing(k)
    decreases k
  {
    if k == 0 {
      t := s;
    } else {
      var m := InstallsRun(l, s, k - 1);
      RunRepeat(l, s, Install, k - 1, k);
      t := Step(l, m, Install).s;
    }
  }

  lemma InstallAndClear(l: Layout, s: State) returns (t: State)
    requires Sized(l, s) && ListOk(l, s.lh) && s.mode == Installing(0)
    ensures Run(l, s, Repeat(Install, |s.lh|) + [ClearHead]) == Next(t) && Sized(l, t) && t.mode == Cleared
    ensures t.lh == [] && t.ops == s.ops && t.outstanding == s.outstanding && t.committing == s.committing
  {
    var m := InstallsRun(l, s, |s.lh|);
    t := Step(l, m, ClearHead).s;
    RunConcat(l, s, Repeat(Install, |s.lh|), [ClearHead]);
    RunOne(l, m, ClearHead);
  }

  lemma CommitRuns(l: Layout, s: State) returns (t: State)
    requires Sized(l, s) && ListOk(l, s.lh) && s.mode == Logging(0)
    ensures Run(l, s, CommitEvents(|s.lh|)) == Next(t) && Sized(l, t)
    ensures t.mode == if s.lh == [] then Logging(0) else Cleared
    ensures t.lh == [] && t.ops == s.ops && t.outstanding == s.outstanding && t.committing == s.committing
  {
    if s.lh == [] {
      t := s;
    } else {
      var a := LogBlocksRun(l, s, |s.lh|);
      var b := Step(l, a, WriteHead).s;
      t := InstallAndClear(l, b);
      CommitRun(l, s, a, b, t, |s.lh|);
    }
  }

  lemma {:induction false} ListedDistinct(l: Layout, ws: seq<Write>)
    requires forall i :: 0 <= i < |ws| ==> l.Home(ws[i].0)
    ensures Distinct(Listed(ws)) && forall i :: 0 <= i < |Listed(ws)| ==> l.Home(Listed(ws)[i])
    decreases |ws|
  {
    if ws != [] {
      ListedDistinct(l, ws[..|ws| - 1]);
    }
  }

  /** An operation inside its transaction, having made the log_writes ws since state s. */
  ghost predicate Inside(s: State, t: State, op: nat, ws: seq<Write>) {
    && t.disk == s.disk && t.view == Apply(s.view, ws) && t.lh == Listed(ws)
    && t.ops == map[op := Op(|Listed(ws)|, false)] && t.outstanding == 1 && !t.committing && t.mode == Running
  }

  lemma OneWriteRun(l: Layout, s: State, m: State, op: nat, ws: seq<Write>) returns (t: State)
    requires Sized(l, m) && ws != [] && Inside(s, m, op, ws[..|ws| - 1]) && l.Home(ws[|ws| - 1].0)
    requires |Listed(ws)| <= MAXOPBLOCKS < l.size - 1
    ensures Run(l, m, [Check(op), Append(op, ws[|ws| - 1].0, ws[|ws| - 1].1)]) == Next(t) && Sized(l, t) && Inside(s, t, op, ws)
  {
    var w := ws[|ws| - 1];
    t := m.(view := m.view[w.0 := w.1], lh := Listed(ws), ops := Charged(m.ops, op, w.0 in m.lh));
    AppendRun(l, m, t, op, w.0, w.1);
    assert t.ops == map[op := Op(|Listed(ws)|, false)];
  }

  lemma {:induction false} WritesRun(l: Layout, s: State, op: nat, ws: seq<Write>) returns (t: State)
    requires Fresh(l, s) && forall i :: 0 <= i < |ws| ==> l.Home(ws[i].0)
    requires |Listed(ws)| <= MAXOPBLOCKS < l.size - 1
    ensures Run(l, s, [Begin(op)] + WriteEvents(op, ws)) == Next(t) && Sized(l, t) && Inside(s, t, op, ws)
    decreases |ws|
  {
    if ws == [] {
      t := s.(ops := map[op := Op(0, false)], outstanding := 1);
      RunOne(l, s, Begin(op));
      assert [Begin(op)] + [] == [Begin(op)];
      assert s.ops[op := Op(0, false)] == map[op := Op(0, false)];
    } else {
      var before, w := ws[..|ws| - 1], ws[|ws| - 1];
      var m := WritesRun(l, s, op, before);
      t := OneWriteRun(l, s, m, op, ws);
      RunConcat(l, s, [Begin(op)] + WriteEvents(op, before), [Check(op), Append(op, w.0, w.1)]);
      assert [Begin(op)] + WriteEvents(op, ws) == [Begin(op)] + WriteEvents(op, before) + [Check(op), Append(op, w.0, w.1)];
    }
  }

  /** From a machine at rest to a machine at rest. */
  lemma TxnRuns(l: Layout, s: State, op: nat, ws: seq<Write>) returns (t: State)
    requires Fresh(l, s) && forall i :: 0 <= i < |ws| ==> l.Home(ws[i].0)
    requires |Listed(ws)| <= MAXOPBLOCKS < l.size - 1
    ensures Run(l, s, TxnEvents(op, ws)) == Next(t) && Fresh(l, t)
  {
    var a := WritesRun(l, s, op, ws);
    var b := a.(ops := map[], outstanding := 0, committing := true, mode := Logging(0));
    assert Step(l, a, End(op)) == Next(b) by {
      assert a.ops - {op} == map[];
    }
    ListedDistinct(l, ws);
    var c := CommitRuns(l, b);
    t := c.(committing := false, mode := Running);
    EndRun(l, a, b, c, t, op, |Listed(ws)|);
    RunConcat(l, s, [Begin(op)] + WriteEvents(op, ws), [End(op)] + (CommitEvents(|Listed(ws)|) + [Finish]));
    AtRest(l, s, TxnEvents(op, ws), t);
  }

  lemma AtRest(l: Layout, s: State, es: seq<Event>, t: State)
    requires Fresh(l, s) && Run(l, s, es) == Next(t)
    requires t.mode == Running && t.lh == [] && t.ops == map[] && t.outstanding == 0 && !t.committing
    ensures Fresh(l, t)
  {
    RunGood(l, s, es);
    assert t.view == t.disk;
  }

  ghost predicate Fits(l: Layout, txns: seq<seq<Write>>) {
    && MAXOPBLOCKS < l.size - 1
    && forall t :: 0 <= t < |txns| ==>
         |Listed(txns[t])| <= MAXOPBLOCKS && forall i :: 0 <= i < |txns[t]| ==> l.Home(txns[t][i].0)
  }

  lemma {:induction false} AllRun(l: Layout, s: State, op: nat, txns: seq<seq<Write>>) returns (t: State)
    requires Fresh(l, s) && Fits(l, txns)
    ensures Run(l, s, AllEvents(op, txns)) == Next(t) && Fresh(l, t)
    decreases |txns|
  {
    if txns == [] {
      t := s;
    } else {
      var m := AllRun(l, s, op, txns[..|txns| - 1]);
      t := TxnRuns(l, m, op, txns[|txns| - 1]);
      RunConcat(l, s, AllEvents(op, txns[..|txns| - 1]), TxnEvents(op, txns[|txns| - 1]));
    }
  }

  // ---- what a prefix has committed ----

  function RecordAll(h: History, es: seq<Event>): History {
    if es == [] then h else Record(RecordAll(h, es[..|es| - 1]), es[|es| - 1])
  }

  lemma {:induction false} RecordConcat(h: History, es: seq<Event>, fs: seq<Event>)
    ensures RecordAll(h, es + fs) == RecordAll(RecordAll(h, es), fs)
    decreases |fs|
  {
    if fs == [] {
      assert es + fs == es;
    } else {
      assert (es + fs)[..|es + fs| - 1] == es + fs[..|fs| - 1];
      RecordConcat(h, es, fs[..|fs| - 1]);
    }
  }

  lemma RecordOne(h: History, e: Event)
    ensures RecordAll(h, [e]) == Record(h, e) && Commits([e]) == if e == WriteHead then 1 else 0
  {
    assert [e][..0] == [];
  }

  lemma {:induction false} HistoryIsRecord(es: seq<Event>)
    ensures HistoryOf(es) == RecordAll(History([], []), es)
    decreases |es|
  {
    if es != [] {
      HistoryIsRecord(es[..|es| - 1]);
    }
  }

  /** The number of transactions whose header has reached the disk. */
  function Commits(es: seq<Event>): nat {
    if es == [] then 0 else Commits(es[..|es| - 1]) + if es[|es| - 1] == WriteHead then 1 else 0
  }

  lemma {:induction false} CommitsConcat(es: seq<Event>, fs: seq<Event>)
    ensures Commits(es + fs) == Commits(es) + Commits(fs)
    decreases |fs|
  {
    if fs == [] {
      assert es + fs == es;
    } else {
      assert (es + fs)[..|es + fs| - 1] == es + fs[..|fs| - 1];
      CommitsConcat(es, fs[..|fs| - 1]);
    }
  }

  function Concat(txns: seq<seq<Write>>): seq<Write> {
    if txns == [] then [] else Concat(txns[..|txns| - 1]) + txns[|txns| - 1]
  }

  /** Events that commit nothing and lose nothing. */
  predicate Calm(es: seq<Event>) {
    forall i :: 0 <= i < |es| ==> es[i] != WriteHead && es[i] != Crash
  }

  lemma {:induction false} CalmRecord(h: History, es: seq<Event>)
    requires Calm(es)
    ensures RecordAll(h, es).durable == h.durable && Commits(es) == 0
    decreases |es|
  {
    if es != [] {
      CalmRecord(h, es[..|es| - 1]);
    }
  }

  lemma {:induction false} SilentRecord(h: History, es: seq<Event>)
    requires Calm(es) && forall i :: 0 <= i < |es| ==> !es[i].Append?
    ensures RecordAll(h, es) == h
    decreases |es|
  {
    if es != [] {
      SilentRecord(h, es[..|es| - 1]);
    }
  }

  lemma {:induction false} WritesRecord(h: History, op: nat, ws: seq<Write>)
    ensures RecordAll(h, WriteEvents(op, ws)) == h.(pending := h.pending + ws) && Calm(WriteEvents(op, ws))
    decreases |ws|
  {
    if ws == [] {
      assert h.pending + [] == h.pending;
    } else {
      var before, w := ws[..|ws| - 1], ws[|ws| - 1];
      WritesRecord(h, op, before);
      RecordConcat(h, WriteEvents(op, before), [Check(op), Append(op, w.0, w.1)]);
      var h1 := RecordAll(h, WriteEvents(op, before));
      RecordConcat(h1, [Check(op)], [Append(op, w.0, w.1)]);
      RecordOne(h1, Check(op));
      RecordOne(h1, Append(op, w.0, w.1));
      assert [Check(op), Append(op, w.0, w.1)] == [Check(op)] + [Append(op, w.0, w.1)];
      assert h.pending + before + [w] == h.pending + ws;
    }
  }

  /** The events up to the header write, and those after it. */
  function Ahead(op: nat, ws: seq<Write>): seq<Event> {
    [Begin(op)] + WriteEvents(op, ws) + ([End(op)] + Repeat(LogBlock, |Listed(ws)|))
  }

  function Behind(n: nat): seq<Event> {
    Repeat(Install, n) + [ClearHead] + [Finish]
  }

  lemma {:induction false} ListedNonempty(ws: seq<Write>)
    requires ws != []
    ensures Listed(ws) != []
  {
  }

  lemma TxnSplit(op: nat, ws: seq<Write>)
    requires ws != []
    ensures TxnEvents(op, ws) == Ahead(op, ws) + [WriteHead] + Behind(|Listed(ws)|)
    ensures Calm(Ahead(op, ws)) && Calm(Behind(|Listed(ws)|))
  {
    WritesRecord(History([], []), op, ws);
    ListedNonempty(ws);
  }

  lemma AheadRecord(h: History, op: nat, ws: seq<Write>)
    ensures RecordAll(h, Ahead(op, ws)) == h.(pending := h.pending + ws)
  {
    var mid := h.(pending := h.pending + ws);
    RecordConcat(h, [Begin(op)] + WriteEvents(op, ws), [End(op)] + Repeat(LogBlock, |Listed(ws)|));
    RecordConcat(h, [Begin(op)], WriteEvents(op, ws));
    SilentRecord(h, [Begin(op)]);
    WritesRecord(h, op, ws);
    SilentRecord(mid, [End(op)] + Repeat(LogBlock, |Listed(ws)|));
  }

  lemma HeadRecord(h: History, op: nat, ws: seq<Write>)
    requires h.pending == [] && Calm(Ahead(op, ws))
    ensures RecordAll(h, Ahead(op, ws) + [WriteHead]) == History(h.durable + ws, [])
    ensures Commits(Ahead(op, ws) + [WriteHead]) == 1
  {
    var a := Ahead(op, ws);
    AheadRecord(h, op, ws);
    CalmRecord(h, a);
    RecordConcat(h, a, [WriteHead]);
    CommitsConcat(a, [WriteHead]);
    RecordOne(RecordAll(h, a), WriteHead);
    assert h.pending + ws == ws;
  }

  lemma TailRecord(h: History, es: seq<Event>, rest: seq<Event>)
    requires Calm(rest) && forall i :: 0 <= i < |rest| ==> !rest[i].Append?
    ensures RecordAll(h, es + rest) == RecordAll(h, es) && Commits(es + rest) == Commits(es)
  {
    RecordConcat(h, es, rest);
    CommitsConcat(es, rest);
    SilentRecord(RecordAll(h, es), rest);
    CalmRecord(h, rest);
  }

  /** A transaction cut off after k events has committed all its writes or none of them. */
  lemma TxnPrefix(h: History, op: nat, ws: seq<Write>, k: nat)
    requires h.pending == [] && ws != [] && k <= |TxnEvents(op, ws)|
    ensures var es := TxnEvents(op, ws)[..k];
            && Commits(es) <= 1
            && RecordAll(h, es).durable == (if Commits(es) == 0 then h.durable else h.durable + ws)
            && (k == |TxnEvents(op, ws)| ==> Commits(es) == 1 && RecordAll(h, es).pending == [])
  {
    TxnSplit(op, ws);
    var es, a, b := TxnEvents(op, ws)[..k], Ahead(op, ws), Behind(|Listed(ws)|);
    if k <= |a| {
      assert es == a[..k];
      CalmRecord(h, es);
    } else {
      var rest := b[..k - |a| - 1];
      assert es == a + [WriteHead] + rest;
      HeadRecord(h, op, ws);
      TailRecord(h, a + [WriteHead], rest);
    }
  }

  /** es has made the first Commits(es) transactions durable. */
  ghost predicate Through(es: seq<Event>, txns: seq<seq<Write>>) {
    Commits(es) <= |txns| && HistoryOf(es).durable == Concat(txns[..Commits(es)])
  }

  lemma HistoryConcat(es: seq<Event>, part: seq<Event>)
    ensures HistoryOf(es + part) == RecordAll(HistoryOf(es), part)
  {
    HistoryIsRecord(es);
    HistoryIsRecord(es + part);
    RecordConcat(History([], []), es, part);
  }

  lemma ConcatTake(txns: seq<seq<Write>>)
    requires txns != []
    ensures Concat(txns[..|txns|]) == Concat(txns[..|txns| - 1]) + txns[|txns| - 1]
    ensures txns[..|txns| - 1][..|txns| - 1] == txns[..|txns| - 1]
  {
    assert txns[..|txns|] == txns;
  }

  lemma ThroughMore(es: seq<Event>, txns: seq<seq<Write>>)
    requires txns != [] && Through(es, txns[..|txns| - 1])
    ensures Through(es, txns)
  {
    assert txns[..Commits(es)] == txns[..|txns| - 1][..Commits(es)];
  }

  ghost predicate Complete(es: seq<Event>, txns: seq<seq<Write>>) {
    Commits(es) == |txns| && HistoryOf(es).pending == []
  }

  lemma ThroughLast(es: seq<Event>, part: seq<Event>, op: nat, txns: seq<seq<Write>>, k: nat)
    requires txns != [] && txns[|txns| - 1] != [] && k <= |TxnEvents(op, txns[|txns| - 1])|
    requires part == TxnEvents(op, txns[|txns| - 1])[..k]
    requires Through(es, txns[..|txns| - 1]) && Complete(es, txns[..|txns| - 1])
    ensures Through(es + part, txns) && (k == |TxnEvents(op, txns[|txns| - 1])| ==> Complete(es + part, txns))
  {
    HistoryConcat(es, part);
    TxnPrefix(HistoryOf(es), op, txns[|txns| - 1], k);
    CommitsConcat(es, part);
    ConcatTake(txns);
  }

  lemma Cut(a: seq<Event>, b: seq<Event>, c: seq<Event>, k: nat) returns (cut: seq<Event>)
    requires c == a + b && k <= |c|
    ensures k < |a| ==> cut == a[..k] == c[..k]
    ensures k >= |a| ==> cut == b[..k - |a|] && a + cut == c[..k]
  {
    cut := if k < |a| then a[..k] else b[..k - |a|];
  }

  /** Any number of transactions, cut off anywhere: the first Commits of them are durable. */
  lemma {:induction false} PrefixCommits(op: nat, txns: seq<seq<Write>>, all: seq<Event>, k: nat, es: seq<Event>)
    requires (forall t :: 0 <= t < |txns| ==> txns[t] != []) && all == AllEvents(op, txns) && k <= |all| && es == all[..k]
    ensures Through(es, txns) && (k == |all| ==> Complete(es, txns))
    decreases |txns|
  {
    if txns != [] {
      var before, last := txns[..|txns| - 1], txns[|txns| - 1];
      var most, rest := AllEvents(op, before), TxnEvents(op, last);
      var cut := Cut(most, rest, all, k);
      if k < |most| {
        PrefixCommits(op, before, most, k, cut);
        ThroughMore(cut, txns);
      } else {
        assert most[..|most|] == most;
        PrefixCommits(op, before, most, |most|, most);
        ThroughLast(most, cut, op, txns, k - |most|);
      }
    }
  }

  lemma TornCommits(op: nat, txns: seq<seq<Write>>, torn: seq<Event>, whole: seq<Event>, all: seq<Event>, k: nat, es: seq<Event>)
    requires (forall t :: 0 <= t < |txns| ==> txns[t] != []) && Calm(torn)
    requires whole == AllEvents(op, txns) && all == whole + torn && k <= |all| && es == all[..k]
    ensures Through(es, txns) && (k >= |whole| ==> Commits(es) == |txns|)
  {
    var cut := Cut(whole, torn, all, k);
    if k < |whole| {
      PrefixCommits(op, txns, whole, k, cut);
    } else {
      assert whole[..|whole|] == whole;
      PrefixCommits(op, txns, whole, |whole|, whole);
      HistoryConcat(whole, cut);
      CommitsConcat(whole, cut);
      CalmRecord(HistoryOf(whole), cut);
    }
  }

  /** An operation that has made the log_writes torn and goes no further. */
  function Unfinished(op: nat, torn: seq<Write>): seq<Event> {
    [Begin(op)] + WriteEvents(op, torn)
  }

  lemma CalmUnfinished(op: nat, torn: seq<Write>)
    ensures Calm(Unfinished(op, torn))
  {
    WritesRecord(History([], []), op, torn);
  }

  /** Crash atomicity of a sequence of transactions, the last one unfinished: cut off after any k
      events, the recovered home blocks are the old ones with the writes of the first Commits
      transactions. */
  lemma TxnAtomicity(l: Layout, s0: State, op: nat, txns: seq<seq<Write>>, torn: seq<Write>, all: seq<Event>, k: nat, es: seq<Event>)
    requires Fresh(l, s0) && Fits(l, txns + [torn]) && (forall t :: 0 <= t < |txns| ==> txns[t] != [])
    requires all == AllEvents(op, txns) + Unfinished(op, torn) && k <= |all| && es == all[..k]
    ensures Run(l, s0, es).Next? && Commits(es) <= |txns| && (k >= |AllEvents(op, txns)| ==> Commits(es) == |txns|)
    ensures var disk := Run(l, s0, es).s.disk;
            && HeaderOk(disk[l.start]) && |HeaderOf(disk[l.start])| < l.size
            && forall b: Word :: l.Home(b) ==> Recover(l, disk)[b] == Apply(s0.disk, Concat(txns[..Commits(es)]))[b]
  {
    FitsParts(l, txns, torn);
    var t := AllRun(l, s0, op, txns);
    var u := WritesRun(l, t, op, torn);
    RunConcat(l, s0, AllEvents(op, txns), Unfinished(op, torn));
    RunPrefix(l, s0, all, k);
    CrashAtomicity(l, s0, es);
    CalmUnfinished(op, torn);
    TornCommits(op, txns, Unfinished(op, torn), AllEvents(op, txns), all, k, es);
  }

  lemma FitsParts(l: Layout, txns: seq<seq<Write>>, torn: seq<Write>)
    requires Fits(l, txns + [torn])
    ensures Fits(l, txns) && |Listed(torn)| <= MAXOPBLOCKS && forall i :: 0 <= i < |torn| ==> l.Home(torn[i].0)
  {
    var both := txns + [torn];
    assert both[|txns|] == torn;
    forall t | 0 <= t < |txns|
      ensures |Listed(txns[t])| <= MAXOPBLOCKS && forall i :: 0 <= i < |txns[t]| ==> l.Home(txns[t][i].0)
    {
      assert both[t] == txns[t];
    }
  }

  // ---- from power-on ----

  lemma RecoverRuns(l: Layout, s: State) returns (t: State)
    requires Booted(l, s)
    ensures Run(l, s, RecoverEvents(|HeaderOf(s.disk[l.start])|)) == Next(t) && Fresh(l, t)
  {
    var n := |HeaderOf(s.disk[l.start])|;
    var a := s.(lh := HeaderOf(s.disk[l.start]), mode := Installing(0));
    var b := InstallAndClear(l, a);
    t := b.(mode := Running);
    RecoverRun(l, s, a, b, t, n);
    BootAtRest(l, s, RecoverEvents(n), t);
  }

  lemma BootAtRest(l: Layout, s: State, es: seq<Event>, t: State)
    requires Booted(l, s) && Run(l, s, es) == Next(t)
    requires t.mode == Running && t.lh == [] && t.ops == map[] && t.outstanding == 0 && !t.committing
    ensures Fresh(l, t)
  {
    BootedInv(l, s);
    RunGoodFrom(l, s, Recover(l, s.disk), es);
    assert t.view == t.disk;
  }

  lemma CalmRecovery(n: nat, es: seq<Event>)
    requires es == RecoverEvents(n)
    ensures Calm(es) && forall i :: 0 <= i < |es| ==> !es[i].Append?
  {
  }

  /** Recovery and then any number of transactions, cut off anywhere, in recovery too. */
  lemma BootTxnAtomicity(l: Layout, s0: State, op: nat, txns: seq<seq<Write>>, recovery: seq<Event>, all: seq<Event>, k: nat, es: seq<Event>)
    requires Booted(l, s0) && Fits(l, txns) && (forall t :: 0 <= t < |txns| ==> txns[t] != [])
    requires recovery == RecoverEvents(|HeaderOf(s0.disk[l.start])|)
    requires all == recovery + AllEvents(op, txns) && k <= |all| && es == all[..k]
    ensures Run(l, s0, es).Next? && Commits(es) <= |txns| && (k == |all| ==> Commits(es) == |txns|)
    ensures var disk := Run(l, s0, es).s.disk;
            && HeaderOk(disk[l.start]) && |HeaderOf(disk[l.start])| < l.size
            && forall b: Word :: l.Home(b) ==>
                 Recover(l, disk)[b] == Apply(Recover(l, s0.disk), Concat(txns[..Commits(es)]))[b]
  {
    var a := RecoverRuns(l, s0);
    var b := AllRun(l, a, op, txns);
    RunConcat(l, s0, recovery, AllEvents(op, txns));
    RunPrefix(l, s0, all, k);
    BootAtomicity(l, s0, es);
    CalmRecovery(|HeaderOf(s0.disk[l.start])|, recovery);
    BootCommits(op, txns, recovery, all, k, es);
  }

  lemma BootCommits(op: nat, txns: seq<seq<Write>>, recovery: seq<Event>, all: seq<Event>, k: nat, es: seq<Event>)
    requires (forall t :: 0 <= t < |txns| ==> txns[t] != []) && Calm(recovery) && (forall i :: 0 <= i < |recovery| ==> !recovery[i].Append?)
    requires all == recovery + AllEvents(op, txns) && k <= |all| && es == all[..k]
    ensures Through(es, txns) && (k == |all| ==> Complete(es, txns))
  {
    var events := AllEvents(op, txns);
    var cut := Cut(recovery, events, all, k);
    if k < |recovery| {
      CalmRecord(History([], []), cut);
      HistoryIsRecord(cut);
    } else {
      PrefixCommits(op, txns, events, k - |recovery|, cut);
      AfterRecovery(recovery, cut);
    }
  }

  lemma AfterRecovery(recovery: seq<Event>, es: seq<Event>)
    requires Calm(recovery) && forall i :: 0 <= i < |recovery| ==> !recovery[i].Append?
    ensures HistoryOf(recovery + es) == HistoryOf(es) && Commits(recovery + es) == Commits(es)
  {
    var h := History([], []);
    CalmRecord(h, recovery);
    SilentRecord(h, recovery);
    HistoryIsRecord(recovery);
    HistoryConcat(recovery, es);
    HistoryIsRecord(es);
    CommitsConcat(recovery, es);
  }
}
