/** The write-ahead log of log.c as a step machine: any number of file system
    operations interleave, the committer issues one single-block disk write per
    step, and the machine may crash between any two steps, also while it is
    recovering. */
module LogMachine {
  import opened Blocks

  const MAXOPBLOCKS: nat := 10
  const LOGSIZE: nat := 30

  /** log.start, log.size and the size of the disk. The header is block `start`,
      the logged copies follow it. */
  datatype Layout = Layout(start: nat, size: nat, nblocks: nat) {
    predicate Ok() {
      1 <= size && start + size <= nblocks < 0x1_0000_0000
    }
    predicate InLog(b: nat) {
      start <= b < start + size
    }
    predicate Home(b: nat) {
      b < nblocks && !InLog(b)
    }
    function Slot(i: nat): nat {
      start + 1 + i
    }
  }

  // ---- the header block ----

  predicate HeaderOk(h: Block) {
    GetWord(h, 0) <= LOGSIZE
  }

  /** What read_head takes out of the header block. */
  function HeaderOf(h: Block): (lh: seq<Word>)
    requires HeaderOk(h)
  {
    seq(GetWord(h, 0), i requires 0 <= i < GetWord(h, 0) => GetWord(h, 1 + i))
  }

  /** The header words block[..k] stored into the buffer h, the rest left alone. */
  function PutNumbers(h: Block, lh: seq<Word>, k: nat): (r: Block)
    requires k <= |lh| <= LOGSIZE
    ensures GetWord(r, 0) == GetWord(h, 0)
    ensures forall i: nat :: i < k ==> GetWord(r, 1 + i) == lh[i]
  {
    if k == 0 then h else PutWord(PutNumbers(h, lh, k - 1), k, lh[k - 1])
  }

  /** What write_head makes of the header block: reading it back gives lh. */
  function EncodeHeader(h: Block, lh: seq<Word>): (r: Block)
    requires |lh| <= LOGSIZE
    ensures HeaderOk(r) && HeaderOf(r) == lh
  {
    PutNumbers(PutWord(h, 0, |lh|), lh, |lh|)
  }

  // ---- states and steps ----

  /** Running: no commit under way. Logging(i): write_log has copied i blocks.
      Installing(i): install_trans has copied i blocks home. Cleared: the header
      was erased. Down: the machine has just booted, the log is not yet read. */
  datatype Mode = Running | Logging(i: nat) | Installing(i: nat) | Cleared | Down

  /** An operation between begin_op and end_op: how many blocks it has added to
      the header, and whether it is inside log_write, past the size check. */
  datatype Op = Op(used: nat, passed: bool)

  /** disk is what survives a crash; view is what bread returns; the rest is `log`. */
  datatype State = State(disk: seq<Block>, view: seq<Block>, lh: seq<Word>,
                         ops: map<nat, Op>, outstanding: nat, committing: bool, mode: Mode)

  datatype Event =
    | Begin(op: nat)
    | Check(op: nat)
    | Append(op: nat, b: Word, v: Block)
    | End(op: nat)
    | LogBlock
    | WriteHead
    | Install
    | ClearHead
    | Finish
    | Crash
    | ReadHead

  /** Blocked: the step is not enabled. Panic: the kernel panics. Overflow: the
      header array or the log area on disk would be overrun. */
  datatype Outcome = Next(s: State) | Blocked | Panic | Overflow

  predicate Sized(l: Layout, s: State) {
    l.Ok() && |s.disk| == l.nblocks && |s.view| == l.nblocks
  }

  function Put(s: State, b: nat, v: Block): State
    requires b < |s.disk| && b < |s.view|
  {
    s.(disk := s.disk[b := v], view := s.view[b := v])
  }

  function Step(l: Layout, s: State, e: Event): (o: Outcome)
    requires Sized(l, s)
    ensures o.Next? ==> Sized(l, o.s)
  {
    match e
    case Begin(op) =>
      if op in s.ops || s.mode != Running || s.committing
         || |s.lh| + (s.outstanding + 1) * MAXOPBLOCKS > LOGSIZE then Blocked
      else Next(s.(ops := s.ops[op := Op(0, false)], outstanding := s.outstanding + 1))
    case Check(op) =>
      if op !in s.ops || s.ops[op].passed then Blocked
      else if |s.lh| >= LOGSIZE || |s.lh| >= l.size - 1 || s.outstanding < 1 then Panic
      else Next(s.(ops := s.ops[op := s.ops[op].(passed := true)]))
    case Append(op, b, v) =>
      if op !in s.ops || !s.ops[op].passed || !l.Home(b) then Blocked
      else if b in s.lh then
        Next(s.(view := s.view[b := v], ops := s.ops[op := s.ops[op].(passed := false)]))
      else if s.ops[op].used >= MAXOPBLOCKS then Blocked
      else if |s.lh| >= LOGSIZE || |s.lh| >= l.size - 1 then Overflow
      else Next(s.(view := s.view[b := v], lh := s.lh + [b],
                   ops := s.ops[op := Op(s.ops[op].used + 1, false)]))
    case End(op) =>
      if op !in s.ops || s.ops[op].passed then Blocked
      else if s.committing || s.outstanding == 0 then Panic
      else if s.outstanding > 1 then
        Next(s.(ops := s.ops - {op}, outstanding := s.outstanding - 1))
      else Next(s.(ops := s.ops - {op}, outstanding := 0, committing := true, mode := Logging(0)))
    case LogBlock =>
      if !s.mode.Logging? || s.mode.i >= |s.lh| then Blocked
      else if l.Slot(s.mode.i) >= l.start + l.size || s.lh[s.mode.i] >= l.nblocks then Overflow
      else Next(Put(s, l.Slot(s.mode.i), s.view[s.lh[s.mode.i]]).(mode := Logging(s.mode.i + 1)))
    case WriteHead =>
      if s.mode != Logging(|s.lh|) || |s.lh| == 0 then Blocked
      else if |s.lh| > LOGSIZE then Overflow
      else Next(Put(s, l.start, EncodeHeader(s.disk[l.start], s.lh)).(mode := Installing(0)))
    case Install =>
      if !s.mode.Installing? || s.mode.i >= |s.lh| then Blocked
      else if l.Slot(s.mode.i) >= l.nblocks || s.lh[s.mode.i] >= l.nblocks then Overflow
      else Next(Put(s, s.lh[s.mode.i], s.view[l.Slot(s.mode.i)]).(mode := Installing(s.mode.i + 1)))
    case ClearHead =>
      if s.mode != Installing(|s.lh|) then Blocked
      else Next(Put(s, l.start, EncodeHeader(s.disk[l.start], [])).(lh := [], mode := Cleared))
    case Finish =>
      if s.mode == Cleared || (s.mode == Logging(0) && s.lh == []) then
        Next(s.(committing := false, mode := Running))
      else Blocked
    case Crash =>
      Next(s.(view := s.disk, lh := [], ops := map[], outstanding := 0, committing := false, mode := Down))
    case ReadHead =>
      if s.mode != Down then Blocked
      else if !HeaderOk(s.view[l.start]) then Overflow
      else Next(s.(lh := HeaderOf(s.view[l.start]), mode := Installing(0)))
  }

  function Run(l: Layout, s: State, es: seq<Event>): (o: Outcome)
    requires Sized(l, s)
    ensures o.Next? ==> Sized(l, o.s)
  {
    if es == [] then Next(s) else
    match Run(l, s, es[..|es| - 1])
    case Next(t) => Step(l, t, es[|es| - 1])
    case Blocked => Blocked
    case Panic => Panic
    case Overflow => Overflow
  }

  lemma RunOne(l: Layout, s: State, e: Event)
    requires Sized(l, s)
    ensures Run(l, s, [e]) == Step(l, s, e)
  {
    assert [e][..0] == [];
  }

  lemma {:induction false} RunConcat(l: Layout, s: State, es: seq<Event>, fs: seq<Event>)
    requires Sized(l, s) && Run(l, s, es).Next?
    ensures Run(l, s, es + fs) == Run(l, Run(l, s, es).s, fs)
    decreases |fs|
  {
    if fs == [] {
      assert es + fs == es;
    } else {
      var fs' := fs[..|fs| - 1];
      RunConcat(l, s, es, fs');
      assert (es + fs)[..|es + fs| - 1] == es + fs';
    }
  }

  // ---- the reference: what the events alone say must survive ----

  type Write = (Word, Block)

  /** durable: every write whose transaction's header reached the disk, in order.
      pending: the writes since then that a crash would lose. */
  datatype History = History(durable: seq<Write>, pending: seq<Write>)

  function HistoryOf(es: seq<Event>): (h: History)
  {
    if es == [] then History([], []) else Record(HistoryOf(es[..|es| - 1]), es[|es| - 1])
  }

  function Record(h: History, e: Event): History
  {
    match e
    case Append(_, b, v) => h.(pending := h.pending + [(b, v)])
    case WriteHead => History(h.durable + h.pending, [])
    case Crash => h.(pending := [])
    case _ => h
  }

  function Apply(disk: seq<Block>, ws: seq<Write>): (r: seq<Block>)
    ensures |r| == |disk|
  {
    if ws == [] then disk else
    var r := Apply(disk, ws[..|ws| - 1]);
    var w := ws[|ws| - 1];
    if w.0 < |r| then r[w.0 := w.1] else r
  }

  /** The operations that have begun and neither ended nor been lost to a crash. */
  function OpenOps(es: seq<Event>): (r: set<nat>)
  {
    if es == [] then {} else Opened(OpenOps(es[..|es| - 1]), es[|es| - 1])
  }

  function Opened(r: set<nat>, e: Event): set<nat>
  {
    match e
    case Begin(op) => r + {op}
    case End(op) => r - {op}
    case Crash => {}
    case _ => r
  }

  /** What recover_from_log would make of this disk: block i of the header's list
      is overwritten by the i-th logged copy, one after the other. */
  function Replay(l: Layout, disk: seq<Block>, lh: seq<Word>, k: nat): (r: seq<Block>)
    requires l.Ok() && |disk| == l.nblocks && k <= |lh| < l.size
    ensures |r| == |disk|
  {
    if k == 0 then disk else
    var r := Replay(l, disk, lh, k - 1);
    if lh[k - 1] < |r| then r[lh[k - 1] := r[l.Slot(k - 1)]] else r
  }

  function Recover(l: Layout, disk: seq<Block>): (r: seq<Block>)
    requires l.Ok() && |disk| == l.nblocks && HeaderOk(disk[l.start]) && |HeaderOf(disk[l.start])| < l.size
    ensures |r| == |disk|
  {
    var lh := HeaderOf(disk[l.start]);
    Replay(l, disk, lh, |lh|)
  }

  // ---- the invariant ----

  ghost predicate Distinct(lh: seq<Word>) {
    forall i, j :: 0 <= i < j < |lh| ==> lh[i] != lh[j]
  }

  ghost predicate ListOk(l: Layout, lh: seq<Word>) {
    && |lh| <= LOGSIZE && |lh| < l.size
    && Distinct(lh)
    && forall i :: 0 <= i < |lh| ==> l.Home(lh[i])
  }

  /** MAXOPBLOCKS budgets already spent by the operations under way. */
  ghost function Used(ops: map<nat, Op>): (r: nat)
  {
    if ops == map[] then 0 else
    var k :| k in ops;
    ops[k].used + Used(ops - {k})
  }

  lemma {:induction false} UsedSplit(ops: map<nat, Op>, k: nat)
    requires k in ops
    ensures Used(ops) == ops[k].used + Used(ops - {k})
    decreases |ops|
  {
    var c :| c in ops && Used(ops) == ops[c].used + Used(ops - {c});
    if c != k {
      UsedSplit(ops - {c}, k);
      UsedSplit(ops - {k}, c);
      assert ops - {c} - {k} == ops - {k} - {c};
    }
  }

  lemma UsedUpdate(ops: map<nat, Op>, k: nat, o: Op)
    ensures Used(ops[k := o]) == Used(ops - {k}) + o.used
    ensures k in ops ==> Used(ops) == Used(ops - {k}) + ops[k].used
    ensures k !in ops ==> ops - {k} == ops
  {
    UsedSplit(ops[k := o], k);
    assert ops[k := o] - {k} == ops - {k};
    if k in ops {
      UsedSplit(ops, k);
    }
  }

  lemma {:induction false} UsedBound(ops: map<nat, Op>, m: nat)
    requires forall k :: k in ops ==> ops[k].used <= m
    ensures Used(ops) <= m * |ops|
    decreases |ops|
  {
    if ops != map[] {
      var c :| c in ops && Used(ops) == ops[c].used + Used(ops - {c});
      UsedBound(ops - {c}, m);
      assert (ops - {c}).Keys == ops.Keys - {c};
      assert m * |ops| == m * (|ops| - 1) + m;
    }
  }

  /** The log bookkeeping of begin_op, log_write and end_op. */
  ghost predicate Admission(s: State) {
    && s.outstanding == |s.ops|
    && (forall k :: k in s.ops ==> s.ops[k].used <= MAXOPBLOCKS)
    && |s.lh| + MAXOPBLOCKS * |s.ops| - Used(s.ops) <= LOGSIZE
    && (s.mode == Running ==> !s.committing)
    && (s.mode != Running ==> s.ops == map[])
    && (s.committing ==> s.ops == map[] && s.mode != Running && s.mode != Down)
  }

  /** home is what the home blocks hold once this disk has been recovered. */
  ghost predicate Recoverable(l: Layout, disk: seq<Block>, home: seq<Block>) {
    && l.Ok() && |disk| == |home| == l.nblocks
    && HeaderOk(disk[l.start])
    && var lh := HeaderOf(disk[l.start]);
       && ListOk(l, lh)
       && (forall b: Word :: l.Home(b) && b !in lh ==> disk[b] == home[b])
       && (forall k :: 0 <= k < |lh| ==> disk[l.Slot(k)] == home[lh[k]])
  }

  ghost predicate Inv(l: Layout, s: State, durable: seq<Block>, current: seq<Block>) {
    && Sized(l, s) && |durable| == |current| == l.nblocks
    && ListOk(l, s.lh)
    && Admission(s)
    && Recoverable(l, s.disk, durable)
    && match s.mode
       case Running =>
         Uncommitted(l, s, durable, current)
       case Logging(i) =>
         && Uncommitted(l, s, durable, current)
         && i <= |s.lh|
         && forall k :: 0 <= k < i ==> s.disk[l.Slot(k)] == current[s.lh[k]]
       case Installing(i) =>
         && durable == current && i <= |s.lh|
         && HeaderOf(s.disk[l.start]) == s.lh
         && Installed(l, s, durable, i)
       case Cleared =>
         && durable == current && s.lh == [] && s.view == s.disk
         && HeaderOf(s.disk[l.start]) == []
       case Down =>
         && durable == current && s.lh == [] && s.view == s.disk
  }

  /** Nothing of the current transaction is at its home location yet, and the cache
      differs from the disk on the logged blocks only. */
  ghost predicate Uncommitted(l: Layout, s: State, durable: seq<Block>, current: seq<Block>)
    requires Sized(l, s) && |durable| == |current| == l.nblocks && HeaderOk(s.disk[l.start])
  {
    && HeaderOf(s.disk[l.start]) == []
    && (forall b: Word :: l.Home(b) ==> s.view[b] == current[b])
    && (forall b: Word :: b < l.nblocks && b !in s.lh ==> s.view[b] == s.disk[b])
  }

  ghost predicate Installed(l: Layout, s: State, durable: seq<Block>, i: nat)
    requires Sized(l, s) && |durable| == l.nblocks && ListOk(l, s.lh) && i <= |s.lh|
  {
    && (forall k :: 0 <= k < i ==> s.disk[s.lh[k]] == s.view[s.lh[k]] == durable[s.lh[k]])
    && (forall b: Word :: b < l.nblocks && b !in s.lh ==> s.view[b] == s.disk[b])
  }

  // ---- every step keeps it ----

  lemma AdmissionBegin(l: Layout, s: State, op: nat)
    requires Sized(l, s) && Admission(s) && Step(l, s, Begin(op)).Next?
    ensures Admission(Step(l, s, Begin(op)).s)
  {
    UsedUpdate(s.ops, op, Op(0, false));
    assert s.ops[op := Op(0, false)].Keys == s.ops.Keys + {op};
    UsedBound(s.ops, MAXOPBLOCKS);
  }

  lemma AdmissionEnd(l: Layout, s: State, op: nat)
    requires Sized(l, s) && Admission(s) && Step(l, s, End(op)).Next?
    ensures Admission(Step(l, s, End(op)).s)
  {
    UsedSplit(s.ops, op);
    assert (s.ops - {op}).Keys == s.ops.Keys - {op};
    assert |s.ops - {op}| == |s.ops| - 1;
  }

  lemma AdmissionUpdate(l: Layout, s: State, e: Event)
    requires Sized(l, s) && Admission(s) && Step(l, s, e).Next? && (e.Check? || e.Append?)
    ensures Admission(Step(l, s, e).s)
  {
    var o := Step(l, s, e).s.ops[e.op];
    UsedUpdate(s.ops, e.op, o);
    assert Step(l, s, e).s.ops == s.ops[e.op := o];
    assert s.ops[e.op := o].Keys == s.ops.Keys;
  }

  lemma OpEvents(l: Layout, s: State, e: Event, durable: seq<Block>, current: seq<Block>)
    requires Inv(l, s, durable, current) && Step(l, s, e).Next?
    requires e.Begin? || e.Check? || e.End?
    ensures Inv(l, Step(l, s, e).s, durable, current)
  {
    match e
    case Begin(op) => AdmissionBegin(l, s, op);
    case Check(op) => AdmissionUpdate(l, s, e);
    case End(op) => AdmissionEnd(l, s, op);
  }

  lemma AppendEvent(l: Layout, s: State, e: Event, durable: seq<Block>, current: seq<Block>)
    requires Inv(l, s, durable, current) && Step(l, s, e).Next? && e.Append?
    ensures e.b < l.nblocks && Inv(l, Step(l, s, e).s, durable, current[e.b := e.v])
  {
    AdmissionUpdate(l, s, e);
  }

  lemma LogBlockEvent(l: Layout, s: State, durable: seq<Block>, current: seq<Block>)
    requires Inv(l, s, durable, current) && Step(l, s, LogBlock).Next?
    ensures Inv(l, Step(l, s, LogBlock).s, durable, current)
  {
  }

  lemma WriteHeadEvent(l: Layout, s: State, durable: seq<Block>, current: seq<Block>)
    requires Inv(l, s, durable, current) && Step(l, s, WriteHead).Next?
    ensures Inv(l, Step(l, s, WriteHead).s, current, current)
  {
  }

  /** Copying one logged block home, again or for the first time, changes nothing that
      recovery would produce. */
  lemma InstallKeepsRecoverable(l: Layout, disk: seq<Block>, home: seq<Block>, i: nat)
    requires Recoverable(l, disk, home) && i < |HeaderOf(disk[l.start])|
    ensures var lh := HeaderOf(disk[l.start]);
            && disk[l.Slot(i)] == home[lh[i]]
            && Recoverable(l, disk[lh[i] := home[lh[i]]], home)
  {
    var lh := HeaderOf(disk[l.start]);
    assert disk[lh[i] := home[lh[i]]][l.start] == disk[l.start];
  }

  lemma InstalledMore(l: Layout, s: State, durable: seq<Block>, i: nat)
    requires Sized(l, s) && |durable| == l.nblocks && ListOk(l, s.lh) && i < |s.lh| && Installed(l, s, durable, i)
    ensures s.view[l.Slot(i)] == s.disk[l.Slot(i)]
    ensures Installed(l, Put(s, s.lh[i], durable[s.lh[i]]), durable, i + 1)
  {
    assert l.Slot(i) !in s.lh;
  }

  lemma InstallEvent(l: Layout, s: State, durable: seq<Block>, current: seq<Block>)
    requires Inv(l, s, durable, current) && Step(l, s, Install).Next?
    ensures Inv(l, Step(l, s, Install).s, durable, current)
  {
    var i, t := s.mode.i, Step(l, s, Install).s;
    InstallKeepsRecoverable(l, s.disk, durable, i);
    InstalledMore(l, s, durable, i);
    assert t == Put(s, s.lh[i], durable[s.lh[i]]).(mode := Installing(i + 1));
    assert t.disk[l.start] == s.disk[l.start];
  }

  lemma RestEvents(l: Layout, s: State, e: Event, durable: seq<Block>, current: seq<Block>)
    requires Inv(l, s, durable, current) && Step(l, s, e).Next?
    requires e.ClearHead? || e.Finish? || e.ReadHead?
    ensures Inv(l, Step(l, s, e).s, durable, current)
  {
  }

  lemma CrashEvent(l: Layout, s: State, durable: seq<Block>, current: seq<Block>)
    requires Inv(l, s, durable, current)
    ensures Inv(l, Step(l, s, Crash).s, durable, durable)
  {
    UsedBound(map[], MAXOPBLOCKS);
  }

  // ---- crash atomicity over every run ----

  /** A mounted file system with nothing logged and nobody inside an operation. */
  ghost predicate Fresh(l: Layout, s: State) {
    && Sized(l, s) && s.mode == Running && s.lh == [] && s.ops == map[]
    && s.outstanding == 0 && !s.committing && s.view == s.disk
    && HeaderOk(s.disk[l.start]) && HeaderOf(s.disk[l.start]) == []
  }

  /** The invariant, with the reference contents computed from the history. */
  ghost predicate Good(l: Layout, s: State, disk: seq<Block>, h: History) {
    Inv(l, s, Apply(disk, h.durable), Apply(disk, h.durable + h.pending))
  }

  lemma AppendGood(l: Layout, s: State, e: Event, disk: seq<Block>, h: History)
    requires Good(l, s, disk, h) && Step(l, s, e).Next? && e.Append?
    ensures Good(l, Step(l, s, e).s, disk, Record(h, e))
  {
    var ws := h.durable + Record(h, e).pending;
    assert ws[..|ws| - 1] == h.durable + h.pending;
    AppendEvent(l, s, e, Apply(disk, h.durable), Apply(disk, h.durable + h.pending));
  }

  lemma StepGood(l: Layout, s: State, e: Event, disk: seq<Block>, h: History)
    requires Good(l, s, disk, h) && Step(l, s, e).Next?
    ensures Good(l, Step(l, s, e).s, disk, Record(h, e))
  {
    var durable, current := Apply(disk, h.durable), Apply(disk, h.durable + h.pending);
    match e
    case Append(_, b, v) => AppendGood(l, s, e, disk, h);
    case LogBlock => LogBlockEvent(l, s, durable, current);
    case WriteHead =>
      WriteHeadEvent(l, s, durable, current);
      assert h.durable + h.pending + [] == h.durable + h.pending;
    case Install => InstallEvent(l, s, durable, current);
    case Crash =>
      CrashEvent(l, s, durable, current);
      assert h.durable + [] == h.durable;
    case Begin(_) => OpEvents(l, s, e, durable, current);
    case Check(_) => OpEvents(l, s, e, durable, current);
    case End(_) => OpEvents(l, s, e, durable, current);
    case ClearHead => RestEvents(l, s, e, durable, current);
    case Finish => RestEvents(l, s, e, durable, current);
    case ReadHead => RestEvents(l, s, e, durable, current);
  }

  lemma {:induction false} RunGoodFrom(l: Layout, s0: State, base: seq<Block>, es: seq<Event>)
    requires Inv(l, s0, base, base) && Run(l, s0, es).Next?
    ensures Good(l, Run(l, s0, es).s, base, HistoryOf(es))
    decreases |es|
  {
    if es != [] {
      var es', e := es[..|es| - 1], es[|es| - 1];
      var s := Run(l, s0, es').s;
      RunGoodFrom(l, s0, base, es');
      StepGood(l, s, e, base, HistoryOf(es'));
      assert Run(l, s0, es) == Step(l, s, e);
      assert HistoryOf(es) == Record(HistoryOf(es'), e);
    }
  }

  lemma RunGood(l: Layout, s0: State, es: seq<Event>)
    requires Fresh(l, s0) && Run(l, s0, es).Next?
    ensures Good(l, Run(l, s0, es).s, s0.disk, HistoryOf(es))
  {
    assert Used(map[]) == 0;
    RunGoodFrom(l, s0, s0.disk, es);
  }

  lemma StepOps(l: Layout, s: State, e: Event)
    requires Sized(l, s) && Step(l, s, e).Next?
    ensures Step(l, s, e).s.ops.Keys == Opened(s.ops.Keys, e)
  {
  }

  lemma {:induction false} RunOps(l: Layout, s0: State, es: seq<Event>)
    requires Fresh(l, s0) && Run(l, s0, es).Next?
    ensures Run(l, s0, es).s.ops.Keys == OpenOps(es)
    decreases |es|
  {
    if es != [] {
      var es', e := es[..|es| - 1], es[|es| - 1];
      RunOps(l, s0, es');
      StepOps(l, Run(l, s0, es').s, e);
      assert OpenOps(es) == Opened(OpenOps(es'), e);
    }
  }

  lemma {:induction false} ReplayBlocks(l: Layout, disk: seq<Block>, lh: seq<Word>, k: nat)
    requires l.Ok() && |disk| == l.nblocks && ListOk(l, lh) && k <= |lh|
    ensures forall b: Word :: b < l.nblocks && b !in lh[..k] ==> Replay(l, disk, lh, k)[b] == disk[b]
    ensures forall i :: 0 <= i < k ==> Replay(l, disk, lh, k)[lh[i]] == disk[l.Slot(i)]
    decreases k
  {
    if k > 0 {
      ReplayBlocks(l, disk, lh, k - 1);
      assert l.Slot(k - 1) !in lh[..k - 1];
      assert lh[..k] == lh[..k - 1] + [lh[k - 1]];
    }
  }

  lemma RecoversTo(l: Layout, disk: seq<Block>, home: seq<Block>)
    requires Recoverable(l, disk, home)
    ensures forall b: Word :: l.Home(b) ==> Recover(l, disk)[b] == home[b]
  {
    var lh := HeaderOf(disk[l.start]);
    ReplayBlocks(l, disk, lh, |lh|);
    forall b: Word | l.Home(b)
      ensures Recover(l, disk)[b] == home[b]
    {
      if b in lh {
        var i :| 0 <= i < |lh| && lh[i] == b;
      } else {
        assert b !in lh[..|lh|];
      }
    }
  }

  /** Crash atomicity. Whatever the operations did, wherever the run stopped, and
      however often it crashed before, recovering the disk as it stands gives every
      home block the contents left by exactly the transactions whose header write
      reached the disk; the cache shows those plus the writes still pending whenever
      no commit or recovery is under way. */
  lemma CrashAtomicity(l: Layout, s0: State, es: seq<Event>)
    requires Fresh(l, s0) && Run(l, s0, es).Next?
    ensures var s, h := Run(l, s0, es).s, HistoryOf(es);
            && HeaderOk(s.disk[l.start]) && |HeaderOf(s.disk[l.start])| < l.size
            && (forall b: Word :: l.Home(b) ==> Recover(l, s.disk)[b] == Apply(s0.disk, h.durable)[b])
            && (s.mode == Running ==>
                  forall b: Word :: l.Home(b) ==> s.view[b] == Apply(s0.disk, h.durable + h.pending)[b])
  {
    RunGood(l, s0, es);
    RecoversTo(l, Run(l, s0, es).s.disk, Apply(s0.disk, HistoryOf(es).durable));
  }

  /** A machine that has just been switched on, with any disk whose log header makes sense. */
  ghost predicate Booted(l: Layout, s: State) {
    && Sized(l, s) && s.mode == Down && s.lh == [] && s.ops == map[]
    && s.outstanding == 0 && !s.committing && s.view == s.disk
    && HeaderOk(s.disk[l.start]) && ListOk(l, HeaderOf(s.disk[l.start]))
  }

  lemma BootedInv(l: Layout, s: State)
    requires Booted(l, s)
    ensures Inv(l, s, Recover(l, s.disk), Recover(l, s.disk))
  {
    var lh := HeaderOf(s.disk[l.start]);
    ReplayBlocks(l, s.disk, lh, |lh|);
    assert lh[..|lh|] == lh;
    assert Used(map[]) == 0;
  }

  /** The same from power-on, crashes in the middle of recovery included: the contents to start
      from are the recovered ones. */
  lemma BootAtomicity(l: Layout, s0: State, es: seq<Event>)
    requires Booted(l, s0) && Run(l, s0, es).Next?
    ensures var s, h := Run(l, s0, es).s, HistoryOf(es);
            && HeaderOk(s.disk[l.start]) && |HeaderOf(s.disk[l.start])| < l.size
            && (forall b: Word :: l.Home(b) ==> Recover(l, s.disk)[b] == Apply(Recover(l, s0.disk), h.durable)[b])
            && (s.mode == Running ==>
                  forall b: Word :: l.Home(b) ==> s.view[b] == Apply(Recover(l, s0.disk), h.durable + h.pending)[b])
  {
    BootedInv(l, s0);
    RunGoodFrom(l, s0, Recover(l, s0.disk), es);
    RecoversTo(l, Run(l, s0, es).s.disk, Apply(Recover(l, s0.disk), HistoryOf(es).durable));
  }

  /** A commit never splits an operation: when a header write reaches the disk every
      operation that has begun has also ended, so the transaction holds whole ones. */
  lemma CommitsWholeOperations(l: Layout, s0: State, es: seq<Event>)
    requires Fresh(l, s0) && Run(l, s0, es + [WriteHead]).Next?
    ensures OpenOps(es) == {}
  {
    assert (es + [WriteHead])[..|es|] == es;
    RunGood(l, s0, es);
    RunOps(l, s0, es);
  }

  lemma HomeChange(l: Layout, s: State, e: Event, b: Word)
    requires Sized(l, s) && ListOk(l, s.lh) && Step(l, s, e).Next? && l.Home(b)
    requires Step(l, s, e).s.disk[b] != s.disk[b]
    ensures e == Install && s.mode.Installing? && s.mode.i < |s.lh| && b == s.lh[s.mode.i]
  {
  }

  /** Between its log_write and the commit's install a home block does not change on disk:
      a step that changes home block b is the Install of b, after the header is written. */
  lemma HomeWritesAreInstalls(l: Layout, s0: State, es: seq<Event>, e: Event, b: Word)
    requires Fresh(l, s0) && l.Home(b)
    requires Run(l, s0, es).Next? && Step(l, Run(l, s0, es).s, e).Next?
    requires Step(l, Run(l, s0, es).s, e).s.disk[b] != Run(l, s0, es).s.disk[b]
    ensures e == Install
    ensures var s := Run(l, s0, es).s;
            s.mode.Installing? && HeaderOk(s.disk[l.start]) && b in HeaderOf(s.disk[l.start])
  {
    RunGood(l, s0, es);
    HomeChange(l, Run(l, s0, es).s, e, b);
  }

  /** Log admission over every interleaving: the in-memory header holds distinct home
      blocks, it fits beside the unspent budgets of the operations under way, and nobody
      is inside an operation while a commit is running. */
  lemma LogAdmission(l: Layout, s0: State, es: seq<Event>)
    requires Fresh(l, s0) && Run(l, s0, es).Next?
    ensures var s := Run(l, s0, es).s;
            && ListOk(l, s.lh)
            && s.outstanding == |s.ops| == |OpenOps(es)|
            && |s.lh| + (MAXOPBLOCKS * s.outstanding - Used(s.ops)) <= LOGSIZE
            && (s.committing ==> s.outstanding == 0)
  {
    RunGood(l, s0, es);
    RunOps(l, s0, es);
  }

  /** While a commit runs the list of blocks it copies does not change: it is only erased, by
      the last header write or by a crash. */
  lemma ListFixedWhileCommitting(l: Layout, s0: State, es: seq<Event>, s: State, e: Event, t: State)
    requires Fresh(l, s0) && Run(l, s0, es) == Next(s) && s.committing
    requires Step(l, s, e) == Next(t) && t.lh != s.lh
    ensures (e == ClearHead || e == Crash) && t.lh == []
  {
    RunGood(l, s0, es);
    assert Admission(s);
    ListChange(l, s, e, t);
  }

  lemma ListChange(l: Layout, s: State, e: Event, t: State)
    requires Sized(l, s) && s.ops == map[] && s.committing && s.mode != Down && Step(l, s, e) == Next(t) && t.lh != s.lh
    ensures (e == ClearHead || e == Crash) && t.lh == []
  {
  }
}
