/** When log_write may panic. begin_op reserves MAXOPBLOCKS for every operation under way, but
    log_write compares the length of the list with the size of the log before it looks whether
    the block is listed already, and before it takes the lock. */
module LogBudget {
  import opened Blocks
  import opened LogMachine

  /** The length of the list at which log_write refuses. */
  function Limit(l: Layout): int {
    if l.size - 1 < LOGSIZE then l.size - 1 else LOGSIZE
  }

  /** log_write inside an operation panics exactly when the list is at its limit. */
  lemma PanicIffFull(l: Layout, s0: State, es: seq<Event>, s: State, op: nat)
    requires Fresh(l, s0) && Run(l, s0, es) == Next(s) && op in s.ops && !s.ops[op].passed
    ensures Step(l, s, Check(op)).Panic? <==> |s.lh| >= Limit(l)
  {
    RunGood(l, s0, es);
    assert |s.ops| >= 1;
  }

  // ---- operations that keep to a budget ----

  /** No operation has added more than budget blocks to the list; logging a listed block again
      adds nothing. */
  ghost predicate Spends(s: State, budget: nat) {
    forall k :: k in s.ops ==> s.ops[k].used <= budget
  }

  /** A run in which every operation adds at most budget blocks. */
  ghost predicate Frugal(l: Layout, s0: State, es: seq<Event>, budget: nat)
    requires Sized(l, s0)
    decreases |es|
  {
    && Run(l, s0, es).Next? && Spends(Run(l, s0, es).s, budget)
    && (es == [] || Frugal(l, s0, es[..|es| - 1], budget))
  }

  /** Every log_write that an operation within its budget may make now goes through: of a new
      block while it has budget left, of a listed block at any time. */
  ghost predicate Safe(l: Layout, s: State, budget: nat)
    requires Sized(l, s)
  {
    forall op :: op in s.ops && s.ops[op].used <= budget ==>
      && !Step(l, s, Check(op)).Panic? && !Step(l, s, End(op)).Panic?
      && forall b: Word, v: Block :: b in s.lh || s.ops[op].used < budget ==> !Step(l, s, Append(op, b, v)).Overflow?
  }

  ghost predicate AlwaysSafe(l: Layout, s0: State, budget: nat)
    requires Sized(l, s0)
  {
    forall es: seq<Event> :: Frugal(l, s0, es, budget) ==> Safe(l, Run(l, s0, es).s, budget)
  }

  // ---- how long the list can get ----

  ghost predicate Thrifty(s: State, budget: nat) {
    s.mode == Running ==>
      && |s.lh| + budget * |s.ops| - Used(s.ops) <= MAXOPBLOCKS + 2 * budget
      && (s.ops == map[] ==> s.lh == [])
  }

  lemma OneMore(lh: nat, n: nat, used: nat, budget: nat)
    requires 0 < n && lh + (n + 1) * MAXOPBLOCKS <= LOGSIZE && budget <= MAXOPBLOCKS
    ensures lh + budget * (n + 1) - used <= MAXOPBLOCKS + 2 * budget
  {
    assert n == 1 || n == 2;
  }

  lemma OneLess(lh: nat, n: nat, used: nat, mine: nat, budget: nat, bound: nat)
    requires 0 < n && mine <= budget && lh + budget * n - (used + mine) <= bound
    ensures lh + budget * (n - 1) - used <= bound
  {
    assert budget * n == budget * (n - 1) + budget;
  }

  lemma BeginThrifty(l: Layout, s: State, op: nat, budget: nat)
    requires Sized(l, s) && Admission(s) && Thrifty(s, budget) && budget <= MAXOPBLOCKS && Step(l, s, Begin(op)).Next?
    ensures Thrifty(Step(l, s, Begin(op)).s, budget)
  {
    var n := |s.ops|;
    UsedUpdate(s.ops, op, Op(0, false));
    assert s.ops[op := Op(0, false)].Keys == s.ops.Keys + {op};
    if n > 0 {
      OneMore(|s.lh|, n, Used(s.ops), budget);
    } else {
      assert s.ops == map[] && budget * 1 == budget;
    }
  }

  lemma EndThrifty(l: Layout, s: State, op: nat, budget: nat)
    requires Sized(l, s) && Admission(s) && Thrifty(s, budget) && Spends(s, budget) && Step(l, s, End(op)).Next?
    ensures Thrifty(Step(l, s, End(op)).s, budget)
  {
    if s.outstanding > 1 {
      EndCounts(s, op, Step(l, s, End(op)).s, budget);
    }
  }

  lemma EndCounts(s: State, op: nat, t: State, budget: nat)
    requires op in s.ops && s.outstanding == |s.ops| > 1 && s.ops[op].used <= budget && Thrifty(s, budget) && s.mode == Running
    requires t == s.(ops := s.ops - {op}, outstanding := s.outstanding - 1)
    ensures Thrifty(t, budget)
  {
    UsedSplit(s.ops, op);
    assert t.ops.Keys == s.ops.Keys - {op};
    OneLess(|s.lh|, |s.ops|, Used(t.ops), s.ops[op].used, budget, MAXOPBLOCKS + 2 * budget);
  }

  lemma UpdateThrifty(l: Layout, s: State, e: Event, budget: nat)
    requires Sized(l, s) && Admission(s) && Thrifty(s, budget) && Step(l, s, e).Next? && (e.Check? || e.Append?)
    ensures Thrifty(Step(l, s, e).s, budget)
  {
    var o := Step(l, s, e).s.ops[e.op];
    UsedUpdate(s.ops, e.op, o);
    assert Step(l, s, e).s.ops == s.ops[e.op := o];
    assert s.ops[e.op := o].Keys == s.ops.Keys;
  }

  lemma StepThrifty(l: Layout, s: State, e: Event, budget: nat)
    requires Sized(l, s) && Admission(s) && (s.mode == Cleared ==> s.lh == []) && Thrifty(s, budget) && Spends(s, budget)
    requires budget <= MAXOPBLOCKS && Step(l, s, e).Next?
    ensures Thrifty(Step(l, s, e).s, budget)
  {
    if e.Begin? {
      BeginThrifty(l, s, e.op, budget);
    } else if e.End? {
      EndThrifty(l, s, e.op, budget);
    } else if e.Check? || e.Append? {
      UpdateThrifty(l, s, e, budget);
    } else {
      RestThrifty(l, s, e, budget);
    }
  }

  lemma RestThrifty(l: Layout, s: State, e: Event, budget: nat)
    requires Sized(l, s) && Admission(s) && (s.mode == Cleared ==> s.lh == []) && Step(l, s, e).Next?
    requires !e.Begin? && !e.End? && !e.Check? && !e.Append?
    ensures Thrifty(Step(l, s, e).s, budget)
  {
    assert Used(map[]) == 0;
  }

  lemma {:induction false} RunThrifty(l: Layout, s0: State, es: seq<Event>, budget: nat)
    requires Fresh(l, s0) && Frugal(l, s0, es, budget) && budget <= MAXOPBLOCKS
    ensures Thrifty(Run(l, s0, es).s, budget)
    decreases |es|
  {
    if es == [] {
      assert Used(map[]) == 0;
    } else {
      var before := es[..|es| - 1];
      RunThrifty(l, s0, before, budget);
      RunGood(l, s0, before);
      StepThrifty(l, Run(l, s0, before).s, es[|es| - 1], budget);
    }
  }

  /** The longest list that operations within the budget can make. */
  lemma ListBound(l: Layout, s0: State, es: seq<Event>, budget: nat)
    requires Fresh(l, s0) && Frugal(l, s0, es, budget) && budget <= MAXOPBLOCKS
    ensures var s := Run(l, s0, es).s; Admission(s) && (s.mode == Running ==> |s.lh| <= MAXOPBLOCKS + 2 * budget)
  {
    RunThrifty(l, s0, es, budget);
    RunGood(l, s0, es);
    UsedBound(Run(l, s0, es).s.ops, budget);
  }

  lemma ShortIsSafe(l: Layout, s: State, budget: nat)
    requires Sized(l, s) && Admission(s) && (s.mode == Running ==> |s.lh| < Limit(l))
    ensures Safe(l, s, budget)
  {
    assert s.ops != map[] ==> |s.ops| >= 1;
  }

  lemma RoomyIsSafe(l: Layout, s0: State, es: seq<Event>, budget: nat)
    requires Fresh(l, s0) && Frugal(l, s0, es, budget) && budget <= MAXOPBLOCKS
    requires MAXOPBLOCKS + 2 * budget < Limit(l)
    ensures Safe(l, Run(l, s0, es).s, budget)
  {
    ListBound(l, s0, es, budget);
    ShortIsSafe(l, Run(l, s0, es).s, budget);
  }

  // ---- and that it does get that long ----

  /** The first home block behind the log; the fill uses it and its successors. */
  function Behind(l: Layout): nat {
    l.start + l.size
  }

  function NewBlock(l: Layout, op: nat, k: nat): seq<Event>
    requires Behind(l) + k < 0x1_0000_0000
  {
    [Check(op), Append(op, Behind(l) + k, ZeroBlock())]
  }

  /** Who has added what when the list has k blocks. */
  function FillOps(budget: nat, k: nat): map<nat, Op> {
    if k <= 10 then map[0 := Op(0, false)]
    else if k <= 10 + budget then map[0 := Op(0, false), 11 := Op(k - 10, false)]
    else map[0 := Op(k - 10 - budget, false), 11 := Op(budget, false)]
  }

  predicate Filled(l: Layout, s: State, budget: nat, k: nat) {
    && Sized(l, s) && s.mode == Running && !s.committing
    && |s.lh| == k && (forall i :: 0 <= i < k ==> s.lh[i] == Behind(l) + i)
    && s.ops == FillOps(budget, k) && s.outstanding == (if k <= 10 then 1 else 2)
  }

  /** One more event of a frugal run. */
  lemma Go(l: Layout, s0: State, es: seq<Event>, s: State, e: Event, t: State, budget: nat)
    requires Sized(l, s0) && Frugal(l, s0, es, budget) && Run(l, s0, es) == Next(s)
    requires Step(l, s, e) == Next(t) && Spends(t, budget)
    ensures Run(l, s0, es + [e]) == Next(t) && Frugal(l, s0, es + [e], budget)
  {
    assert (es + [e])[..|es|] == es;
  }

  ghost predicate At(l: Layout, s0: State, es: seq<Event>, s: State, budget: nat) {
    Sized(l, s0) && Sized(l, s) && Frugal(l, s0, es, budget) && Run(l, s0, es) == Next(s)
  }

  /** An operation with budget left logs the next block. */
  lemma LogNew(l: Layout, s0: State, es: seq<Event>, s: State, op: nat, budget: nat) returns (t: State)
    requires At(l, s0, es, s, budget) && s.mode == Running && s.outstanding >= 1
    requires op in s.ops && !s.ops[op].passed && s.ops[op].used < budget <= MAXOPBLOCKS
    requires |s.lh| < Limit(l) && Behind(l) + |s.lh| < l.nblocks && (forall i :: 0 <= i < |s.lh| ==> s.lh[i] == Behind(l) + i)
    ensures Behind(l) + |s.lh| < 0x1_0000_0000 && At(l, s0, es + NewBlock(l, op, |s.lh|), t, budget)
    ensures t.lh == s.lh + [Behind(l) + |s.lh|] && t.ops == s.ops[op := Op(s.ops[op].used + 1, false)]
    ensures t.mode == Running && t.outstanding == s.outstanding && t.committing == s.committing
  {
    var b: Word := Behind(l) + |s.lh|;
    var m := s.(ops := s.ops[op := s.ops[op].(passed := true)]);
    t := m.(view := m.view[b := ZeroBlock()], lh := m.lh + [b], ops := m.ops[op := Op(s.ops[op].used + 1, false)]);
    assert Step(l, s, Check(op)) == Next(m);
    Go(l, s0, es, s, Check(op), m, budget);
    assert b !in m.lh;
    assert Step(l, m, Append(op, b, ZeroBlock())) == Next(t);
    Go(l, s0, es + [Check(op)], m, Append(op, b, ZeroBlock()), t, budget);
    assert es + NewBlock(l, op, |s.lh|) == es + [Check(op)] + [Append(op, b, ZeroBlock())];
    assert t.ops == s.ops[op := Op(s.ops[op].used + 1, false)];
  }

  lemma Open(l: Layout, s0: State, es: seq<Event>, s: State, op: nat, budget: nat) returns (t: State)
    requires At(l, s0, es, s, budget) && s.mode == Running && !s.committing && op !in s.ops
    requires |s.lh| + (s.outstanding + 1) * MAXOPBLOCKS <= LOGSIZE
    ensures At(l, s0, es + [Begin(op)], t, budget)
    ensures t == s.(ops := s.ops[op := Op(0, false)], outstanding := s.outstanding + 1)
  {
    t := s.(ops := s.ops[op := Op(0, false)], outstanding := s.outstanding + 1);
    Go(l, s0, es, s, Begin(op), t, budget);
  }

  /** A short operation: one block, with another operation open. */
  lemma FillShort(l: Layout, s0: State, es: seq<Event>, s: State, budget: nat, k: nat) returns (t: State)
    requires At(l, s0, es, s, budget) && Filled(l, s, budget, k) && k < 10 && k < Limit(l) && Behind(l) + k < l.nblocks
    requires 0 < budget <= MAXOPBLOCKS
    ensures Behind(l) + k < 0x1_0000_0000
    ensures At(l, s0, es + ([Begin(k + 1)] + NewBlock(l, k + 1, k) + [End(k + 1)]), t, budget) && Filled(l, t, budget, k + 1)
  {
    var op := k + 1;
    var a := Open(l, s0, es, s, op, budget);
    var b := LogNew(l, s0, es + [Begin(op)], a, op, budget);
    t := b.(ops := b.ops - {op}, outstanding := 1);
    assert Step(l, b, End(op)) == Next(t);
    Go(l, s0, es + [Begin(op)] + NewBlock(l, op, k), b, End(op), t, budget);
    assert es + ([Begin(op)] + NewBlock(l, op, k) + [End(op)]) == es + [Begin(op)] + NewBlock(l, op, k) + [End(op)];
    assert t.ops == map[0 := Op(0, false)];
  }

  lemma FillOpsNext(budget: nat, k: nat)
    requires 10 < k < 10 + 2 * budget
    ensures var op, ops := if k + 1 <= 10 + budget then 11 else 0, FillOps(budget, k);
            && op in ops && !ops[op].passed && ops[op].used < budget
            && FillOps(budget, k + 1) == ops[op := Op(ops[op].used + 1, false)]
  {
  }

  /** The next block of operation 11 or 0. */
  lemma FillLong(l: Layout, s0: State, es: seq<Event>, s: State, budget: nat, k: nat) returns (t: State)
    requires At(l, s0, es, s, budget) && Filled(l, s, budget, k) && 10 < k < 10 + 2 * budget && k < Limit(l)
    requires 0 < budget <= MAXOPBLOCKS && Behind(l) + k < l.nblocks
    ensures Behind(l) + k < 0x1_0000_0000
    ensures At(l, s0, es + NewBlock(l, if k + 1 <= 10 + budget then 11 else 0, k), t, budget) && Filled(l, t, budget, k + 1)
  {
    var op := if k + 1 <= 10 + budget then 11 else 0;
    FillOpsNext(budget, k);
    t := LogNew(l, s0, es, s, op, budget);
  }

  lemma FillEleventh(l: Layout, s0: State, es: seq<Event>, s: State, budget: nat) returns (t: State)
    requires At(l, s0, es, s, budget) && Filled(l, s, budget, 10) && 10 < Limit(l)
    requires 0 < budget <= MAXOPBLOCKS && Behind(l) + 10 < l.nblocks
    ensures Behind(l) + 10 < 0x1_0000_0000
    ensures At(l, s0, es + ([Begin(11)] + NewBlock(l, 11, 10)), t, budget) && Filled(l, t, budget, 11)
  {
    var a := Open(l, s0, es, s, 11, budget);
    t := LogNew(l, s0, es + [Begin(11)], a, 11, budget);
    assert es + ([Begin(11)] + NewBlock(l, 11, 10)) == es + [Begin(11)] + NewBlock(l, 11, 10);
    assert t.ops == FillOps(budget, 11);
  }

  /** A run that fills the list: operation 0 stays open, ten short operations add a block each,
      then operation 11 spends its budget, and operation 0 last. */
  lemma {:induction false} FillReaches(l: Layout, s0: State, budget: nat, k: nat) returns (es: seq<Event>, s: State)
    requires Fresh(l, s0) && 0 < budget <= MAXOPBLOCKS && k <= 10 + 2 * budget && k <= Limit(l) && Behind(l) + k <= l.nblocks
    ensures At(l, s0, es, s, budget) && Filled(l, s, budget, k)
    decreases k
  {
    if k == 0 {
      s := Open(l, s0, [], s0, 0, budget);
      es := [] + [Begin(0)];
    } else {
      var before, m := FillReaches(l, s0, budget, k - 1);
      es, s := FillNext(l, s0, before, m, budget, k - 1);
    }
  }

  lemma FillNext(l: Layout, s0: State, before: seq<Event>, m: State, budget: nat, j: nat) returns (es: seq<Event>, s: State)
    requires At(l, s0, before, m, budget) && Filled(l, m, budget, j) && 0 < budget <= MAXOPBLOCKS
    requires j < 10 + 2 * budget && j < Limit(l) && Behind(l) + j < l.nblocks
    ensures At(l, s0, es, s, budget) && Filled(l, s, budget, j + 1)
  {
    if j < 10 {
      s := FillShort(l, s0, before, m, budget, j);
      es := before + ([Begin(j + 1)] + NewBlock(l, j + 1, j) + [End(j + 1)]);
    } else if j == 10 {
      s := FillEleventh(l, s0, before, m, budget);
      es := before + ([Begin(11)] + NewBlock(l, 11, 10));
    } else {
      s := FillLong(l, s0, before, m, budget, j);
      es := before + NewBlock(l, if j + 1 <= 10 + budget then 11 else 0, j);
    }
  }

  // ---- exactly when ----

  /** The failing run: with the list at the limit an operation within its budget that logs again
      a block it has already logged, or logs its next one, panics. */
  lemma FullPanics(l: Layout, s0: State, budget: nat) returns (es: seq<Event>, s: State)
    requires Fresh(l, s0) && 0 < budget <= MAXOPBLOCKS && Behind(l) + LOGSIZE <= l.nblocks
    requires Limit(l) <= MAXOPBLOCKS + 2 * budget
    ensures Frugal(l, s0, es, budget) && Run(l, s0, es) == Next(s)
    ensures 0 in s.ops && s.ops[0].used <= budget && Step(l, s, Check(0)).Panic?
    ensures |s.lh| == Limit(l) && (s.ops[0].used < budget || |s.lh| == MAXOPBLOCKS + 2 * budget)
  {
    es, s := FillReaches(l, s0, budget, Limit(l));
  }

  /** Operations that each add at most budget blocks can log, and log again, without a panic or an
      overrun, in every interleaving, if and only if the list stays below the limit when two of
      them have spent their budgets on top of the MAXOPBLOCKS that begin_op admits them with. */
  lemma SafeIff(l: Layout, s0: State, budget: nat)
    requires Fresh(l, s0) && 0 < budget <= MAXOPBLOCKS && Behind(l) + LOGSIZE <= l.nblocks
    ensures AlwaysSafe(l, s0, budget) <==> MAXOPBLOCKS + 2 * budget < Limit(l)
  {
    if MAXOPBLOCKS + 2 * budget < Limit(l) {
      forall es: seq<Event> | Frugal(l, s0, es, budget)
        ensures Safe(l, Run(l, s0, es).s, budget)
      {
        RoomyIsSafe(l, s0, es, budget);
      }
    } else {
      var es, s := FullPanics(l, s0, budget);
      assert !Safe(l, s, budget);
    }
  }

  /** No log is large enough for operations that use all of MAXOPBLOCKS and log a block twice;
      with MAXOPBLOCKS - 1 the log that mkfs makes is. */
  lemma BudgetOfMkfs(l: Layout, s0: State, budget: nat)
    requires Fresh(l, s0) && 0 < budget <= MAXOPBLOCKS && Behind(l) + LOGSIZE <= l.nblocks && l.size >= LOGSIZE
    ensures AlwaysSafe(l, s0, budget) <==> budget < MAXOPBLOCKS
  {
    SafeIff(l, s0, budget);
  }

  // ---- new blocks only ----

  /** An operation with budget left can log a new block. */
  ghost predicate RoomFor(l: Layout, s: State, op: nat)
    requires Sized(l, s)
  {
    op in s.ops && s.ops[op].used < MAXOPBLOCKS ==>
      && !Step(l, s, Check(op)).Panic? && !Step(l, s, End(op)).Panic?
      && forall b: Word, v: Block :: !Step(l, s, Append(op, b, v)).Overflow?
  }

  ghost predicate AlwaysRoom(l: Layout, s0: State)
    requires Sized(l, s0)
  {
    forall es: seq<Event>, op: nat :: Run(l, s0, es).Next? ==> RoomFor(l, Run(l, s0, es).s, op)
  }

  lemma RoomIfLarge(l: Layout, s0: State, es: seq<Event>, s: State, op: nat)
    requires Fresh(l, s0) && l.size > LOGSIZE && Run(l, s0, es) == Next(s)
    ensures RoomFor(l, s, op)
  {
    RunGood(l, s0, es);
    if op in s.ops && s.ops[op].used < MAXOPBLOCKS {
      UsedSplit(s.ops, op);
      UsedBound(s.ops - {op}, MAXOPBLOCKS);
      assert (s.ops - {op}).Keys == s.ops.Keys - {op};
      assert |s.lh| < LOGSIZE;
    }
  }

  /** mkfs gives the log nlog = LOGSIZE blocks, one of them the header. With a log that small an
      operation with budget left can run into the "too big a transaction" panic. */
  lemma SmallLogPanics(l: Layout, s0: State)
    requires Fresh(l, s0) && l.size <= LOGSIZE && Behind(l) + LOGSIZE <= l.nblocks
    ensures !AlwaysRoom(l, s0)
  {
    var es, s := FullPanics(l, s0, MAXOPBLOCKS);
    assert !RoomFor(l, s, 0);
  }

  /** begin_op's reservation leaves every operation room for the new blocks of its budget if and
      only if the log has more than LOGSIZE blocks. */
  lemma RoomIffLargeLog(l: Layout, s0: State)
    requires Fresh(l, s0) && Behind(l) + LOGSIZE <= l.nblocks
    ensures AlwaysRoom(l, s0) <==> l.size > LOGSIZE
  {
    if l.size <= LOGSIZE {
      SmallLogPanics(l, s0);
    } else {
      forall es: seq<Event>, op: nat | Run(l, s0, es).Next?
        ensures RoomFor(l, Run(l, s0, es).s, op)
      {
        RoomIfLarge(l, s0, es, Run(l, s0, es).s, op);
      }
    }
  }

  /** Operations 0 and 11 both under way, one block below the limit. */
  lemma TwoBelowLimit(l: Layout, s0: State, budget: nat) returns (es: seq<Event>, s: State)
    requires Fresh(l, s0) && 2 <= l.size <= LOGSIZE && Behind(l) + LOGSIZE <= l.nblocks && budget == MAXOPBLOCKS - 1
    ensures At(l, s0, es, s, budget) && s.mode == Running && s.outstanding >= 1
    ensures |s.lh| == l.size - 2 && forall i :: 0 <= i < |s.lh| ==> s.lh[i] == Behind(l) + i
    ensures 0 in s.ops && 11 in s.ops && !s.ops[0].passed && !s.ops[11].passed
    ensures s.ops[0].used <= budget && s.ops[11].used <= budget
  {
    var k := l.size - 2;
    es, s := FillReaches(l, s0, budget, k);
    if k <= 10 {
      s := Open(l, s0, es, s, 11, budget);
      es := es + [Begin(11)];
    }
  }

  lemma RunOn(l: Layout, s0: State, es: seq<Event>, s: State, e: Event) returns (es': seq<Event>)
    requires Sized(l, s0) && Run(l, s0, es) == Next(s)
    ensures es' == es + [e] && Run(l, s0, es') == Step(l, s, e)
  {
    es' := es + [e];
    assert es'[..|es|] == es;
  }

  /** The size check is made before the lock is taken. With the same small log two operations can
      both pass it for the last free slot, and the second overruns the log. */
  lemma SmallLogRace(l: Layout, s0: State)
    requires Fresh(l, s0) && 2 <= l.size <= LOGSIZE && Behind(l) + LOGSIZE <= l.nblocks
    ensures exists es: seq<Event> :: Run(l, s0, es) == Overflow
  {
    var es, s := TwoBelowLimit(l, s0, MAXOPBLOCKS - 1);
    var s1 := s.(ops := s.ops[0 := s.ops[0].(passed := true)]);
    var s2 := s1.(ops := s1.ops[11 := s1.ops[11].(passed := true)]);
    var e1 := RunOn(l, s0, es, s, Check(0));
    var e2 := RunOn(l, s0, e1, s1, Check(11));
    RaceLost(l, s0, e2, s2);
  }

  lemma RaceLost(l: Layout, s0: State, es: seq<Event>, s: State)
    requires Sized(l, s0) && Sized(l, s) && Run(l, s0, es) == Next(s) && 2 <= l.size <= LOGSIZE && Behind(l) + LOGSIZE <= l.nblocks
    requires |s.lh| == l.size - 2 && forall i :: 0 <= i < |s.lh| ==> s.lh[i] == Behind(l) + i
    requires 0 in s.ops && 11 in s.ops && s.ops[0].passed && s.ops[11].passed && s.ops[0].used < MAXOPBLOCKS && s.ops[11].used < MAXOPBLOCKS
    ensures exists es: seq<Event> :: Run(l, s0, es) == Overflow
  {
    var b, c: Word := Behind(l) + |s.lh|, Behind(l) + |s.lh| + 1;
    assert b !in s.lh && c !in s.lh;
    var e1 := RunOn(l, s0, es, s, Append(0, b, ZeroBlock()));
    var t := LastSlot(l, s, b);
    var e2 := RunOn(l, s0, e1, t, Append(11, c, ZeroBlock()));
    NoSlotLeft(l, t, c);
  }

  lemma LastSlot(l: Layout, s: State, b: Word) returns (t: State)
    requires Sized(l, s) && l.size <= LOGSIZE && |s.lh| == l.size - 2 && b !in s.lh && l.Home(b)
    requires 0 in s.ops && s.ops[0].passed && s.ops[0].used < MAXOPBLOCKS
    ensures Step(l, s, Append(0, b, ZeroBlock())) == Next(t)
    ensures Sized(l, t) && t.lh == s.lh + [b] && t.ops == s.ops[0 := Op(s.ops[0].used + 1, false)]
  {
    t := s.(view := s.view[b := ZeroBlock()], lh := s.lh + [b], ops := s.ops[0 := Op(s.ops[0].used + 1, false)]);
  }

  lemma NoSlotLeft(l: Layout, t: State, c: Word)
    requires Sized(l, t) && l.size <= LOGSIZE && |t.lh| == l.size - 1 && c !in t.lh && l.Home(c)
    requires 11 in t.ops && t.ops[11].passed && t.ops[11].used < MAXOPBLOCKS
    ensures Step(l, t, Append(11, c, ZeroBlock())) == Overflow
  {
  }
}
