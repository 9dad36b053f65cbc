/** sleep and wakeup of proc.c as a step machine over any number of processes, with
    acquiresleep and releasesleep of sleeplock.c as the client. value counts what the
    sleepers wait for: 1 for a free sleep lock, 0 for a held one. */
module SleepWakeup {
  import opened Options

  /** Where a process stands. lk is the client's spin lock, pt is ptable.lock. */
  datatype Pc =
    | Out                   // in neither routine
    | Wait                  // acquire(lk)
    | Test                  // holds lk, about to look at value
    | WantTable             // in sleep: holds lk, acquire(ptable.lock)
    | Both                  // in sleep: holds both, release(lk)
    | Drop                  // in sleep: holds pt, about to become SLEEPING
    | Asleep                // SLEEPING on the channel
    | Runnable              // woken, waiting for the scheduler
    | Awake                 // running again, still holds pt
    | Got                   // has taken one, holds lk
    | PWait                 // releaser: acquire(lk)
    | PHold                 // releaser: holds lk, about to add one
    | PWant(held: bool)     // in wakeup: acquire(ptable.lock); held: lk is still held
    | Scan(i: nat, held: bool)  // in wakeup1: slots below i are done, holds pt
    | PDone(held: bool)     // wakeup is over

  datatype State = State(pcs: seq<Pc>, lk: Option<nat>, pt: Option<nat>, value: nat, holders: set<nat>)

  /** Go: the process takes its next step. Take and Give start the two routines. EarlyRelease
      is the variant of sleep1.p that releases lk before it calls wakeup. Kill is kill(). */
  datatype Action = Take(p: nat) | Give(p: nat) | Go(p: nat) | EarlyRelease(p: nat) | Kill(p: nat)

  predicate HoldsLk(pc: Pc) {
    pc.Test? || pc.WantTable? || pc.Both? || pc.Got? || pc.PHold?
    || ((pc.PWant? || pc.Scan? || pc.PDone?) && pc.held)
  }

  predicate HoldsTable(pc: Pc) {
    pc.Both? || pc.Drop? || pc.Awake? || pc.Scan?
  }

  function At(s: State, p: nat, pc: Pc): State
    requires p < |s.pcs|
  {
    s.(pcs := s.pcs[p := pc])
  }

  /** acquiresleep, with sleep spelled out. */
  function TakeStep(s: State, p: nat): (r: Option<State>)
    requires p < |s.pcs|
    ensures r.Some? ==> |r.value.pcs| == |s.pcs|
  {
    match s.pcs[p]
    case Wait => if s.lk.None? then Some(At(s, p, Test).(lk := Some(p))) else None
    case Test =>
      if s.value == 0 then Some(At(s, p, WantTable))
      else Some(At(s, p, Got).(value := s.value - 1, holders := s.holders + {p}))
    case WantTable => if s.pt.None? then Some(At(s, p, Both).(pt := Some(p))) else None
    case Both => Some(At(s, p, Drop).(lk := None))
    case Drop => Some(At(s, p, Asleep).(pt := None))
    case Runnable => if s.pt.None? then Some(At(s, p, Awake).(pt := Some(p))) else None
    case Awake => Some(At(s, p, Wait).(pt := None))
    case Got => Some(At(s, p, Out).(lk := None))
    case _ => None
  }

  /** releasesleep, with wakeup and wakeup1 spelled out. */
  function GiveStep(s: State, p: nat): (r: Option<State>)
    requires p < |s.pcs|
    ensures r.Some? ==> |r.value.pcs| == |s.pcs|
  {
    match s.pcs[p]
    case PWait => if s.lk.None? then Some(At(s, p, PHold).(lk := Some(p))) else None
    case PHold => Some(At(s, p, PWant(true)).(value := s.value + 1, holders := s.holders - {p}))
    case PWant(held) => if s.pt.None? then Some(At(s, p, Scan(0, held)).(pt := Some(p))) else None
    case Scan(i, held) =>
      if i >= |s.pcs| then Some(At(s, p, PDone(held)).(pt := None))
      else if s.pcs[i].Asleep? then Some(At(At(s, i, Runnable), p, Scan(i + 1, held)))
      else Some(At(s, p, Scan(i + 1, held)))
    case PDone(held) => Some(At(s, p, Out).(lk := if held then None else s.lk))
    case _ => None
  }

  predicate Gives(pc: Pc) {
    pc.PWait? || pc.PHold? || pc.PWant? || pc.Scan? || pc.PDone?
  }

  function Step(s: State, a: Action): (r: Option<State>)
    ensures r.Some? ==> a.p < |s.pcs| && |r.value.pcs| == |s.pcs|
  {
    if a.p >= |s.pcs| then None else
    var p, pc := a.p, s.pcs[a.p];
    match a
    case Take(_) => if pc.Out? then Some(At(s, p, Wait)) else None
    case Give(_) => if pc.Out? then Some(At(s, p, PWait)) else None
    case Kill(_) => if pc.Asleep? && s.pt.None? then Some(At(s, p, Runnable)) else None
    case EarlyRelease(_) => if pc == PWant(true) then Some(At(s, p, PWant(false)).(lk := None)) else None
    case Go(_) => if Gives(pc) then GiveStep(s, p) else TakeStep(s, p)
  }

  function Run(s: State, acts: seq<Action>): (r: Option<State>)
    ensures r.Some? ==> |r.value.pcs| == |s.pcs|
  {
    if acts == [] then Some(s) else
    var before := Run(s, acts[..|acts| - 1]);
    if before.None? then None else Step(before.value, acts[|acts| - 1])
  }

  ghost predicate Start(s: State) {
    && s.lk.None? && s.pt.None? && s.holders == {}
    && forall p :: 0 <= p < |s.pcs| ==> s.pcs[p].Out?
  }

  // ---- the invariant ----

  /** The spin locks are held by whom they say. */
  ghost predicate Locks(s: State) {
    && (forall p: nat :: p < |s.pcs| ==> (HoldsLk(s.pcs[p]) <==> s.lk == Some(p)))
    && (forall p: nat :: p < |s.pcs| ==> (HoldsTable(s.pcs[p]) <==> s.pt == Some(p)))
    && (s.lk.Some? ==> s.lk.value < |s.pcs|) && (s.pt.Some? ==> s.pt.value < |s.pcs|)
  }

  /** Process q is in a wakeup that has yet to look at slot p. */
  predicate Covers(pc: Pc, p: nat) {
    pc.PWant? || (pc.Scan? && pc.i <= p)
  }

  ghost predicate Covered(s: State, p: nat) {
    exists q :: 0 <= q < |s.pcs| && Covers(s.pcs[q], p)
  }

  predicate MaySleep(pc: Pc) {
    pc.Drop? || pc.Asleep?
  }

  /** Who has decided to sleep and still holds lk saw nothing to take, and that is still so. */
  ghost predicate Seen(s: State) {
    forall p: nat :: p < |s.pcs| && (s.pcs[p].WantTable? || s.pcs[p].Both?) ==> s.value == 0
  }

  /** While there is something to take, every sleeper will be looked at by some wakeup. */
  ghost predicate Awaited(s: State) {
    s.value > 0 ==> forall p: nat :: p < |s.pcs| && MaySleep(s.pcs[p]) ==> Covered(s, p)
  }

  ghost predicate Inv(s: State) {
    Locks(s) && Seen(s) && Awaited(s)
  }

  lemma StartInv(s: State)
    requires Start(s)
    ensures Inv(s)
  {
  }

  /** A step that leaves the coverers alone leaves the coverage alone. */
  lemma CoverageKept(s: State, t: State, x: nat)
    requires |t.pcs| == |s.pcs| && x < |s.pcs| && t.pcs == s.pcs[x := t.pcs[x]]
    requires forall p: nat :: Covers(s.pcs[x], p) ==> Covers(t.pcs[x], p)
    ensures forall p: nat :: Covered(s, p) ==> Covered(t, p)
  {
    forall p: nat | Covered(s, p)
      ensures Covered(t, p)
    {
      var q :| 0 <= q < |s.pcs| && Covers(s.pcs[q], p);
      assert Covers(t.pcs[q], p);
    }
  }

  predicate Moves(x: nat, before: Option<nat>, after: Option<nat>) {
    before == after || (before in {None, Some(x)} && after in {None, Some(x)})
  }

  lemma OneSlotLocks(s: State, t: State, x: nat)
    requires Locks(s) && x < |s.pcs| && |t.pcs| == |s.pcs| && t.pcs == s.pcs[x := t.pcs[x]]
    requires HoldsLk(t.pcs[x]) <==> t.lk == Some(x)
    requires HoldsTable(t.pcs[x]) <==> t.pt == Some(x)
    requires Moves(x, s.lk, t.lk) && Moves(x, s.pt, t.pt)
    ensures Locks(t)
  {
  }

  lemma TakeLocks(s: State, p: nat)
    requires Locks(s) && p < |s.pcs| && TakeStep(s, p).Some?
    ensures Locks(TakeStep(s, p).value)
  {
    OneSlotLocks(s, TakeStep(s, p).value, p);
  }

  lemma GiveLocks(s: State, p: nat)
    requires Locks(s) && p < |s.pcs| && GiveStep(s, p).Some?
    ensures Locks(GiveStep(s, p).value)
  {
    var t, pc := GiveStep(s, p).value, s.pcs[p];
    if pc.Scan? && pc.i < |s.pcs| && s.pcs[pc.i].Asleep? {
      OneSlotLocks(s, At(s, pc.i, Runnable), pc.i);
      OneSlotLocks(At(s, pc.i, Runnable), t, p);
    } else {
      OneSlotLocks(s, t, p);
    }
  }

  lemma StepLocks(s: State, a: Action)
    requires Locks(s) && Step(s, a).Some?
    ensures Locks(Step(s, a).value)
  {
    if a.Go? && Gives(s.pcs[a.p]) {
      GiveLocks(s, a.p);
    } else if a.Go? {
      TakeLocks(s, a.p);
    } else {
      OneSlotLocks(s, Step(s, a).value, a.p);
    }
  }

  /** A slot is looked at while the table lock is held: the scan wakes slot i or sees that
      nobody sleeps there, so moving past it uncovers no sleeper. */
  lemma ScanCovered(s: State, x: nat, i: nat, held: bool, p: nat)
    requires x < |s.pcs| && s.pcs[x] == Scan(i, held) && i < |s.pcs|
    requires Covered(s, p) && p != i
    ensures Covered(Step(s, Go(x)).value, p)
  {
    var t := Step(s, Go(x)).value;
    var q :| 0 <= q < |s.pcs| && Covers(s.pcs[q], p);
    assert Covers(t.pcs[q], p);
  }

  lemma EndCovered(s: State, x: nat)
    requires x < |s.pcs| && s.pcs[x].Scan? && s.pcs[x].i >= |s.pcs|
    ensures forall p: nat :: p < |s.pcs| && Covered(s, p) ==> Covered(Step(s, Go(x)).value, p)
  {
    var t := Step(s, Go(x)).value;
    forall p: nat | p < |s.pcs| && Covered(s, p)
      ensures Covered(t, p)
    {
      var q :| 0 <= q < |s.pcs| && Covers(s.pcs[q], p);
      assert Covers(t.pcs[q], p);
    }
  }

  /** value changes only in the hands of the holder of lk. */
  lemma StepSeen(s: State, a: Action)
    requires Inv(s) && Step(s, a).Some?
    ensures Seen(Step(s, a).value)
  {
    var t := Step(s, a).value;
    if t.value != s.value {
      assert HoldsLk(s.pcs[a.p]);
      forall p: nat | p < |t.pcs|
        ensures !(t.pcs[p].WantTable? || t.pcs[p].Both?)
      {
        assert HoldsLk(s.pcs[p]) <==> s.lk == Some(p);
      }
    }
  }

  lemma ScanStep(s: State, x: nat)
    requires Inv(s) && x < |s.pcs| && s.pcs[x].Scan?
    ensures Awaited(Step(s, Go(x)).value)
  {
    var t, i := Step(s, Go(x)).value, s.pcs[x].i;
    if i >= |s.pcs| {
      EndCovered(s, x);
    } else {
      forall p: nat | t.value > 0 && p < |t.pcs| && MaySleep(t.pcs[p])
        ensures Covered(t, p)
      {
        assert MaySleep(s.pcs[p]);
        ScanCovered(s, x, i, s.pcs[x].held, p);
      }
    }
  }

  lemma StepAwaited(s: State, a: Action)
    requires Inv(s) && Step(s, a).Some?
    ensures Awaited(Step(s, a).value)
  {
    var t, x := Step(s, a).value, a.p;
    if a.Go? && s.pcs[x].Scan? {
      ScanStep(s, x);
    } else if a.Go? && s.pcs[x].PHold? {
      forall p: nat
        ensures Covered(t, p)
      {
        assert Covers(t.pcs[x], p);
      }
    } else {
      CoverageKept(s, t, x);
    }
  }

  lemma StepInv(s: State, a: Action)
    requires Inv(s) && Step(s, a).Some?
    ensures Inv(Step(s, a).value)
  {
    StepLocks(s, a);
    StepSeen(s, a);
    StepAwaited(s, a);
  }

  lemma {:induction false} RunInv(s: State, acts: seq<Action>)
    requires Start(s) && Run(s, acts).Some?
    ensures Inv(Run(s, acts).value)
  {
    if acts == [] {
      StartInv(s);
    } else {
      RunInv(s, acts[..|acts| - 1]);
      StepInv(Run(s, acts[..|acts| - 1]).value, acts[|acts| - 1]);
    }
  }

  // ---- no wakeup is lost ----

  /** In every state of every run: a process that sleeps (or is about to, with the table lock
      in hand) while there is something to take will still be looked at by a wakeup under way. */
  lemma NoLostWakeup(s: State, acts: seq<Action>, p: nat)
    requires Start(s) && Run(s, acts).Some? && p < |s.pcs|
    ensures var t := Run(s, acts).value;
      t.value > 0 && t.pcs[p].Asleep? ==>
      exists q :: 0 <= q < |t.pcs| && (t.pcs[q].PWant? || (t.pcs[q].Scan? && t.pcs[q].i <= p))
  {
    RunInv(s, acts);
    var t := Run(s, acts).value;
    if t.value > 0 && t.pcs[p].Asleep? {
      assert MaySleep(t.pcs[p]);
      var q :| 0 <= q < |t.pcs| && Covers(t.pcs[q], p);
    }
  }

  ghost predicate Stuck(s: State) {
    forall p: nat :: p < |s.pcs| ==> Step(s, Go(p)).None?
  }

  /** Whoever holds the table lock can step, since nobody waits for lk with it in hand; while
      the table lock is free, whoever holds lk can step. */
  lemma HolderSteps(s: State)
    requires Inv(s)
    ensures s.pt.Some? ==> Step(s, Go(s.pt.value)).Some?
    ensures s.pt.None? && s.lk.Some? ==> Step(s, Go(s.lk.value)).Some?
  {
    if s.pt.Some? {
      assert HoldsTable(s.pcs[s.pt.value]);
    } else if s.lk.Some? {
      assert HoldsLk(s.pcs[s.lk.value]);
    }
  }

  lemma WakerSteps(s: State, p: nat) returns (q: nat)
    requires Inv(s) && s.pt.None? && p < |s.pcs| && s.pcs[p].Asleep? && s.value > 0
    ensures q < |s.pcs| && Step(s, Go(q)).Some?
  {
    assert MaySleep(s.pcs[p]);
    q :| q < |s.pcs| && Covers(s.pcs[q], p);
  }

  /** No deadlock: when no process can go on, both locks are free, every process is outside
      or asleep, and a process is asleep only where there is nothing to take. */
  lemma NoDeadlock(s: State, acts: seq<Action>)
    requires Start(s) && Run(s, acts).Some? && Stuck(Run(s, acts).value)
    ensures var t := Run(s, acts).value;
      && t.lk.None? && t.pt.None?
      && forall p: nat :: p < |t.pcs| ==> t.pcs[p].Out? || (t.pcs[p].Asleep? && t.value == 0)
  {
    RunInv(s, acts);
    var t := Run(s, acts).value;
    HolderSteps(t);
    forall p: nat | p < |t.pcs|
      ensures t.pcs[p].Out? || (t.pcs[p].Asleep? && t.value == 0)
    {
      assert Step(t, Go(p)).None?;
      assert t.pcs[p].Out? || t.pcs[p].Asleep?;
      if t.pcs[p].Asleep? && t.value > 0 {
        var q := WakerSteps(t, p);
        assert false;
      }
    }
  }

  // ---- the sleep lock ----

  /** Only a holder releases. */
  ghost predicate Disciplined(s: State, acts: seq<Action>)
    decreases |acts|
  {
    acts == [] ||
    (var init, last := acts[..|acts| - 1], acts[|acts| - 1];
     Disciplined(s, init) && (last.Give? && Run(s, init).Some? ==> last.p in Run(s, init).value.holders))
  }

  ghost predicate Exclusive(s: State) {
    && s.value + |s.holders| == 1
    && (forall p: nat :: p < |s.pcs| && (s.pcs[p].PWait? || s.pcs[p].PHold?) ==> p in s.holders)
  }

  lemma StepExclusive(s: State, a: Action)
    requires Exclusive(s) && Step(s, a).Some? && (a.Give? ==> a.p in s.holders)
    ensures Exclusive(Step(s, a).value)
  {
    var t := Step(s, a).value;
    if a.Go? && s.pcs[a.p].PHold? {
      assert |t.holders| == |s.holders| - 1;
    } else if a.Go? && s.pcs[a.p].Test? && s.value > 0 {
      assert s.holders == {} && t.holders == {a.p};
    } else {
      RestExclusive(s, a, t);
    }
  }

  lemma RestExclusive(s: State, a: Action, t: State)
    requires Exclusive(s) && Step(s, a) == Some(t) && (a.Give? ==> a.p in s.holders)
    requires !(a.Go? && s.pcs[a.p].PHold?) && !(a.Go? && s.pcs[a.p].Test? && s.value > 0)
    ensures Exclusive(t)
  {
    if a.Go? && Gives(s.pcs[a.p]) {
      GiveExclusive(s, a.p, t);
    } else if a.Go? {
      TakeExclusive(s, a.p, t);
    } else {
      assert t.value == s.value && t.holders == s.holders;
    }
  }

  lemma GiveExclusive(s: State, p: nat, t: State)
    requires Exclusive(s) && p < |s.pcs| && Gives(s.pcs[p]) && !s.pcs[p].PHold? && GiveStep(s, p) == Some(t)
    ensures Exclusive(t)
  {
    assert t.value == s.value && t.holders == s.holders;
  }

  lemma TakeExclusive(s: State, p: nat, t: State)
    requires Exclusive(s) && p < |s.pcs| && !Gives(s.pcs[p]) && !(s.pcs[p].Test? && s.value > 0) && TakeStep(s, p) == Some(t)
    ensures Exclusive(t)
  {
    assert t.value == s.value && t.holders == s.holders;
  }

  /** The sleep lock has at most one holder in every state of every run in which only holders
      release: value is 1 exactly when nobody holds it, and releasesleep finds it held. */
  lemma {:induction false} MutualExclusion(s: State, acts: seq<Action>)
    requires Start(s) && s.value == 1 && Run(s, acts).Some? && Disciplined(s, acts)
    ensures Exclusive(Run(s, acts).value)
  {
    if acts != [] {
      MutualExclusion(s, acts[..|acts| - 1]);
      StepExclusive(Run(s, acts[..|acts| - 1]).value, acts[|acts| - 1]);
    }
  }

  /** A sleep lock that is free, with no release under way, has no one asleep on it. */
  lemma FreeLockHasNoSleepers(s: State, acts: seq<Action>)
    requires Start(s) && s.value == 1 && Run(s, acts).Some? && Disciplined(s, acts)
    ensures var t := Run(s, acts).value;
      t.holders == {} && (forall q: nat :: q < |t.pcs| ==> !t.pcs[q].PWant? && !t.pcs[q].Scan?) ==>
      forall p: nat :: p < |t.pcs| ==> !t.pcs[p].Asleep?
  {
    MutualExclusion(s, acts);
    var t := Run(s, acts).value;
    forall p: nat | p < |t.pcs| && t.pcs[p].Asleep? && t.holders == {}
      ensures exists q :: 0 <= q < |t.pcs| && (t.pcs[q].PWant? || t.pcs[q].Scan?)
    {
      NoLostWakeup(s, acts, p);
    }
  }
}
