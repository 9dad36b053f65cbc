/** The process table of proc.c. Each event is one section run under ptable.lock, or one of
    the unlocked writes of fork to a slot that is still EMBRYO. */
module ProcTable {
  import opened Options

  datatype ProcState = Unused | Embryo | Sleeping | Runnable | Running | Zombie

  /** wait sleeps on the address of the process itself, everyone else on something else. */
  datatype Chan = Nothing | OfProc(slot: nat) | OfOther(id: nat)

  /** np is the local variable of a fork under way. */
  datatype Proc = Proc(state: ProcState, pid: nat, parent: Option<nat>, chan: Chan, killed: bool, np: Option<nat>)

  /** exited and reaped record the pids that left by exit and that wait returned, in order. */
  datatype State = State(procs: seq<Proc>, nextpid: nat, init: nat, exited: seq<nat>, reaped: seq<nat>)

  datatype Event =
    | Alloc(p: nat)            // fork: allocproc's locked section
    | Fail(p: nat)             // fork: kalloc or copyuvm failed
    | Adopt(p: nat)            // fork: the child gets its parent
    | Start(p: nat)            // fork: the child may run
    | Exit(p: nat)
    | Wait(p: nat)             // one pass of wait's loop
    | Kill(pid: nat)
    | Dispatch(p: nat)         // the scheduler runs p
    | Yield(p: nat)
    | Sleep(p: nat, id: nat)   // p sleeps on something other than a process
    | Wakeup(id: nat)

  // ---- the loops, as functions ----

  predicate SleepsOn(p: Proc, chan: Chan) {
    p.state.Sleeping? && p.chan == chan
  }

  function Woken(p: Proc, chan: Chan): Proc {
    if SleepsOn(p, chan) then p.(state := Runnable) else p
  }

  function WakeAll(procs: seq<Proc>, chan: Chan): (r: seq<Proc>)
    ensures |r| == |procs|
  {
    seq(|procs|, i requires 0 <= i < |procs| => Woken(procs[i], chan))
  }

  function Reparent(procs: seq<Proc>, cur: nat, init: nat): (r: seq<Proc>)
    ensures |r| == |procs|
  {
    seq(|procs|, i requires 0 <= i < |procs| =>
      if procs[i].parent == Some(cur) then procs[i].(parent := Some(init)) else procs[i])
  }

  /** The first UNUSED slot, from i on. */
  function FirstFree(procs: seq<Proc>, i: nat): (r: Option<nat>)
    requires i <= |procs|
    ensures r.Some? ==> i <= r.value < |procs| && procs[r.value].state.Unused?
    ensures forall k :: i <= k < (if r.Some? then r.value else |procs|) ==> !procs[k].state.Unused?
    decreases |procs| - i
  {
    if i == |procs| then None else if procs[i].state.Unused? then Some(i) else FirstFree(procs, i + 1)
  }

  function FirstPid(procs: seq<Proc>, pid: nat, i: nat): (r: Option<nat>)
    requires i <= |procs|
    ensures r.Some? ==> i <= r.value < |procs| && procs[r.value].pid == pid
    ensures forall k :: i <= k < (if r.Some? then r.value else |procs|) ==> procs[k].pid != pid
    decreases |procs| - i
  {
    if i == |procs| then None else if procs[i].pid == pid then Some(i) else FirstPid(procs, pid, i + 1)
  }

  predicate IsChild(p: Proc, cur: nat) {
    p.parent == Some(cur)
  }

  predicate Exited(p: Proc, cur: nat) {
    IsChild(p, cur) && p.state.Zombie?
  }

  function FirstExited(procs: seq<Proc>, cur: nat, i: nat): (r: Option<nat>)
    requires i <= |procs|
    ensures r.Some? ==> i <= r.value < |procs| && Exited(procs[r.value], cur)
    ensures forall k :: i <= k < (if r.Some? then r.value else |procs|) ==> !Exited(procs[k], cur)
    decreases |procs| - i
  {
    if i == |procs| then None else if Exited(procs[i], cur) then Some(i) else FirstExited(procs, cur, i + 1)
  }

  predicate HasKids(procs: seq<Proc>, cur: nat) {
    exists i :: 0 <= i < |procs| && IsChild(procs[i], cur)
  }

  predicate HasExited(procs: seq<Proc>, cur: nat) {
    exists i :: 0 <= i < |procs| && Exited(procs[i], cur)
  }

  // ---- the events ----

  predicate IsRunning(s: State, p: nat) {
    p < |s.procs| && s.procs[p].state.Running?
  }

  function Set(s: State, p: nat, q: Proc): State
    requires p < |s.procs|
  {
    s.(procs := s.procs[p := q])
  }

  function StepAlloc(s: State, p: nat): State
    requires IsRunning(s, p)
  {
    var f := FirstFree(s.procs, 0);
    if f.None? then s else
    var c := f.value;
    Set(Set(s, c, s.procs[c].(state := Embryo, pid := s.nextpid)), p, s.procs[p].(np := f)).(nextpid := s.nextpid + 1)
  }

  /** The parent is woken, and init too when exited children go to it. */
  function ExitWakes(s: State, p: nat): (r: seq<Proc>)
    requires p < |s.procs|
    ensures |r| == |s.procs|
  {
    var woken := if s.procs[p].parent.Some? then WakeAll(s.procs, OfProc(s.procs[p].parent.value)) else s.procs;
    if HasExited(s.procs, p) then WakeAll(woken, OfProc(s.init)) else woken
  }

  function Leave(s: State, p: nat): State
    requires p < |s.procs|
  {
    var procs := Reparent(s.procs, p, s.init);
    s.(procs := procs[p := procs[p].(state := Zombie)], exited := s.exited + [s.procs[p].pid])
  }

  function StepExit(s: State, p: nat): State
    requires IsRunning(s, p)
  {
    Leave(s.(procs := ExitWakes(s, p)), p)
  }

  datatype WaitResult = Reaped(pid: nat) | Minus1 | Slept

  function WaitOutcome(s: State, p: nat): WaitResult
    requires IsRunning(s, p)
  {
    var z := FirstExited(s.procs, p, 0);
    if z.Some? then Reaped(s.procs[z.value].pid)
    else if !HasKids(s.procs, p) || s.procs[p].killed then Minus1
    else Slept
  }

  function StepWait(s: State, p: nat): State
    requires IsRunning(s, p)
  {
    var z := FirstExited(s.procs, p, 0);
    if z.Some? then
      Reap(s, z.value)
    else if WaitOutcome(s, p).Minus1? then s
    else Set(s, p, s.procs[p].(state := Sleeping, chan := OfProc(p)))
  }

  function StepKill(s: State, pid: nat): State
  {
    var f := FirstPid(s.procs, pid, 0);
    if f.None? then s else
    var q := s.procs[f.value];
    Set(s, f.value, q.(killed := true, state := if q.state.Sleeping? then Runnable else q.state))
  }

  /** The slot that p's fork has taken. */
  predicate Forking(s: State, p: nat) {
    p < |s.procs| && s.procs[p].np.Some? && s.procs[p].np.value < |s.procs| && s.procs[p].np.value != p
  }

  function StepFork(s: State, p: nat, child: Proc, done: bool): State
    requires Forking(s, p)
  {
    var t := Set(s, s.procs[p].np.value, child);
    if done then Set(t, p, s.procs[p].(np := None)) else t
  }

  function Step(s: State, e: Event): (r: Option<State>)
  {
    match e
    case Alloc(p) => if IsRunning(s, p) && s.procs[p].np.None? then Some(StepAlloc(s, p)) else None
    case Fail(p) =>
      if IsRunning(s, p) && Forking(s, p) && s.procs[s.procs[p].np.value].parent.None?
      then Some(StepFork(s, p, s.procs[s.procs[p].np.value].(state := Unused), true)) else None
    case Adopt(p) =>
      if IsRunning(s, p) && Forking(s, p)
      then Some(StepFork(s, p, s.procs[s.procs[p].np.value].(parent := Some(p)), false)) else None
    case Start(p) =>
      if IsRunning(s, p) && Forking(s, p) && s.procs[s.procs[p].np.value].parent == Some(p)
      then Some(StepFork(s, p, s.procs[s.procs[p].np.value].(state := Runnable), true)) else None
    case Exit(p) => if IsRunning(s, p) && s.procs[p].np.None? && p != s.init then Some(StepExit(s, p)) else None
    case Wait(p) => if IsRunning(s, p) && s.procs[p].np.None? then Some(StepWait(s, p)) else None
    case Kill(pid) => Some(StepKill(s, pid))
    case Dispatch(p) =>
      if p < |s.procs| && s.procs[p].state.Runnable? then Some(Set(s, p, s.procs[p].(state := Running))) else None
    case Yield(p) => if IsRunning(s, p) then Some(Set(s, p, s.procs[p].(state := Runnable))) else None
    case Sleep(p, id) =>
      if IsRunning(s, p) then Some(Set(s, p, s.procs[p].(state := Sleeping, chan := OfOther(id)))) else None
    case Wakeup(id) => Some(s.(procs := WakeAll(s.procs, OfOther(id))))
  }

  function Run(s: State, es: seq<Event>): (r: Option<State>)
  {
    if es == [] then Some(s) else
    var before := Run(s, es[..|es| - 1]);
    if before.None? then None else Step(before.value, es[|es| - 1])
  }

  /** The table after userinit: init holds some slot, the others are all zero. */
  ghost predicate Boot(s: State) {
    && s.init < |s.procs| && s.nextpid == 2 && s.exited == [] && s.reaped == []
    && s.procs[s.init] == Proc(Runnable, 1, None, Nothing, false, None)
    && forall i: nat :: i < |s.procs| && i != s.init ==> s.procs[i] == Proc(Unused, 0, None, Nothing, false, None)
  }

  // ---- the invariant ----

  predicate Alive(p: Proc) {
    p.state.Sleeping? || p.state.Runnable? || p.state.Running?
  }

  /** Pids: below nextpid, nonzero where in use, and no two alike but zero, even among stale ones. */
  ghost predicate Pids(s: State) {
    && s.nextpid >= 2
    && (forall i: nat :: i < |s.procs| ==> s.procs[i].pid < s.nextpid)
    && (forall i: nat :: i < |s.procs| && !s.procs[i].state.Unused? ==> s.procs[i].pid > 0)
    && (forall i: nat, j: nat :: i < j < |s.procs| && s.procs[i].pid == s.procs[j].pid ==> s.procs[i].pid == 0)
  }

  ghost predicate ParentOk(s: State, i: nat)
    requires i < |s.procs|
  {
    var p := s.procs[i];
    match p.parent
    case Some(q) => q < |s.procs| && Alive(s.procs[q]) && s.procs[q].pid < p.pid && !p.state.Unused?
    case None => i == s.init || p.state.Unused? || p.state.Embryo?
  }

  /** Every parent pointer leads to a live process of smaller pid. */
  ghost predicate Tree(s: State) {
    && s.init < |s.procs| && Alive(s.procs[s.init]) && s.procs[s.init].pid == 1 && s.procs[s.init].parent.None?
    && forall i: nat :: i < |s.procs| ==> ParentOk(s, i)
  }

  ghost predicate ForkOk(s: State, i: nat)
    requires i < |s.procs|
  {
    var p := s.procs[i];
    p.np.Some? ==>
      && Alive(p) && p.np.value < |s.procs| && s.procs[p.np.value].state.Embryo? && p.pid < s.procs[p.np.value].pid
      && (s.procs[p.np.value].parent.None? || s.procs[p.np.value].parent == Some(i))
  }

  /** Forks under way have distinct children, all EMBRYO. */
  ghost predicate Forks(s: State) {
    && (forall i: nat :: i < |s.procs| ==> ForkOk(s, i))
    && (forall i: nat, j: nat :: i < j < |s.procs| && s.procs[i].np.Some? ==> s.procs[i].np != s.procs[j].np)
  }

  /** A process that sleeps in wait has no exited child. */
  ghost predicate Waits(s: State) {
    forall i: nat :: i < |s.procs| && s.procs[i].state.Sleeping? && s.procs[i].chan.OfProc? ==>
      s.procs[i].chan.slot == i && !HasExited(s.procs, i)
  }

  ghost predicate NoDup(a: seq<nat>) {
    forall i, j :: 0 <= i < j < |a| ==> a[i] != a[j]
  }

  ghost predicate ZombiePid(s: State, pid: nat) {
    exists i :: 0 <= i < |s.procs| && s.procs[i].state.Zombie? && s.procs[i].pid == pid
  }

  ghost predicate AnyPid(s: State, pid: nat) {
    exists i :: 0 <= i < |s.procs| && s.procs[i].pid == pid
  }

  /** Who has exited is either a zombie or was returned by wait, never both, and once only. */
  ghost predicate History(s: State) {
    && NoDup(s.exited) && NoDup(s.reaped)
    && (forall pid: nat :: pid in s.exited <==> pid in s.reaped || ZombiePid(s, pid))
    && (forall pid: nat :: pid in s.reaped ==> 0 < pid < s.nextpid && !AnyPid(s, pid))
  }

  ghost predicate Inv(s: State) {
    Pids(s) && Tree(s) && Forks(s) && Waits(s) && History(s)
  }

  lemma BootInv(s: State)
    requires Boot(s)
    ensures Inv(s)
  {
  }

  // ---- steps that leave the zombies alone ----

  ghost predicate CalmAt(s: State, t: State, i: nat)
    requires i < |s.procs| && |t.procs| == |s.procs|
  {
    var p, q := s.procs[i], t.procs[i];
    && (q.pid == p.pid || (q.pid == s.nextpid < t.nextpid))
    && q.state.Zombie? == p.state.Zombie?
    && (q.state.Zombie? ==> q.parent == p.parent && q.pid == p.pid)
    && (q.state.Sleeping? && q.chan.OfProc? ==>
         (p.state.Sleeping? && p.chan == q.chan) || (q.chan.slot == i && !HasExited(s.procs, i)))
  }

  ghost predicate Calm(s: State, t: State) {
    && |t.procs| == |s.procs| && s.nextpid <= t.nextpid && t.init == s.init
    && t.exited == s.exited && t.reaped == s.reaped
    && forall i: nat :: i < |s.procs| ==> CalmAt(s, t, i)
  }

  lemma CalmExited(s: State, t: State, i: nat)
    requires Calm(s, t)
    ensures HasExited(t.procs, i) == HasExited(s.procs, i)
  {
    if HasExited(s.procs, i) {
      var k: nat :| k < |s.procs| && Exited(s.procs[k], i);
      assert CalmAt(s, t, k);
      assert Exited(t.procs[k], i);
    }
    if HasExited(t.procs, i) {
      var k: nat :| k < |t.procs| && Exited(t.procs[k], i);
      assert CalmAt(s, t, k);
      assert Exited(s.procs[k], i);
    }
  }

  lemma CalmPids(s: State, t: State, pid: nat)
    requires Calm(s, t)
    ensures ZombiePid(t, pid) == ZombiePid(s, pid)
    ensures AnyPid(t, pid) ==> AnyPid(s, pid) || pid == s.nextpid
  {
    if ZombiePid(s, pid) {
      var k: nat :| k < |s.procs| && s.procs[k].state.Zombie? && s.procs[k].pid == pid;
      assert CalmAt(s, t, k);
      assert t.procs[k].state.Zombie? && t.procs[k].pid == pid;
    }
    if ZombiePid(t, pid) {
      var k: nat :| k < |t.procs| && t.procs[k].state.Zombie? && t.procs[k].pid == pid;
      assert CalmAt(s, t, k);
      assert s.procs[k].state.Zombie? && s.procs[k].pid == pid;
    }
    if AnyPid(t, pid) {
      var k: nat :| k < |t.procs| && t.procs[k].pid == pid;
      assert CalmAt(s, t, k);
    }
  }

  lemma CalmWaits(s: State, t: State)
    requires Waits(s) && History(s) && Calm(s, t)
    ensures Waits(t) && History(t)
  {
    forall pid: nat
      ensures ZombiePid(t, pid) == ZombiePid(s, pid)
      ensures AnyPid(t, pid) ==> AnyPid(s, pid) || pid == s.nextpid
    {
      CalmPids(s, t, pid);
    }
    forall i: nat | i < |t.procs| && t.procs[i].state.Sleeping? && t.procs[i].chan.OfProc?
      ensures t.procs[i].chan.slot == i && !HasExited(t.procs, i)
    {
      CalmExited(s, t, i);
      assert CalmAt(s, t, i);
    }
  }

  // ---- steps that leave the whole tree alone ----

  ghost predicate QuietAt(s: State, t: State, i: nat)
    requires i < |s.procs| && |t.procs| == |s.procs|
  {
    var p, q := s.procs[i], t.procs[i];
    && CalmAt(s, t, i)
    && q.pid == p.pid && q.parent == p.parent && q.np == p.np
    && (q.state == p.state || (Alive(p) && Alive(q)))
  }

  ghost predicate Quiet(s: State, t: State) {
    && |t.procs| == |s.procs| && t.nextpid == s.nextpid && t.init == s.init
    && t.exited == s.exited && t.reaped == s.reaped
    && forall i: nat :: i < |s.procs| ==> QuietAt(s, t, i)
  }

  lemma QuietInv(s: State, t: State)
    requires Inv(s) && Quiet(s, t)
    ensures Inv(t)
  {
    forall i: nat | i < |t.procs|
      ensures CalmAt(s, t, i) && t.procs[i].pid == s.procs[i].pid && t.procs[i].np == s.procs[i].np
      ensures t.procs[i].parent == s.procs[i].parent && t.procs[i].state.Unused? == s.procs[i].state.Unused?
    {
      assert QuietAt(s, t, i);
    }
    CalmWaits(s, t);
    assert QuietAt(s, t, s.init);
    forall i: nat | i < |t.procs|
      ensures ParentOk(t, i) && ForkOk(t, i)
    {
      assert ParentOk(s, i) && ForkOk(s, i) && QuietAt(s, t, i);
      if s.procs[i].parent.Some? { assert QuietAt(s, t, s.procs[i].parent.value); }
      if s.procs[i].np.Some? { assert QuietAt(s, t, s.procs[i].np.value); }
    }
  }

  lemma QuietOne(s: State, p: nat, q: Proc)
    requires p < |s.procs| && var x := s.procs[p];
      q.pid == x.pid && q.parent == x.parent && q.np == x.np && (q.state == x.state || (Alive(x) && Alive(q)))
      && (q.state.Sleeping? && q.chan.OfProc? ==> q.chan.slot == p && !HasExited(s.procs, p))
    ensures Quiet(s, Set(s, p, q))
  {
  }

  lemma QuietWake(s: State, chan: Chan)
    ensures Quiet(s, s.(procs := WakeAll(s.procs, chan)))
  {
  }

  // ---- the steps that change the tree ----

  lemma NewPid(s: State, t: State, c: nat)
    requires Pids(s) && c < |s.procs| && |t.procs| == |s.procs| && t.nextpid == s.nextpid + 1
    requires t.procs[c].pid == s.nextpid
    requires forall i: nat :: i < |s.procs| && i != c ==>
      t.procs[i].pid == s.procs[i].pid && t.procs[i].state == s.procs[i].state
    ensures Pids(t)
  {
  }

  lemma AllocForks(s: State, t: State, p: nat, c: nat)
    requires Forks(s) && p < |s.procs| && c < |s.procs| && |t.procs| == |s.procs|
    requires s.procs[c].state.Unused? && s.procs[p].np.None? && t.procs[p].np == Some(c)
    requires forall i: nat :: i < |s.procs| && i != p ==> t.procs[i].np == s.procs[i].np
    requires forall i: nat :: i < |t.procs| ==> ForkOk(t, i)
    ensures Forks(t)
  {
    forall i: nat | i < |s.procs|
      ensures s.procs[i].np != Some(c)
    {
      assert ForkOk(s, i);
    }
  }

  lemma AllocAt(s: State, p: nat, i: nat)
    requires Pids(s) && Tree(s) && Forks(s) && Waits(s) && i < |s.procs|
    requires IsRunning(s, p) && s.procs[p].np.None? && FirstFree(s.procs, 0).Some?
    ensures var t := StepAlloc(s, p); CalmAt(s, t, i) && ParentOk(t, i) && ForkOk(t, i)
  {
    var c := FirstFree(s.procs, 0).value;
    assert ParentOk(s, c) && ForkOk(s, c) && ParentOk(s, i) && ForkOk(s, i);
  }

  lemma AllocInv(s: State, p: nat)
    requires Inv(s) && IsRunning(s, p) && s.procs[p].np.None? && FirstFree(s.procs, 0).Some?
    ensures Inv(StepAlloc(s, p))
  {
    var t, c := StepAlloc(s, p), FirstFree(s.procs, 0).value;
    NewPid(s, t, c);
    forall i: nat | i < |s.procs|
      ensures CalmAt(s, t, i) && ParentOk(t, i) && ForkOk(t, i)
    {
      AllocAt(s, p, i);
    }
    AllocForks(s, t, p, c);
    CalmWaits(s, t);
  }

  lemma ForkSteps(s: State, t: State)
    requires Pids(s) && Forks(s) && |t.procs| == |s.procs| && t.nextpid == s.nextpid
    requires forall i: nat :: i < |s.procs| ==> t.procs[i].pid == s.procs[i].pid
    requires forall i: nat :: i < |s.procs| && s.procs[i].state.Unused? ==> t.procs[i].state.Unused?
    requires forall i: nat :: i < |s.procs| ==> t.procs[i].np == s.procs[i].np || t.procs[i].np.None?
    requires forall i: nat :: i < |t.procs| ==> ForkOk(t, i)
    ensures Pids(t) && Forks(t)
  {
  }

  /** The three ways fork writes to its child: back to UNUSED, the parent pointer, RUNNABLE. */
  predicate ForkWrites(p: nat, c: Proc, child: Proc, done: bool) {
    child.pid == c.pid && child.np == c.np &&
    (if !done then child.state.Embryo? && child.parent == Some(p)
     else if child.state.Unused? then child.parent.None?
     else child.state.Runnable? && child.parent == Some(p))
  }

  lemma ForkAt(s: State, p: nat, child: Proc, done: bool, i: nat)
    requires Tree(s) && Forks(s) && Waits(s) && IsRunning(s, p) && Forking(s, p) && i < |s.procs|
    requires ForkWrites(p, s.procs[s.procs[p].np.value], child, done)
    ensures var t := StepFork(s, p, child, done); CalmAt(s, t, i) && ParentOk(t, i) && ForkOk(t, i)
  {
    assert ForkOk(s, p) && ForkOk(s, s.procs[p].np.value) && ParentOk(s, i) && ForkOk(s, i);
  }

  lemma ForkInv(s: State, p: nat, child: Proc, done: bool)
    requires Inv(s) && IsRunning(s, p) && Forking(s, p)
    requires ForkWrites(p, s.procs[s.procs[p].np.value], child, done)
    ensures Inv(StepFork(s, p, child, done))
  {
    var t := StepFork(s, p, child, done);
    assert ForkOk(s, p) && ForkOk(s, s.procs[p].np.value);
    forall i: nat | i < |s.procs|
      ensures CalmAt(s, t, i) && ParentOk(t, i) && ForkOk(t, i)
    {
      ForkAt(s, p, child, done, i);
    }
    ForkSteps(s, t);
    CalmWaits(s, t);
  }

  lemma LeaveAt(s: State, p: nat, i: nat)
    requires Pids(s) && Tree(s) && Forks(s) && i < |s.procs|
    requires IsRunning(s, p) && s.procs[p].np.None? && p != s.init
    ensures ParentOk(Leave(s, p), i) && ForkOk(Leave(s, p), i)
  {
    assert ParentOk(s, i) && ForkOk(s, i);
    if s.procs[i].parent == Some(p) {
      assert s.procs[i].pid > 0;
    }
  }

  lemma LeaveTree(s: State, p: nat)
    requires Inv(s) && IsRunning(s, p) && s.procs[p].np.None? && p != s.init
    ensures Pids(Leave(s, p)) && Tree(Leave(s, p)) && Forks(Leave(s, p))
  {
    var t := Leave(s, p);
    forall i: nat | i < |s.procs|
      ensures ParentOk(t, i) && ForkOk(t, i)
    {
      LeaveAt(s, p, i);
    }
    ForkSteps(s, t);
  }

  ghost predicate ParentAwake(s: State, p: nat)
    requires p < |s.procs|
  {
    match s.procs[p].parent
    case Some(q) => q < |s.procs| && !SleepsOn(s.procs[q], OfProc(q))
    case None => true
  }

  lemma LeaveWaits(s: State, p: nat)
    requires Inv(s) && IsRunning(s, p) && p != s.init
    requires ParentAwake(s, p)
    requires HasExited(s.procs, p) ==> !SleepsOn(s.procs[s.init], OfProc(s.init))
    ensures Waits(Leave(s, p))
  {
    var t := Leave(s, p);
    forall i: nat | i < |t.procs| && t.procs[i].state.Sleeping? && t.procs[i].chan.OfProc?
      ensures t.procs[i].chan.slot == i && !HasExited(t.procs, i)
    {
      assert !HasExited(s.procs, i);
      forall k: nat | k < |t.procs|
        ensures !Exited(t.procs[k], i)
      {
        assert !Exited(s.procs[k], i);
        assert ParentOk(s, k);
        if Exited(s.procs[k], p) {
          assert HasExited(s.procs, p);
        }
      }
    }
  }

  lemma LeaveHistory(s: State, p: nat)
    requires Inv(s) && IsRunning(s, p)
    ensures History(Leave(s, p))
  {
    var t, mine := Leave(s, p), s.procs[p].pid;
    assert AnyPid(s, mine);
    assert !ZombiePid(s, mine);
    forall pid: nat
      ensures ZombiePid(t, pid) <==> ZombiePid(s, pid) || pid == mine
      ensures AnyPid(t, pid) ==> AnyPid(s, pid)
    {
      if ZombiePid(s, pid) {
        var k: nat :| k < |s.procs| && s.procs[k].state.Zombie? && s.procs[k].pid == pid;
        assert t.procs[k].state.Zombie? && t.procs[k].pid == pid;
      }
      assert t.procs[p].state.Zombie? && t.procs[p].pid == mine;
      if ZombiePid(t, pid) && pid != mine {
        var k: nat :| k < |t.procs| && t.procs[k].state.Zombie? && t.procs[k].pid == pid;
        assert s.procs[k].state.Zombie? && s.procs[k].pid == pid;
      }
      if AnyPid(t, pid) {
        var k: nat :| k < |t.procs| && t.procs[k].pid == pid;
        assert s.procs[k].pid == pid;
      }
    }
  }

  lemma ExitInv(s: State, p: nat)
    requires Inv(s) && IsRunning(s, p) && s.procs[p].np.None? && p != s.init
    ensures Inv(StepExit(s, p))
  {
    var s2 := WakesKeep(s, p);
    WakesReach(s, p, s2);
    LeaveTree(s2, p);
    LeaveWaits(s2, p);
    LeaveHistory(s2, p);
  }

  /** Who is awake after exit's wakeups. */
  lemma WakesReach(s: State, p: nat, s2: State)
    requires Inv(s) && IsRunning(s, p) && p != s.init && s2 == s.(procs := ExitWakes(s, p)) && Inv(s2)
    ensures ParentAwake(s2, p) && (HasExited(s2.procs, p) ==> !SleepsOn(s2.procs[s2.init], OfProc(s2.init)))
  {
    assert ParentOk(s, p);
    assert forall k: nat :: k < |s.procs| ==> Exited(s2.procs[k], p) == Exited(s.procs[k], p);
  }

  /** exit's wakeups keep the invariant. */
  lemma WakesKeep(s: State, p: nat) returns (s2: State)
    requires Inv(s) && IsRunning(s, p) && s.procs[p].np.None? && p != s.init
    ensures s2 == s.(procs := ExitWakes(s, p)) && Inv(s2) && IsRunning(s2, p) && s2.procs[p].np.None?
  {
    assert ParentOk(s, p);
    var q := s.procs[p].parent.value;
    var s1 := s.(procs := WakeAll(s.procs, OfProc(q)));
    QuietWake(s, OfProc(q));
    QuietInv(s, s1);
    s2 := if HasExited(s.procs, p) then s1.(procs := WakeAll(s1.procs, OfProc(s.init))) else s1;
    if HasExited(s.procs, p) {
      QuietWake(s1, OfProc(s.init));
      QuietInv(s1, s2);
    }
    assert s2 == s.(procs := ExitWakes(s, p));
  }

  function Reap(s: State, z: nat): State
    requires z < |s.procs|
  {
    var q := s.procs[z];
    Set(s, z, q.(pid := 0, parent := None, killed := false, state := Unused)).(reaped := s.reaped + [q.pid])
  }

  lemma ReapHistory(s: State, z: nat)
    requires Inv(s) && z < |s.procs| && s.procs[z].state.Zombie?
    ensures History(Reap(s, z))
  {
    var t, mine := Reap(s, z), s.procs[z].pid;
    assert ZombiePid(s, mine) && AnyPid(s, mine);
    forall pid: nat
      ensures ZombiePid(s, pid) <==> ZombiePid(t, pid) || pid == mine
      ensures AnyPid(t, pid) && pid > 0 ==> AnyPid(s, pid) && pid != mine
    {
      if ZombiePid(s, pid) && pid != mine {
        var k: nat :| k < |s.procs| && s.procs[k].state.Zombie? && s.procs[k].pid == pid;
        assert t.procs[k].state.Zombie? && t.procs[k].pid == pid;
      }
      if ZombiePid(t, pid) {
        var k: nat :| k < |t.procs| && t.procs[k].state.Zombie? && t.procs[k].pid == pid;
        assert s.procs[k].state.Zombie? && s.procs[k].pid == pid;
      }
      if AnyPid(t, pid) && pid > 0 {
        var k: nat :| k < |t.procs| && t.procs[k].pid == pid;
        assert s.procs[k].pid == pid;
      }
    }
  }

  lemma ReapInv(s: State, z: nat)
    requires Inv(s) && z < |s.procs| && s.procs[z].state.Zombie?
    ensures Inv(Reap(s, z))
  {
    var t := Reap(s, z);
    ReapHistory(s, z);
    assert ForkOk(s, z);
    forall i: nat | i < |s.procs|
      ensures ParentOk(t, i) && ForkOk(t, i)
    {
      assert ParentOk(s, i) && ForkOk(s, i);
    }
    forall i: nat | i < |t.procs| && !HasExited(s.procs, i)
      ensures !HasExited(t.procs, i)
    {
      forall k: nat | k < |t.procs|
        ensures !Exited(t.procs[k], i)
      {
        assert !Exited(s.procs[k], i);
      }
    }
  }

  lemma StepInv(s: State, e: Event)
    requires Inv(s) && Step(s, e).Some?
    ensures Inv(Step(s, e).value)
  {
    match e
    case Alloc(p) => if FirstFree(s.procs, 0).Some? { AllocInv(s, p); }
    case Fail(p) => ForkInv(s, p, s.procs[s.procs[p].np.value].(state := Unused), true);
    case Adopt(p) =>
      assert ForkOk(s, p);
      ForkInv(s, p, s.procs[s.procs[p].np.value].(parent := Some(p)), false);
    case Start(p) => ForkInv(s, p, s.procs[s.procs[p].np.value].(state := Runnable), true);
    case Exit(p) => ExitInv(s, p);
    case Wait(p) =>
      var z := FirstExited(s.procs, p, 0);
      if z.Some? {
        ReapInv(s, z.value);
      } else if WaitOutcome(s, p).Slept? {
        QuietOne(s, p, s.procs[p].(state := Sleeping, chan := OfProc(p)));
        QuietInv(s, StepWait(s, p));
      }
    case Wakeup(id) =>
      QuietWake(s, OfOther(id));
      QuietInv(s, Step(s, e).value);
    case Kill(pid) =>
      var f := FirstPid(s.procs, pid, 0);
      if f.Some? {
        QuietOne(s, f.value, StepKill(s, pid).procs[f.value]);
        QuietInv(s, StepKill(s, pid));
      }
    case _ =>
      QuietOne(s, e.p, Step(s, e).value.procs[e.p]);
      QuietInv(s, Step(s, e).value);
  }

  lemma {:induction false} RunInv(s: State, es: seq<Event>)
    requires Boot(s) && Run(s, es).Some?
    ensures Inv(Run(s, es).value)
  {
    if es == [] {
      BootInv(s);
    } else {
      RunInv(s, es[..|es| - 1]);
      StepInv(Run(s, es[..|es| - 1]).value, es[|es| - 1]);
    }
  }

  // ---- what holds in every reachable state ----

  /** Pids in use are distinct, and every parent pointer leads to a process that is neither
      UNUSED nor ZOMBIE nor still being made. */
  lemma ProcessTree(s: State, es: seq<Event>, i: nat, j: nat)
    requires Boot(s) && Run(s, es).Some?
    ensures var procs := Run(s, es).value.procs;
      && |procs| == |s.procs|
      && (i < j < |procs| && !procs[i].state.Unused? && !procs[j].state.Unused? ==> procs[i].pid != procs[j].pid)
      && (i < |procs| && procs[i].parent.Some? ==>
           procs[i].parent.value < |procs| && Alive(procs[procs[i].parent.value])
           && procs[procs[i].parent.value].pid < procs[i].pid)
  {
    RunInv(s, es);
    RunLength(s, es);
    if i < |s.procs| {
      assert ParentOk(Run(s, es).value, i);
    }
  }

  lemma {:induction false} RunLength(s: State, es: seq<Event>)
    requires Run(s, es).Some?
    ensures |Run(s, es).value.procs| == |s.procs| && Run(s, es).value.init == s.init
  {
    if es != [] {
      RunLength(s, es[..|es| - 1]);
    }
  }

  /** chain starts at i, each next is the parent of the one before, and it ends at init. */
  ghost predicate LeadsToInit(s: State, chain: seq<nat>) {
    && chain != [] && chain[|chain| - 1] == s.init
    && (forall k :: 0 <= k < |chain| ==> chain[k] < |s.procs|)
    && (forall k :: 0 <= k < |chain| - 1 ==> s.procs[chain[k]].parent == Some(chain[k + 1]))
  }

  lemma {:induction false} ChainToInit(s: State, i: nat) returns (chain: seq<nat>)
    requires Inv(s) && i < |s.procs| && (i == s.init || s.procs[i].parent.Some?)
    ensures LeadsToInit(s, chain) && chain[0] == i
    decreases s.procs[i].pid
  {
    assert ParentOk(s, i);
    if i == s.init {
      chain := [i];
    } else {
      var q := s.procs[i].parent.value;
      assert ParentOk(s, q);
      var rest := ChainToInit(s, q);
      chain := [i] + rest;
    }
  }

  /** In every reachable state every process that has been started, dead or alive, has a
      chain of parents that ends at init. */
  lemma AllDescendFromInit(s: State, es: seq<Event>, i: nat) returns (chain: seq<nat>)
    requires Boot(s) && Run(s, es).Some? && i < |Run(s, es).value.procs|
    requires Alive(Run(s, es).value.procs[i]) || Run(s, es).value.procs[i].state.Zombie?
    ensures LeadsToInit(Run(s, es).value, chain) && chain[0] == i
  {
    RunInv(s, es);
    assert ParentOk(Run(s, es).value, i);
    chain := ChainToInit(Run(s, es).value, i);
  }

  /** Over every run wait returns each pid at most once, only pids that have exited, and those
      that have exited and were not returned are exactly the zombies. */
  lemma WaitReturnsOnce(s: State, es: seq<Event>)
    requires Boot(s) && Run(s, es).Some?
    ensures var t := Run(s, es).value;
      && NoDup(t.exited) && NoDup(t.reaped)
      && forall pid: nat :: (pid in t.exited <==> pid in t.reaped || ZombiePid(t, pid))
                            && !(pid in t.reaped && ZombiePid(t, pid))
  {
    RunInv(s, es);
    var t := Run(s, es).value;
    forall pid: nat | pid in t.reaped
      ensures !ZombiePid(t, pid)
    {
      assert !AnyPid(t, pid);
    }
  }

  /** No exit is missed: while a process sleeps in wait it has no child to collect. */
  lemma NoMissedExit(s: State, es: seq<Event>, i: nat)
    requires Boot(s) && Run(s, es).Some? && i < |Run(s, es).value.procs|
    ensures var procs := Run(s, es).value.procs;
      procs[i].state.Sleeping? && procs[i].chan.OfProc? ==> procs[i].chan.slot == i && !HasExited(procs, i)
  {
    RunInv(s, es);
  }

  // ---- kill ----

  /** The pid of a process in use names it alone: kill marks that process, wakes it if it
      sleeps, and leaves every other slot as it was. */
  lemma KillHitsItsTarget(s: State, es: seq<Event>, i: nat)
    requires Boot(s) && Run(s, es).Some? && i < |Run(s, es).value.procs|
    requires !Run(s, es).value.procs[i].state.Unused?
    ensures var t := Run(s, es).value; var u := StepKill(t, t.procs[i].pid);
      && u.procs[i].killed && !u.procs[i].state.Sleeping?
      && forall k: nat :: k < |t.procs| && k != i ==> u.procs[k] == t.procs[k]
  {
    RunInv(s, es);
    var t := Run(s, es).value;
    var f := FirstPid(t.procs, t.procs[i].pid, 0);
    assert f == Some(i);
  }

  ghost predicate Clean(s: State) {
    forall i: nat :: i < |s.procs| && s.procs[i].state.Unused? ==> !s.procs[i].killed
  }

  /** The events that leave the mark of a kill on a slot nobody uses. */
  predicate Stains(s: State, e: Event) {
    match e
    case Kill(pid) => FirstPid(s.procs, pid, 0).Some? && s.procs[FirstPid(s.procs, pid, 0).value].state.Unused?
    case Fail(p) => IsRunning(s, p) && Forking(s, p) && s.procs[s.procs[p].np.value].killed
    case _ => false
  }

  lemma CleanKept(s: State, t: State)
    requires Clean(s) && |t.procs| == |s.procs|
    requires forall i: nat :: i < |t.procs| && t.procs[i].state.Unused? ==>
      !t.procs[i].killed || (s.procs[i].state.Unused? && t.procs[i].killed == s.procs[i].killed)
    ensures Clean(t)
  {
  }

  /** UNUSED slots stay unmarked across an event exactly when the event is neither a kill whose
      first match is UNUSED nor a fork that fails after its child was killed. */
  lemma StaysClean(s: State, e: Event)
    requires Clean(s) && Step(s, e).Some?
    ensures Clean(Step(s, e).value) <==> !Stains(s, e)
  {
    var t := Step(s, e).value;
    match e
    case Kill(pid) =>
      var f := FirstPid(s.procs, pid, 0);
      if f.Some? { assert t.procs[f.value].killed && t.procs[f.value].state.Unused? == s.procs[f.value].state.Unused?; }
    case Fail(p) =>
      assert t.procs[s.procs[p].np.value].state.Unused?;
      if !Stains(s, e) { CleanKept(s, t); }
    case _ => CleanKept(s, t);
  }

  /** A run in which no event leaves the mark of a kill on a free slot. */
  ghost predicate Unstained(s: State, es: seq<Event>)
    requires Run(s, es).Some?
    decreases |es|
  {
    es == [] || (Unstained(s, es[..|es| - 1]) && !Stains(Run(s, es[..|es| - 1]).value, es[|es| - 1]))
  }

  /** Every process marked as killed has been named by a kill. */
  ghost predicate Named(s: State, es: seq<Event>) {
    forall i: nat :: i < |s.procs| && !s.procs[i].state.Unused? && s.procs[i].killed ==> Kill(s.procs[i].pid) in es
  }

  lemma NamedStep(s: State, es: seq<Event>, e: Event, es': seq<Event>)
    requires Clean(s) && Named(s, es) && Step(s, e).Some? && es' == es + [e]
    ensures Named(Step(s, e).value, es')
  {
    var t := Step(s, e).value;
    forall i: nat | i < |t.procs| && !t.procs[i].state.Unused? && t.procs[i].killed
      ensures Kill(t.procs[i].pid) in es'
    {
      if i < |s.procs| && !s.procs[i].state.Unused? && s.procs[i].killed && s.procs[i].pid == t.procs[i].pid {
        assert Kill(s.procs[i].pid) in es;
      } else {
        assert e == Kill(t.procs[i].pid) && e in es';
      }
    }
  }

  lemma OneMoreEvent(s: State, before: seq<Event>, e: Event, t: State, es: seq<Event>)
    requires Clean(s) && Named(s, before) && !Stains(s, e) && Step(s, e) == Some(t) && |es| > 0 && before == es[..|es| - 1] && e == es[|es| - 1]
    ensures Clean(t) && Named(t, es)
  {
    StaysClean(s, e);
    NamedStep(s, before, e, es);
  }

  /** In such a run a process is marked as killed only if some kill named its pid; in particular
      every process starts unmarked. KillZero is a run where this fails. */
  lemma {:induction false} KilledByName(s: State, es: seq<Event>)
    requires Boot(s) && Run(s, es).Some? && Unstained(s, es)
    ensures Clean(Run(s, es).value) && Named(Run(s, es).value, es)
    decreases |es|
  {
    if es != [] {
      var before, e := es[..|es| - 1], es[|es| - 1];
      KilledByName(s, before);
      OneMoreEvent(Run(s, before).value, before, e, Run(s, es).value, es);
    }
  }

  lemma RunOn(s: State, es: seq<Event>, e: Event)
    requires Run(s, es).Some?
    ensures Run(s, es + [e]) == Step(Run(s, es).value, e)
  {
    assert (es + [e])[..|es|] == es;
  }

  /** kill(0) as the first call of all: it succeeds on a free slot, and the next child of fork
      is born killed. */
  lemma KillZero(s: State)
    requires Boot(s) && |s.procs| >= 2 && s.init == 0
    ensures Run(s, [Dispatch(0), Kill(0), Alloc(0), Adopt(0), Start(0)]).Some?
    ensures var t := Run(s, [Dispatch(0), Kill(0), Alloc(0), Adopt(0), Start(0)]).value;
      t.procs[1].state.Runnable? && t.procs[1].killed
  {
    var e1: seq<Event> := [] + [Dispatch(0)];
    RunOn(s, [], Dispatch(0));
    var e2 := e1 + [Kill(0)];
    RunOn(s, e1, Kill(0));
    var s2 := Run(s, e2).value;
    assert FirstPid(s.procs, 0, 0) == Some(1) by { assert s.procs[1].pid == 0; }
    assert s2.procs[1].killed && s2.procs[1].state.Unused? && s2.procs[1].parent.None?;
    var e3 := e2 + [Alloc(0)];
    RunOn(s, e2, Alloc(0));
    var s3 := Run(s, e3).value;
    assert s3.procs[1].killed && s3.procs[0].np == Some(1) && s3.procs[0].state.Running?;
    var e4 := e3 + [Adopt(0)];
    RunOn(s, e3, Adopt(0));
    RunOn(s, e4, Start(0));
    assert e4 + [Start(0)] == [Dispatch(0), Kill(0), Alloc(0), Adopt(0), Start(0)];
  }

  // ---- the table itself ----

  /** exit's loop after i rounds: children below i now belong to init, which was woken if one
      of them was a zombie. */
  function Moved(p: Proc, k: nat, cur: nat, init: nat, i: nat, seen: bool): Proc {
    var q := if k < i && IsChild(p, cur) then p.(parent := Some(init)) else p;
    if seen then Woken(q, OfProc(init)) else q
  }

  class Table {
    const procs: array<Proc>
    const init: nat
    var nextpid: nat
    ghost var exited: seq<nat>
    ghost var reaped: seq<nat>

    ghost function Now(): State
      reads this, procs
    {
      State(procs[..], nextpid, init, exited, reaped)
    }

    method Wakeup1(chan: Chan)
      modifies procs
      ensures procs[..] == WakeAll(old(procs[..]), chan)
    {
      var i := 0;
      while i < procs.Length
        invariant 0 <= i <= procs.Length
        invariant forall k :: 0 <= k < i ==> procs[k] == Woken(old(procs[k]), chan)
        invariant forall k :: i <= k < procs.Length ==> procs[k] == old(procs[k])
      {
        if procs[i].state.Sleeping? && procs[i].chan == chan {
          procs[i] := procs[i].(state := Runnable);
        }
        i := i + 1;
      }
    }

    /** allocproc's locked section, for the process in slot cur. */
    method AllocProc(cur: nat) returns (found: Option<nat>)
      requires IsRunning(Now(), cur) && procs[cur].np.None?
      modifies this, procs
      ensures Step(old(Now()), Alloc(cur)) == Some(Now())
      ensures found == FirstFree(old(procs[..]), 0)
    {
      ghost var before := procs[..];
      var i := 0;
      while i < procs.Length && !procs[i].state.Unused?
        invariant 0 <= i <= procs.Length
        invariant FirstFree(before, 0) == FirstFree(before, i)
        invariant procs[..] == before
      {
        i := i + 1;
      }
      if i == procs.Length {
        return None;
      }
      procs[i] := procs[i].(state := Embryo, pid := nextpid);
      nextpid := nextpid + 1;
      procs[cur] := procs[cur].(np := Some(i));
      found := Some(i);
    }

    method Kill(pid: nat) returns (r: int)
      modifies procs
      ensures Step(old(Now()), Event.Kill(pid)) == Some(Now())
      ensures r == if FirstPid(old(procs[..]), pid, 0).Some? then 0 else -1
    {
      ghost var before := procs[..];
      var i := 0;
      while i < procs.Length
        invariant 0 <= i <= procs.Length
        invariant FirstPid(before, pid, 0) == FirstPid(before, pid, i)
        invariant procs[..] == before
      {
        if procs[i].pid == pid {
          procs[i] := procs[i].(killed := true);
          if procs[i].state.Sleeping? {
            procs[i] := procs[i].(state := Runnable);
          }
          assert procs[..] == StepKill(old(Now()), pid).procs;
          return 0;
        }
        i := i + 1;
      }
      return -1;
    }

    /** The loop that passes abandoned children to init. */
    method PassChildren(cur: nat)
      requires init < procs.Length
      modifies procs
      ensures forall k: nat :: k < procs.Length ==>
        procs[k] == Moved(old(procs[k]), k, cur, init, procs.Length, HasExited(old(procs[..]), cur))
    {
      ghost var before := procs[..];
      ghost var seen := false;
      var i := 0;
      while i < procs.Length
        invariant 0 <= i <= procs.Length
        invariant seen == exists k :: 0 <= k < i && Exited(before[k], cur)
        invariant forall k: nat :: k < procs.Length ==> procs[k] == Moved(before[k], k, cur, init, i, seen)
      {
        if procs[i].parent == Some(cur) {
          procs[i] := procs[i].(parent := Some(init));
          if procs[i].state.Zombie? {
            Wakeup1(OfProc(init));
            seen := true;
          }
        }
        i := i + 1;
      }
    }

    method Exit(cur: nat)
      requires IsRunning(Now(), cur) && procs[cur].np.None? && cur != init && init < procs.Length
      requires procs[cur].parent.Some?
      modifies this, procs
      ensures Step(old(Now()), Event.Exit(cur)) == Some(Now())
    {
      ghost var before := Now();
      Wakeup1(OfProc(procs[cur].parent.value));
      PassChildren(cur);
      procs[cur] := procs[cur].(state := Zombie);
      exited := exited + [procs[cur].pid];
      ghost var woken := WakeAll(before.procs, OfProc(before.procs[cur].parent.value));
      assert forall k: nat :: k < |woken| ==> Exited(woken[k], cur) == Exited(before.procs[k], cur);
      assert HasExited(woken, cur) == HasExited(before.procs, cur);
      assert procs[..] == StepExit(before, cur).procs;
    }

    /** One pass of wait's loop. */
    method WaitPass(cur: nat) returns (r: WaitResult)
      requires IsRunning(Now(), cur) && procs[cur].np.None?
      modifies this, procs
      ensures Step(old(Now()), Event.Wait(cur)) == Some(Now())
      ensures r == WaitOutcome(old(Now()), cur)
    {
      ghost var before := procs[..];
      var havekids, i := false, 0;
      while i < procs.Length
        invariant 0 <= i <= procs.Length
        invariant procs[..] == before && reaped == old(reaped) && exited == old(exited) && nextpid == old(nextpid)
        invariant FirstExited(before, cur, 0) == FirstExited(before, cur, i)
        invariant havekids == exists k :: 0 <= k < i && IsChild(before[k], cur)
      {
        if procs[i].parent == Some(cur) {
          havekids := true;
          if procs[i].state.Zombie? {
            r := Reaped(procs[i].pid);
            reaped := reaped + [procs[i].pid];
            procs[i] := procs[i].(pid := 0, parent := None, killed := false, state := Unused);
            return;
          }
        }
        i := i + 1;
      }
      if !havekids || procs[cur].killed {
        return Minus1;
      }
      procs[cur] := procs[cur].(chan := OfProc(cur), state := Sleeping);
      r := Slept;
    }
  }
}
