/**
The start-up gate of the local server: the Docker Compose worker runs with `--wait` until it
has exited successfully once; its success hook then opens the wait group that holds the other
workers back, and relaunches Compose once without `--wait`.

A run interleaves the steps of the Compose worker's runner with the moments at which the other
workers' goroutines pass `dockerWg.Wait`.
*/
module ComposeGate {
  import opened Basics
  import opened Runner

  datatype Gate = Gate(worker: State, started: set<string>)

  datatype Move = Worker(c: Choice) | Begin(name: string)

  /** `Wait` returns when the counter is zero. */
  function Moved(g: Gate, m: Move): Gate {
    match m
    case Worker(c) => g.(worker := Step(g.worker, c))
    case Begin(name) => if g.worker.w.wg == 0 then g.(started := g.started + {name}) else g
  }

  ghost predicate Opening(g: Gate) {
    && Init(g.worker) && g.worker.cfg.mode == LoopAttached
    && g.worker.r.build == AddWait && g.worker.r.success && !g.worker.r.alwaysRestart
    && g.worker.w.wg == 1 && g.started == {}
  }

  ghost predicate IsGateRun(gs: seq<Gate>, ms: seq<Move>) {
    && |gs| == |ms| + 1 && Opening(gs[0])
    && forall i :: 0 <= i < |ms| ==> gs[i + 1] == Moved(gs[i], ms[i])
  }

  /** The runner acts, in its main select, on a successful exit while the hook is installed. */
  ghost predicate HandlesSuccess(g: Gate, m: Move) {
    m.Worker? && Opens(g.worker, m.c)
  }

  ghost predicate Opens(s: State, c: Choice) {
    c.TakeExit? && Enabled(s, c) && s.r.pc == MainSelect && HookFires(s, s.w.pending[c.i].ok)
  }

  /** The runner starts the command again on its own after an exit. */
  ghost predicate Relaunches(g: Gate, m: Move) {
    && m.Worker? && m.c.TakeExit? && Enabled(g.worker, m.c) && g.worker.r.pc == MainSelect
    && Step(g.worker, m.c).r.pc in {LoopHead, Backoff}
  }

  ghost predicate LaunchesCommand(g: Gate, m: Move) {
    m.Worker? && m.c.Launch? && m.c.outcome == Ran && Enabled(g.worker, m.c)
  }

  ghost predicate HookInv(s: State) {
    && s.cfg.mode == LoopAttached
    && s.w.wg == (if s.r.success then 1 else 0)
    && s.r.build == (if s.r.success then AddWait else ResetRestart)
    && (s.r.alwaysRestart ==> !s.r.success && s.r.pc in {LoopHead, Done(BuildFailed)})
  }

  lemma HookStep(s: State, c: Choice)
    requires HookInv(s)
    ensures HookInv(Step(s, c))
    ensures Step(s, c).r.success <==> s.r.success && !Opens(s, c)
    ensures Opens(s, c) ==> s.r.success && Step(s, c).r.pc == LoopHead
    ensures c.TakeExit? && Enabled(s, c) && s.r.pc == MainSelect && !Opens(s, c) ==> Step(s, c).r.pc == Done(Stopped)
  {
    if Enabled(s, c) && c.TakeExit? {
      hide Without;
      if s.r.pc == MainSelect {
        HookExit(Take(s, c.i), s.w.pending[c.i].ok, c.removed);
        hide AfterExit;
      }
    }
  }

  lemma HookExit(s: State, ok: bool, removed: bool)
    requires HookInv(s) && s.r.pc == MainSelect
    ensures var t := AfterExit(s, ok, removed);
            && HookInv(t)
            && (t.r.success <==> s.r.success && !HookFires(s, ok))
            && t.r.pc == if HookFires(s, ok) then LoopHead else Done(Stopped)
  {
  }

  ghost predicate GateInv(g: Gate) {
    HookInv(g.worker) && (g.started != {} ==> !g.worker.r.success)
  }

  ghost predicate Handled(gs: seq<Gate>, ms: seq<Move>, j: nat)
    requires |gs| == |ms| + 1 && j <= |ms|
  {
    exists k :: 0 <= k < j && HandlesSuccess(gs[k], ms[k])
  }

  lemma {:induction false} GateAt(gs: seq<Gate>, ms: seq<Move>, j: nat)
    requires IsGateRun(gs, ms) && j <= |ms|
    ensures GateInv(gs[j])
    ensures gs[j].worker.r.success <==> !Handled(gs, ms, j)
    decreases j
  {
    if j > 0 {
      GateAt(gs, ms, j - 1);
      var g, m := gs[j - 1], ms[j - 1];
      if m.Worker? { HookStep(g.worker, m.c); }
      hide Step;
      hide Opens;
      assert HandlesSuccess(g, m) ==> Handled(gs, ms, j);
      forall k | 0 <= k < j - 1 && HandlesSuccess(gs[k], ms[k])
        ensures Handled(gs, ms, j - 1) && Handled(gs, ms, j)
      {
      }
    }
  }

  /** `dockerWg.Done` fires at most once. */
  lemma DoneOnce(gs: seq<Gate>, ms: seq<Move>, i: nat, j: nat)
    requires IsGateRun(gs, ms) && i < j < |ms|
    ensures !(HandlesSuccess(gs[i], ms[i]) && HandlesSuccess(gs[j], ms[j]))
  {
    GateAt(gs, ms, j);
    if HandlesSuccess(gs[i], ms[i]) {
      assert Handled(gs, ms, j);
    }
  }

  /** Compose is relaunched on exit exactly when its success is handled, so at most once. */
  lemma OneRelaunch(gs: seq<Gate>, ms: seq<Move>, i: nat, j: nat)
    requires IsGateRun(gs, ms) && i < j < |ms|
    ensures Relaunches(gs[i], ms[i]) <==> HandlesSuccess(gs[i], ms[i])
    ensures !(Relaunches(gs[i], ms[i]) && Relaunches(gs[j], ms[j]))
  {
    GateAt(gs, ms, i);
    GateAt(gs, ms, j);
    RelaunchIsSuccess(gs[i], ms[i]);
    RelaunchIsSuccess(gs[j], ms[j]);
    DoneOnce(gs, ms, i, j);
  }

  lemma RelaunchIsSuccess(g: Gate, m: Move)
    requires GateInv(g)
    ensures Relaunches(g, m) <==> HandlesSuccess(g, m)
  {
    if m.Worker? { HookStep(g.worker, m.c); }
  }

  // ---------- in terms of Compose's exit ----------

  /** Seen from the Compose worker, a run of the gate is a run of its runner, step for step. */
  ghost function WorkerChoice(m: Move): Choice { if m.Worker? then m.c else Pass(0) }

  lemma Project(gs: seq<Gate>, ms: seq<Move>) returns (ss: seq<State>, cs: seq<Choice>)
    requires IsGateRun(gs, ms)
    ensures IsRun(ss, cs) && |cs| == |ms|
    ensures forall i :: 0 <= i <= |ms| ==> ss[i] == gs[i].worker
    ensures forall i :: 0 <= i < |ms| ==> cs[i] == WorkerChoice(ms[i])
  {
    ss := seq(|gs|, i requires 0 <= i < |gs| => gs[i].worker);
    cs := seq(|ms|, i requires 0 <= i < |ms| => WorkerChoice(ms[i]));
    forall i | 0 <= i < |cs|
      ensures ss[i + 1] == Step(ss[i], cs[i])
    {
      assert gs[i + 1] == Moved(gs[i], ms[i]);
    }
  }

  /** Step `k`: Compose, as process `pid`, exits successfully. */
  ghost predicate ExitsWell(gs: seq<Gate>, ms: seq<Move>, k: nat, pid: nat)
    requires |gs| == |ms| + 1
  {
    k < |ms| && ms[k] == Worker(Exit(pid, true)) && pid in gs[k].worker.w.alive
  }

  /** Step `m` receives the exit status of `pid` while the runner is at `pc`. */
  ghost predicate Receives(gs: seq<Gate>, ms: seq<Move>, m: nat, pid: nat, pc: Pc)
    requires |gs| == |ms| + 1
  {
    && m < |ms| && ms[m].Worker? && ms[m].c.TakeExit? && Enabled(gs[m].worker, ms[m].c)
    && gs[m].worker.r.pc == pc && gs[m].worker.w.pending[ms[m].c.i].pid == pid
  }

  /** A successful exit before `j` whose status was also received before `j`, at `pc`. */
  ghost predicate SeenAt(gs: seq<Gate>, ms: seq<Move>, j: nat, k: nat, m: nat, pid: nat, pc: Pc)
    requires |gs| == |ms| + 1
  {
    k < m < j && ExitsWell(gs, ms, k, pid) && Receives(gs, ms, m, pid, pc)
  }

  ghost predicate SeenInMain(gs: seq<Gate>, ms: seq<Move>, j: nat)
    requires |gs| == |ms| + 1
  {
    exists k: nat, m: nat, pid: nat :: SeenAt(gs, ms, j, k, m, pid, MainSelect)
  }

  ghost predicate Drained(gs: seq<Gate>, ms: seq<Move>, j: nat, k: nat, pid: nat)
    requires |gs| == |ms| + 1
  {
    exists m: nat :: SeenAt(gs, ms, j, k, m, pid, Drain)
  }

  /** What is received is what Compose exited with. */
  lemma ReceivedIsExit(gs: seq<Gate>, ms: seq<Move>, j: nat, k: nat, m: nat, pid: nat, pc: Pc)
    requires IsGateRun(gs, ms) && SeenAt(gs, ms, j, k, m, pid, pc) && pc in {MainSelect, Drain}
    ensures gs[m].worker.w.pending == [Status(pid, true)] && ms[m].c.i == 0
  {
    var ss, cs := Project(gs, ms);
    var st := Status(pid, true);
    assert Exits(ss, cs, k, st) && Settles(ss[m], cs[m], pid);
    InvAt(ss, cs, m);
    LoneStatus(ss[m], cs[m].i, cs[m].removed);
    TakenStatus(ss[m], cs[m]);
    assert ss[m + 1] == Step(ss[m], cs[m]);
    var m' := SettledAs(ss, cs, k, m + 1, st);
    if m' < m { SettledOnce(ss, cs, pid, m', m); }
  }

  lemma HandledIffSeen(gs: seq<Gate>, ms: seq<Move>, j: nat)
    requires IsGateRun(gs, ms) && j <= |ms|
    ensures Handled(gs, ms, j) <==> SeenInMain(gs, ms, j)
  {
    if Handled(gs, ms, j) {
      var m :| 0 <= m < j && HandlesSuccess(gs[m], ms[m]);
      var k, pid := ExitBefore(gs, ms, m);
      assert SeenAt(gs, ms, j, k, m, pid, MainSelect);
    }
    if SeenInMain(gs, ms, j) {
      var k: nat, m: nat, pid: nat :| SeenAt(gs, ms, j, k, m, pid, MainSelect);
      ReceivedIsExit(gs, ms, j, k, m, pid, MainSelect);
      GateAt(gs, ms, m);
      if gs[m].worker.r.success {
        assert HandlesSuccess(gs[m], ms[m]);
      } else {
        var m' :| 0 <= m' < m && HandlesSuccess(gs[m'], ms[m']);
        assert m' < j;
      }
    }
  }

  /** A success that is handled comes from a successful exit. */
  lemma ExitBefore(gs: seq<Gate>, ms: seq<Move>, m: nat) returns (k: nat, pid: nat)
    requires IsGateRun(gs, ms) && m < |ms| && HandlesSuccess(gs[m], ms[m])
    ensures SeenAt(gs, ms, m + 1, k, m, pid, MainSelect)
  {
    var ss, cs := Project(gs, ms);
    InvAt(ss, cs, m);
    LoneStatus(ss[m], cs[m].i, cs[m].removed);
    var st := ss[m].w.pending[0];
    assert ss[m].w.pending == [st] && st == Status(st.pid, true);
    pid := st.pid;
    k := StatusFrom(ss, cs, m, st);
    assert cs[k] == WorkerChoice(ms[k]);
  }

  /** No dependant starts before Compose has exited successfully. */
  lemma DependantsAfterExit(gs: seq<Gate>, ms: seq<Move>, j: nat) returns (k: nat, pid: nat)
    requires IsGateRun(gs, ms) && j <= |ms| && gs[j].started != {}
    ensures k < j && ExitsWell(gs, ms, k, pid)
  {
    GateAt(gs, ms, j);
    var m :| 0 <= m < j && HandlesSuccess(gs[m], ms[m]);
    k, pid := ExitBefore(gs, ms, m);
  }

  /** The gate is open exactly when Compose has exited successfully and the main select has
      received that status; a dependant can start then and only then. */
  lemma GateOpenIff(gs: seq<Gate>, ms: seq<Move>, j: nat, name: string)
    requires IsGateRun(gs, ms) && j <= |ms|
    ensures gs[j].worker.w.wg == if SeenInMain(gs, ms, j) then 0 else 1
    ensures name in Moved(gs[j], Begin(name)).started <==> SeenInMain(gs, ms, j)
  {
    HandledIffSeen(gs, ms, j);
    GateAt(gs, ms, j);
    hide SeenInMain;
    hide Handled;
  }

  /** A launch passes `--wait` exactly when every successful exit before it was drained for a
      restart. */
  lemma WaitIffDrained(gs: seq<Gate>, ms: seq<Move>, j: nat)
    requires IsGateRun(gs, ms) && j < |ms| && LaunchesCommand(gs[j], ms[j])
    ensures gs[j].worker.r.build == AddWait
            <==> forall k: nat, pid: nat :: k < j && ExitsWell(gs, ms, k, pid) ==> Drained(gs, ms, j, k, pid)
  {
    GateAt(gs, ms, j);
    HandledIffSeen(gs, ms, j);
    if SeenInMain(gs, ms, j) {
      var k: nat, m: nat, pid: nat :| SeenAt(gs, ms, j, k, m, pid, MainSelect);
      NotBoth(gs, ms, j, k, m, pid);
    } else {
      forall k: nat, pid: nat | k < j && ExitsWell(gs, ms, k, pid)
        ensures Drained(gs, ms, j, k, pid)
      {
        ReceivedByLaunch(gs, ms, j, k, pid);
      }
    }
  }

  /** A status received in the main select is not drained as well. */
  lemma NotBoth(gs: seq<Gate>, ms: seq<Move>, j: nat, k: nat, m: nat, pid: nat)
    requires IsGateRun(gs, ms) && SeenAt(gs, ms, j, k, m, pid, MainSelect)
    ensures !Drained(gs, ms, j, k, pid)
  {
    var ss, cs := Project(gs, ms);
    forall m': nat | SeenAt(gs, ms, j, k, m', pid, Drain)
      ensures false
    {
      assert Settles(ss[m], cs[m], pid) && Settles(ss[m'], cs[m'], pid);
      if m < m' { SettledOnce(ss, cs, pid, m, m'); } else if m' < m { SettledOnce(ss, cs, pid, m', m); }
    }
  }

  /** Every status has been received by the next launch, in the main select or the drain. */
  lemma ReceivedByLaunch(gs: seq<Gate>, ms: seq<Move>, j: nat, k: nat, pid: nat)
    requires IsGateRun(gs, ms) && k < j < |ms| && LaunchesCommand(gs[j], ms[j]) && ExitsWell(gs, ms, k, pid)
    ensures SeenInMain(gs, ms, j) || Drained(gs, ms, j, k, pid)
  {
    var ss, cs := Project(gs, ms);
    var st := Status(pid, true);
    InvAt(ss, cs, j);
    assert Exits(ss, cs, k, st);
    var m := SettledAs(ss, cs, k, j, st);
    var pc := ss[m].r.pc;
    assert cs[m] == WorkerChoice(ms[m]);
    assert pc == MainSelect || pc == Drain;
    assert SeenAt(gs, ms, j, k, m, pid, pc);
  }

  /** With nothing watched, a launch passes `--wait` exactly when Compose has not exited
      successfully yet. */
  lemma WaitUntilUp(gs: seq<Gate>, ms: seq<Move>, j: nat)
    requires IsGateRun(gs, ms) && j < |ms| && LaunchesCommand(gs[j], ms[j]) && !gs[0].worker.cfg.watched
    ensures gs[j].worker.r.build == AddWait <==> forall k: nat, pid: nat :: k < j ==> !ExitsWell(gs, ms, k, pid)
  {
    WaitIffDrained(gs, ms, j);
    forall k: nat, pid: nat
      ensures !Drained(gs, ms, j, k, pid)
    {
      forall m: nat | SeenAt(gs, ms, j, k, m, pid, Drain)
        ensures false
      {
        var ss, cs := Project(gs, ms);
        NeverDrains(ss, cs, m);
      }
    }
  }

  lemma {:induction false} NeverDrains(ss: seq<State>, cs: seq<Choice>, j: nat)
    requires IsRun(ss, cs) && !ss[0].cfg.watched && j < |ss|
    ensures ss[j].r.pc != Drain
    decreases j
  {
    hide Step;
    if j > 0 {
      NeverDrains(ss, cs, j - 1);
      Fixed(ss, cs, j - 1);
      DrainStep(ss[j - 1], cs[j - 1]);
    }
  }

  lemma DrainStep(s: State, c: Choice)
    requires !s.cfg.watched && s.r.pc != Drain
    ensures Step(s, c).r.pc != Drain
  {
  }

  // ---------- a success that is drained ----------

  /**
  "Has exited successfully" is not enough: when a watched file changes first, the successful
  exit status is drained for the restart.  Compose has then succeeded once, yet the gate is
  closed and the next launch still passes `--wait`.
  */
  lemma DrainedSuccessIsLost() returns (gs: seq<Gate>, ms: seq<Move>)
    ensures IsGateRun(gs, ms) && |ms| == 8 && ExitsWell(gs, ms, 5, 10)
    ensures LaunchesCommand(gs[7], ms[7]) && gs[7].worker.r.build == AddWait
    ensures gs[8].worker.w.wg == 1
  {
    var ss, cs := DrainingRun();
    hide Step;
    gs := seq(9, i requires 0 <= i < 9 => Gate(ss[i], {}));
    ms := seq(8, i requires 0 <= i < 8 => Worker(cs[i]));
  }

  /** The runner's side of it. */
  lemma DrainingRun() returns (ss: seq<State>, cs: seq<Choice>)
    ensures IsRun(ss, cs) && |cs| == 8 && Opening(Gate(ss[0], {}))
    ensures cs[5] == Exit(10, true) && 10 in ss[5].w.alive
    ensures cs[7] == Launch(11, Ran) && Enabled(ss[7], cs[7]) && ss[7].r.build == AddWait && ss[8].w.wg == 1
  {
    var cfg := Config(LoopAttached, true, 1);
    ss, cs := Boots(cfg, false, AddWait, true, 1);
    var s4 := Booted(cfg, false, AddWait, true, 1);
    var s5 := Goto(s4, Drain);
    var s6 := s5.(w := s5.w.(alive := {}, pending := [Status(10, true)]));
    var s7 := State(cfg, s5.r.(pc := LoopHead), s5.w.(alive := {}, pending := []));
    DrainingSteps(s4, s5, s6, s7);
    hide Step;
    ss, cs := Extend(ss, cs, TakeRestart);
    ss, cs := Extend(ss, cs, Exit(10, true));
    ss, cs := Extend(ss, cs, TakeExit(0, true));
    ss, cs := Extend(ss, cs, Launch(11, Ran));
  }

  lemma DrainingSteps(s4: State, s5: State, s6: State, s7: State)
    requires s4 == Booted(Config(LoopAttached, true, 1), false, AddWait, true, 1) && s5 == Goto(s4, Drain)
    requires s6 == s5.(w := s5.w.(alive := {}, pending := [Status(10, true)]))
    requires s7 == State(s4.cfg, s5.r.(pc := LoopHead), s5.w.(alive := {}, pending := []))
    ensures Step(s4, TakeRestart) == s5 && Step(s5, Exit(10, true)) == s6 && Step(s6, TakeExit(0, true)) == s7
    ensures Enabled(s7, Launch(11, Ran)) && Step(s7, Launch(11, Ran)).w.wg == 1
  {
    assert {10} - {10} == {} && [] + [Status(10, true)] == [Status(10, true)];
    assert Without([Status(10, true)], 0) == [];
  }
}
