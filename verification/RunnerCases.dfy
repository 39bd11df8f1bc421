/**
What each case of the supervision loop's selects does, and when it is ready, told by the history
of the run: which signals were delivered, how commands exited, what was written before.
*/
module RunnerCases {
  import opened Basics
  import opened Runner
  import B = RunnerBoot

  /** Step `k` takes the case `c`. */
  ghost predicate Takes(ss: seq<State>, cs: seq<Choice>, k: nat, c: Choice)
    requires |ss| == |cs| + 1
  {
    k < |cs| && cs[k] == c && Enabled(ss[k], c)
  }

  // ---------- the end of a run ----------

  lemma {:induction false} OverForGood(ss: seq<State>, cs: seq<Choice>, i: nat, j: nat)
    requires IsRun(ss, cs) && i <= j < |ss| && ss[i].r.pc.Done?
    ensures ss[j].r.pc == ss[i].r.pc && ss[j].w.file == ss[i].w.file && ss[j].w.children == ss[i].w.children
    decreases j
  {
    if i < j {
      OverForGood(ss, cs, i, j - 1);
      DoneKeeps(ss[j - 1], cs[j - 1]);
    }
  }

  lemma DoneKeeps(s: State, c: Choice)
    requires s.r.pc.Done?
    ensures Step(s, c).r == s.r && Step(s, c).w.file == s.w.file && Step(s, c).w.children == s.w.children
  {
  }

  /** The run is over from step `k` on, with this result: no command is launched and the pid file
      is not touched any more. */
  ghost predicate EndsWith(ss: seq<State>, cs: seq<Choice>, k: nat, res: Result)
    requires |ss| == |cs| + 1 && k < |cs|
  {
    && (forall j :: k < j < |ss| ==> ss[j].r.pc == Done(res) && ss[j].w.file == ss[k + 1].w.file)
    && (forall j, pid :: k < j < |cs| ==> !Launches(ss, cs, j, pid))
  }

  lemma EndsHere(ss: seq<State>, cs: seq<Choice>, k: nat, res: Result)
    requires IsRun(ss, cs) && k < |cs| && ss[k + 1].r.pc == Done(res)
    ensures EndsWith(ss, cs, k, res)
  {
    forall j | k < j < |ss|
      ensures ss[j].r.pc == Done(res) && ss[j].w.file == ss[k + 1].w.file
    {
      OverForGood(ss, cs, k + 1, j);
    }
  }

  /** Each case belongs to its select. */
  lemma CaseAt(ss: seq<State>, cs: seq<Choice>, k: nat, c: Choice)
    requires IsRun(ss, cs) && Takes(ss, cs, k, c)
    ensures ss[k].r.pc == LoopHead ==> c.Launch? || IsEnvironments(c)
    ensures ss[k].r.pc == FirstBoot ==> c.TakeExit? || c == TakeTimer || IsEnvironments(c)
    ensures ss[k].r.pc == Publish ==> c.WritePid? || IsEnvironments(c)
    ensures ss[k].r.pc == MainSelect ==> c.TakeExit? || c == TakeSignal || c == TakeRestart || IsEnvironments(c)
    ensures ss[k].r.pc == Drain ==> c.TakeExit? || IsEnvironments(c)
    ensures ss[k].r.pc == Backoff ==> c == TakeTimer || c == TakeSignal || c == TakeRestart || IsEnvironments(c)
    ensures ss[k].r.pc.Done? ==> IsEnvironments(c)
    ensures c.TakeExit? ==> c.i == 0
  {
    InvAt(ss, cs, k);
    if c.TakeExit? { LoneStatus(ss[k], c.i, c.removed); }
  }

  predicate IsEnvironments(c: Choice) { c.Pass? || c.Exit? || c.Deliver? || c.OthersRun? }

  // ---------- signals ----------

  /** In every mode a signal taken ends the run: with the outcome of forwarding it to the command
      in the main select, quietly in the backoff. */
  lemma SignalEnds(ss: seq<State>, cs: seq<Choice>, k: nat)
    requires IsRun(ss, cs) && Takes(ss, cs, k, TakeSignal)
    ensures ss[k].r.pc == MainSelect || ss[k].r.pc == Backoff
    ensures EndsWith(ss, cs, k, if ss[k].r.pc == MainSelect then Signalled else Stopped)
    ensures ss[k + 1].w.file == ss[k].w.file && ss[k + 1].w.alive == ss[k].w.alive
  {
    EndsHere(ss, cs, k, if ss[k].r.pc == MainSelect then Signalled else Stopped);
  }

  ghost predicate Delivered(ss: seq<State>, cs: seq<Choice>, j: nat)
    requires |ss| == |cs| + 1 && j <= |cs|
  {
    ss[0].w.signal || exists d :: 0 <= d < j && cs[d] == Deliver
  }

  lemma SignalStep(s: State, c: Choice)
    ensures Step(s, c).r.pc.Done? || (Step(s, c).w.signal <==> s.w.signal || c == Deliver)
    ensures s.r.pc.Done? ==> Step(s, c).r.pc.Done?
  {
    if c.TakeExit? && Enabled(s, c) { StepKeeps(s, c); }
  }

  /** Once delivered, a signal can be taken wherever the runner waits for one, and only then. */
  lemma {:induction false} SignalReady(ss: seq<State>, cs: seq<Choice>, j: nat)
    requires IsRun(ss, cs) && j <= |cs| && !ss[j].r.pc.Done?
    ensures ss[j].w.signal <==> Delivered(ss, cs, j)
    ensures ss[j].r.pc in {MainSelect, Backoff} ==> (Enabled(ss[j], TakeSignal) <==> Delivered(ss, cs, j))
    decreases j
  {
    if j > 0 {
      SignalStep(ss[j - 1], cs[j - 1]);
      SignalReady(ss, cs, j - 1);
      assert Delivered(ss, cs, j) <==> Delivered(ss, cs, j - 1) || cs[j - 1] == Deliver;
      hide Step;
    }
  }

  // ---------- launching ----------

  ghost predicate WroteBefore(ss: seq<State>, cs: seq<Choice>, j: nat)
    requires |ss| == |cs| + 1 && j <= |cs|
  {
    exists m :: 0 <= m < j && Writes(ss[m], cs[m])
  }

  /** First boot lasts, in the looping modes, until the pid file is first written. */
  lemma {:induction false} FirstBootIff(ss: seq<State>, cs: seq<Choice>, j: nat)
    requires IsRun(ss, cs) && j <= |cs|
    ensures ss[j].r.firstBoot <==> ss[0].cfg.mode != Once && !WroteBefore(ss, cs, j)
    decreases j
  {
    hide Step;
    hide Writes;
    if j > 0 {
      FirstBootIff(ss, cs, j - 1);
      FileStep(ss[j - 1], cs[j - 1]);
      StepKeeps(ss[j - 1], cs[j - 1]);
      assert WroteBefore(ss, cs, j) <==> WroteBefore(ss, cs, j - 1) || Writes(ss[j - 1], cs[j - 1]);
    }
  }

  /** At the loop head any pid not in use can be launched.  A command that cannot be built or
      started ends the run with that error; one that starts is alone, and before the first pid
      file of a looping mode it is given its two seconds. */
  lemma LaunchDecides(ss: seq<State>, cs: seq<Choice>, k: nat, pid: nat, outcome: Launched)
    requires IsRun(ss, cs) && k < |cs| && ss[k].r.pc == LoopHead && cs[k] == Launch(pid, outcome)
    requires pid != 0 && pid != ss[0].cfg.self && ss[k].w.file != Some(pid)
    requires pid !in ss[k].w.children && pid !in ss[k].w.others
    ensures outcome == NotBuilt ==> EndsWith(ss, cs, k, BuildFailed) && ss[k + 1].w == ss[k].w
    ensures outcome == NotStarted ==> EndsWith(ss, cs, k, StartFailed) && ss[k + 1].w == ss[k].w
    ensures outcome == Ran ==> ss[k + 1].w == ss[k].w.(children := ss[k].w.children + {pid}, alive := {pid})
    ensures outcome == Ran && ss[0].cfg.mode != Once && !WroteBefore(ss, cs, k) ==>
              ss[k + 1].r.pc == FirstBoot && ss[k + 1].r.timer == Some(ss[k].w.now + 2000)
    ensures outcome == Ran && (ss[0].cfg.mode == Once || WroteBefore(ss, cs, k)) ==> ss[k + 1].r.pc == Publish
  {
    InvAt(ss, cs, k);
    Fixed(ss, cs, k);
    FirstBootIff(ss, cs, k);
    hide WroteBefore;
    assert {} + {pid} == {pid};
    if outcome == NotBuilt { EndsHere(ss, cs, k, BuildFailed); }
    if outcome == NotStarted { EndsHere(ss, cs, k, StartFailed); }
  }

  // ---------- first boot ----------

  /** In the first select a successful status goes back to be received again and the pid file is
      next; a failing one ends the run as failed early. */
  lemma BootExitDecides(ss: seq<State>, cs: seq<Choice>, k: nat, removed: bool) returns (e: nat, ok: bool)
    requires IsRun(ss, cs) && Takes(ss, cs, k, TakeExit(0, removed)) && ss[k].r.pc == FirstBoot
    ensures e < k && Exits(ss, cs, e, Status(ss[k].r.cmd, ok))
    ensures ok ==> ss[k + 1].r.pc == Publish && ss[k + 1].w == ss[k].w
    ensures !ok ==> EndsWith(ss, cs, k, FailedEarly)
  {
    e, ok := WhoExited(ss, cs, k, removed);
    LoneStatus(ss[k], 0, removed);
    hide Without;
    if !ok { EndsHere(ss, cs, k, FailedEarly); }
  }

  /** The status received is that of the current command's exit. */
  lemma WhoExited(ss: seq<State>, cs: seq<Choice>, k: nat, removed: bool) returns (e: nat, ok: bool)
    requires IsRun(ss, cs) && Takes(ss, cs, k, TakeExit(0, removed))
    ensures e < k && Exits(ss, cs, e, Status(ss[k].r.cmd, ok))
    ensures ss[k].w.pending == [Status(ss[k].r.cmd, ok)] && Inv(ss[k])
  {
    InvAt(ss, cs, k);
    LoneStatus(ss[k], 0, removed);
    var st := ss[k].w.pending[0];
    ok := st.ok;
    assert ss[k].w.pending == [st] && st == Status(ss[k].r.cmd, ok);
    e := StatusFrom(ss, cs, k, st);
  }

  /** The timer case of the first select is ready from two seconds after the launch on, and leads
      to the pid file. */
  lemma ReliefReady(ss: seq<State>, cs: seq<Choice>, i: nat, j: nat, pid: nat)
    requires IsRun(ss, cs) && i < j <= |cs| && Launches(ss, cs, i, pid) && ss[i].r.firstBoot
    requires ss[j].r.pc == FirstBoot
    ensures Enabled(ss[j], TakeTimer) <==> ss[j].w.now >= ss[i].w.now + 2000
    ensures Takes(ss, cs, j, TakeTimer) ==> ss[j + 1].r.pc == Publish && ss[j + 1].w == ss[j].w
  {
    InvAt(ss, cs, j);
    B.ProvingAt(ss, cs, i, j, pid);
  }

  // ---------- the pid file ----------

  /** The pid is that of the runner itself, of a living command, or of another process. */
  ghost predicate InUse(s: State, pid: nat) {
    pid != 0 && (pid == s.cfg.self || pid in s.w.alive || pid in s.w.others)
  }

  /** Whether the file must be written: by an attached runner always, by a detached one the first
      time, never in mode once. */
  ghost predicate MustWrite(ss: seq<State>, cs: seq<Choice>, k: nat)
    requires |ss| == |cs| + 1 && k <= |cs|
  {
    ss[0].cfg.mode == LoopAttached || (ss[0].cfg.mode == LoopDetached && !WroteBefore(ss, cs, k))
  }

  /** A file that names a process in use is left alone and ends the run, and so does a write that
      fails; otherwise the runner goes on to its main select, the file naming the command in
      attached mode and the runner itself in detached mode. */
  lemma PublishDecides(ss: seq<State>, cs: seq<Choice>, k: nat, written: bool)
    requires IsRun(ss, cs) && k < |cs| && ss[k].r.pc == Publish && cs[k] == WritePid(written)
    ensures var file := ss[k].w.file;
            var held := file.Some? && InUse(ss[k], file.value);
            && (MustWrite(ss, cs, k) && held ==> EndsWith(ss, cs, k, PidRefused) && ss[k + 1].w == ss[k].w)
            && (MustWrite(ss, cs, k) && !held && !written ==>
                  EndsWith(ss, cs, k, PidWriteFailed) && ss[k + 1].w == ss[k].w)
            && (MustWrite(ss, cs, k) && !held && written ==>
                  && ss[k + 1].r.pc == MainSelect
                  && ss[k + 1].w == ss[k].w.(file := Some(if ss[0].cfg.mode == LoopAttached
                                                          then ss[k].r.cmd else ss[0].cfg.self)))
            && (!MustWrite(ss, cs, k) ==> ss[k + 1].r.pc == MainSelect && ss[k + 1].w == ss[k].w)
  {
    Fixed(ss, cs, k);
    FirstBootIff(ss, cs, k);
    hide WroteBefore;
    hide EndsWith;
    if ss[k + 1].r.pc.Done? { EndsHere(ss, cs, k, ss[k + 1].r.pc.result); }
  }

  // ---------- the main select ----------

  /** Wherever the runner waits for its command, an exit not received yet can be received. */
  lemma ExitReady(ss: seq<State>, cs: seq<Choice>, e: nat, j: nat, pid: nat, ok: bool, removed: bool)
    requires IsRun(ss, cs) && e < j <= |cs| && Exits(ss, cs, e, Status(pid, ok))
    requires forall m :: e < m < j ==> !Settles(ss[m], cs[m], pid)
    requires ss[j].r.pc in {FirstBoot, MainSelect, Drain}
    ensures Enabled(ss[j], TakeExit(0, removed)) && ss[j].w.pending[0] == Status(pid, ok)
  {
    if ss[j].w.pending != [Status(pid, ok)] {
      var m := SettledAs(ss, cs, e, j, Status(pid, ok));
    }
  }

  /** The exit case of the main select, for every mode.  `auto` is the setting to restart on exit,
      or the hook of a success that switches it on. */
  lemma ExitDecides(ss: seq<State>, cs: seq<Choice>, k: nat, removed: bool) returns (e: nat, ok: bool)
    requires IsRun(ss, cs) && Takes(ss, cs, k, TakeExit(0, removed)) && ss[k].r.pc == MainSelect
    ensures e < k && Exits(ss, cs, e, Status(ss[k].r.cmd, ok))
    ensures var loops := ss[0].cfg.mode != Once || ss[0].cfg.watched;
            var auto := ss[k].r.alwaysRestart || (ok && ss[k].r.success);
            && (!loops && !ok ==> EndsWith(ss, cs, k, CommandFailed))
            && (!loops && ok ==> EndsWith(ss, cs, k, if removed then Stopped else RemoveFailed))
            && (loops && !auto ==> EndsWith(ss, cs, k, Stopped))
            && (loops && auto && ok ==> ss[k + 1].r.pc == LoopHead)
            && (loops && auto && !ok ==>
                  ss[k + 1].r.pc == Backoff && ss[k + 1].r.timer == Some(ss[k].w.now + 5000))
            && ss[k + 1].w.file == if removed && (if loops then auto else ok) then None else ss[k].w.file
  {
    e, ok := WhoExited(ss, cs, k, removed);
    Fixed(ss, cs, k);
    hide EndsWith;
    ExitOutcome(ss[k], ok, removed);
    if ss[k + 1].r.pc.Done? { EndsHere(ss, cs, k, ss[k + 1].r.pc.result); }
    hide Step;
  }

  lemma ExitOutcome(s: State, ok: bool, removed: bool)
    requires s.r.pc == MainSelect && |s.w.pending| == 1 && s.w.pending[0].ok == ok
    ensures var t := Step(s, TakeExit(0, removed));
            var loops := s.cfg.mode != Once || s.cfg.watched;
            var auto := s.r.alwaysRestart || (ok && s.r.success);
            && (!loops && !ok ==> t.r.pc == Done(CommandFailed))
            && (!loops && ok ==> t.r.pc == Done(if removed then Stopped else RemoveFailed))
            && (loops && !auto ==> t.r.pc == Done(Stopped))
            && (loops && auto && ok ==> t.r.pc == LoopHead)
            && (loops && auto && !ok ==> t.r.pc == Backoff && t.r.timer == Some(s.w.now + 5000))
            && t.w.file == if removed && (if loops then auto else ok) then None else s.w.file
  {
    hide Without;
  }

  /** A restart request can be taken exactly when something is watched.  In the main select the
      command's exit is awaited; in the backoff the next launch is due at once. */
  lemma RestartDecides(ss: seq<State>, cs: seq<Choice>, k: nat)
    requires IsRun(ss, cs) && k < |cs| && cs[k] == TakeRestart && ss[k].r.pc in {MainSelect, Backoff}
    ensures Enabled(ss[k], TakeRestart) <==> ss[0].cfg.watched
    ensures ss[0].cfg.watched ==>
              ss[k + 1].r.pc == (if ss[k].r.pc == MainSelect then Drain else LoopHead) && ss[k + 1].w == ss[k].w
  {
    Fixed(ss, cs, k);
  }

  /** The exit awaited for a restart is dropped: no hook, no result, no change of the pid file; the
      next launch is due. */
  lemma DrainDecides(ss: seq<State>, cs: seq<Choice>, k: nat, removed: bool)
    requires IsRun(ss, cs) && Takes(ss, cs, k, TakeExit(0, removed)) && ss[k].r.pc == Drain
    ensures ss[k + 1].r == ss[k].r.(pc := LoopHead)
    ensures ss[k + 1].w == ss[k].w.(pending := [])
  {
    InvAt(ss, cs, k);
    LoneStatus(ss[k], 0, removed);
    hide Without;
  }

  /** A restart request taken in the main select is answered: the runner waits for its command's
      exit and nothing else, drops the status, and is then due to launch. */
  lemma {:induction false} RestartAnswered(ss: seq<State>, cs: seq<Choice>, k: nat, j: nat)
    requires IsRun(ss, cs) && Takes(ss, cs, k, TakeRestart) && ss[k].r.pc == MainSelect && k < j <= |cs|
    requires forall m :: k < m < j ==> !Settles(ss[m], cs[m], ss[k].r.cmd)
    ensures ss[j].r == ss[k].r.(pc := Drain) && ss[j].w.file == ss[k].w.file
    ensures j < |cs| && Settles(ss[j], cs[j], ss[k].r.cmd) ==>
              ss[j + 1].r == ss[k].r.(pc := LoopHead) && ss[j + 1].w.file == ss[k].w.file
    decreases j
  {
    hide Step;
    hide Enabled;
    hide Settles;
    InvAt(ss, cs, j - 1);
    if j == k + 1 {
      StartsDraining(ss[k]);
    } else {
      RestartAnswered(ss, cs, k, j - 1);
      StillDraining(ss[j - 1], cs[j - 1]);
    }
    if j < |cs| && Settles(ss[j], cs[j], ss[k].r.cmd) {
      Drained(ss, cs, j, ss[k].r.cmd);
    }
  }

  lemma StartsDraining(s: State)
    requires Enabled(s, TakeRestart) && s.r.pc == MainSelect
    ensures Step(s, TakeRestart) == Goto(s, Drain)
  {
  }

  lemma Drained(ss: seq<State>, cs: seq<Choice>, j: nat, pid: nat)
    requires IsRun(ss, cs) && j < |cs| && Settles(ss[j], cs[j], pid) && ss[j].r.pc == Drain
    ensures ss[j + 1].r == ss[j].r.(pc := LoopHead) && ss[j + 1].w.file == ss[j].w.file
  {
    InvAt(ss, cs, j);
    LoneStatus(ss[j], cs[j].i, cs[j].removed);
    DrainDecides(ss, cs, j, cs[j].removed);
  }

  lemma StillDraining(s: State, c: Choice)
    requires Inv(s) && s.r.pc == Drain && !Settles(s, c, s.r.cmd)
    ensures Step(s, c).r == s.r && Step(s, c).w.file == s.w.file
  {
    if c.TakeExit? && Enabled(s, c) { LoneStatus(s, c.i, c.removed); }
  }

  /** The backoff's timer case is ready five seconds after the failure, and the next launch is due. */
  lemma BackoffReady(ss: seq<State>, cs: seq<Choice>, i: nat, j: nat)
    requires IsRun(ss, cs) && i < j <= |cs| && FailsAndRestarts(ss[i], cs[i])
    requires forall m :: i < m <= j ==> ss[m].r.pc == Backoff
    ensures Enabled(ss[j], TakeTimer) <==> ss[j].w.now >= ss[i].w.now + 5000
    ensures Takes(ss, cs, j, TakeTimer) ==> ss[j + 1].r.pc == LoopHead && ss[j + 1].w == ss[j].w
  {
    BackoffTimer(ss, cs, i, j);
  }

  lemma {:induction false} BackoffTimer(ss: seq<State>, cs: seq<Choice>, i: nat, j: nat)
    requires IsRun(ss, cs) && i < j < |ss| && FailsAndRestarts(ss[i], cs[i])
    requires forall m :: i < m <= j ==> ss[m].r.pc == Backoff
    ensures ss[j].r.timer == Some(ss[i].w.now + 5000)
    decreases j
  {
    if j == i + 1 {
      FailureWaits(ss[i], cs[i]);
    } else {
      BackoffTimer(ss, cs, i, j - 1);
      assert ss[j] == Step(ss[j - 1], cs[j - 1]);
    }
  }

  /** Without a success hook the settings of the runner stay as they were given. */
  lemma {:induction false} SettingsKept(ss: seq<State>, cs: seq<Choice>, j: nat)
    requires IsRun(ss, cs) && j < |ss| && !ss[0].r.success && ss[0].r.build != ResetRestart
    ensures ss[j].r.alwaysRestart == ss[0].r.alwaysRestart && !ss[j].r.success && ss[j].r.build == ss[0].r.build
    decreases j
  {
    if j > 0 {
      SettingsKept(ss, cs, j - 1);
      SettingsStep(ss[j - 1], cs[j - 1]);
    }
  }

  lemma SettingsStep(s: State, c: Choice)
    requires !s.r.success && s.r.build != ResetRestart
    ensures var t := Step(s, c).r; t.alwaysRestart == s.r.alwaysRestart && !t.success && t.build == s.r.build
  {
    hide Without;
  }

  /** The environment moves no variable of the runner, and not the pid file. */
  lemma EnvironmentOnly(s: State, c: Choice)
    requires IsEnvironments(c)
    ensures Step(s, c).r == s.r && Step(s, c).cfg == s.cfg && Step(s, c).w.file == s.w.file
    ensures c.Pass? ==> Step(s, c).w == s.w.(now := s.w.now + c.d)
  {
  }
}
