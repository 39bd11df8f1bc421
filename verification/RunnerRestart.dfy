/**
When the supervision loop starts a command again: never in mode once, and in the looping modes
only on request or when it is set up to restart on exit.
*/
module RunnerRestart {
  import opened Basics
  import opened Runner

  // ---------- running once ----------

  lemma OnceStep(s: State, c: Choice)
    requires Inv(s) && !Looping(s) && s.r.pc !in {LoopHead, Drain, Backoff}
    ensures !Looping(Step(s, c)) && Step(s, c).r.pc !in {LoopHead, Drain, Backoff}
    ensures Step(s, c).r.pc.Done? && !s.r.pc.Done? ==>
              Enabled(s, c) && s.r.pc == MainSelect && (c == TakeSignal || c.TakeExit?)
    ensures Step(s, c).r.pc.Done? && !s.r.pc.Done? && c == TakeSignal ==> Step(s, c).r.pc == Done(Signalled)
    ensures Step(s, c).r.pc.Done? && !s.r.pc.Done? && c.TakeExit? ==>
              Step(s, c).r.pc == Done(OnceResult(s.w.pending[c.i].ok, c.removed))
              && (Step(s, c).r.pc == Done(Stopped) ==> Step(s, c).w.file == None)
  {
    StepKeeps(s, c);
    if Enabled(s, c) && c.TakeExit? {
      LoneStatus(s, c.i, c.removed);
      hide Without;
    }
  }

  function OnceResult(ok: bool, removed: bool): Result {
    if !ok then CommandFailed else if removed then Stopped else RemoveFailed
  }

  lemma {:induction false} OnceAt(ss: seq<State>, cs: seq<Choice>, i: nat, j: nat, pid: nat)
    requires IsRun(ss, cs) && !Looping(ss[0]) && i < j < |ss| && Launches(ss, cs, i, pid)
    ensures !Looping(ss[j]) && ss[j].r.pc !in {LoopHead, Drain, Backoff}
    decreases j
  {
    hide Step;
    Fixed(ss, cs, i);
    if j == i + 1 {
      Fixed(ss, cs, j);
      LaunchStarts(ss[i], pid);
    } else {
      OnceAt(ss, cs, i, j - 1, pid);
      InvAt(ss, cs, j - 1);
      OnceStep(ss[j - 1], cs[j - 1]);
    }
  }

  /** Mode once, nothing watched: one launch at most. */
  lemma LaunchesOnce(ss: seq<State>, cs: seq<Choice>, i: nat, j: nat, pid: nat, pid': nat)
    requires IsRun(ss, cs) && !Looping(ss[0]) && i < j < |cs|
    ensures !(Launches(ss, cs, i, pid) && Launches(ss, cs, j, pid'))
  {
    if Launches(ss, cs, i, pid) {
      OnceAt(ss, cs, i, j, pid);
    }
  }

  lemma SoleCmd(ss: seq<State>, cs: seq<Choice>, i: nat, j: nat, pid: nat)
    requires IsRun(ss, cs) && !Looping(ss[0]) && i < j < |ss| && Launches(ss, cs, i, pid)
    ensures ss[j].r.cmd == pid
  {
    forall k, p | i < k < j
      ensures !Launches(ss, cs, k, p)
    {
      OnceAt(ss, cs, i, k, pid);
    }
    CmdIsLatest(ss, cs, i, j, pid);
  }

  /** Such a run ends by a signal, its command's status not looked at, or by that status: an error
      if the command failed or its pid file could not be removed, and the file gone otherwise. */
  lemma {:induction false} OnceOutcome(ss: seq<State>, cs: seq<Choice>, i: nat, j: nat, pid: nat) returns (k: nat)
    requires IsRun(ss, cs) && !Looping(ss[0]) && i < j < |ss| && Launches(ss, cs, i, pid) && ss[j].r.pc.Done?
    ensures i < k < j && (cs[k] == TakeSignal || Settles(ss[k], cs[k], pid))
    ensures cs[k] == TakeSignal ==> ss[j].r.pc == Done(Signalled) && ss[k].r.pc == MainSelect
    ensures cs[k] != TakeSignal ==> ss[j].r.pc == Done(OnceResult(ss[k].w.pending[cs[k].i].ok, cs[k].removed))
    ensures ss[j].r.pc == Done(Stopped) ==> ss[j].w.file == None
    decreases j
  {
    hide Step;
    LaunchStarts(ss[i], pid);
    var s, c := ss[j - 1], cs[j - 1];
    OnceAt(ss, cs, i, j - 1, pid);
    InvAt(ss, cs, j - 1);
    StepKeeps(s, c);
    if s.r.pc.Done? {
      DoneStays(s, c);
      k := OnceOutcome(ss, cs, i, j - 1, pid);
    } else {
      k := j - 1;
      OnceStep(s, c);
      SoleCmd(ss, cs, i, k, pid);
      if c.TakeExit? { LoneStatus(s, c.i, c.removed); }
    }
  }

  // ---------- looping, without the restart on exit ----------

  /** Neither set up to restart on exit nor with a hook that would do so. */
  ghost predicate Unassisted(s: State) { !s.r.success && !s.r.alwaysRestart }

  lemma UnassistedStep(s: State, c: Choice)
    requires Inv(s) && Unassisted(s)
    ensures Unassisted(Step(s, c))
    ensures s.r.pc !in {LoopHead, Drain, Backoff} && !(c == TakeRestart && Enabled(s, c)) ==>
              Step(s, c).r.pc !in {LoopHead, Drain, Backoff}
  {
    if Enabled(s, c) && c.TakeExit? {
      LoneStatus(s, c.i, c.removed);
      hide Without;
    }
  }

  lemma {:induction false} UnassistedAt(ss: seq<State>, cs: seq<Choice>, j: nat)
    requires IsRun(ss, cs) && Unassisted(ss[0]) && j < |ss|
    ensures Unassisted(ss[j])
    decreases j
  {
    hide Step;
    if j > 0 {
      UnassistedAt(ss, cs, j - 1);
      InvAt(ss, cs, j - 1);
      UnassistedStep(ss[j - 1], cs[j - 1]);
    }
  }

  lemma {:induction false} StaysPut(ss: seq<State>, cs: seq<Choice>, i: nat, j: nat, pid: nat)
    requires IsRun(ss, cs) && Unassisted(ss[0]) && i < j < |ss| && Launches(ss, cs, i, pid)
    ensures Restarted(ss, cs, i, j) || ss[j].r.pc !in {LoopHead, Drain, Backoff}
    decreases j
  {
    hide Step;
    hide Enabled;
    hide Restarted;
    if j == i + 1 {
      LaunchesStarts(ss, cs, i, pid);
    } else {
      StaysPut(ss, cs, i, j - 1, pid);
      UnassistedAt(ss, cs, j - 1);
      InvAt(ss, cs, j - 1);
      UnassistedStep(ss[j - 1], cs[j - 1]);
      RestartedLater(ss, cs, i, j - 1);
    }
  }

  lemma LaunchesStarts(ss: seq<State>, cs: seq<Choice>, i: nat, pid: nat)
    requires IsRun(ss, cs) && Launches(ss, cs, i, pid)
    ensures ss[i + 1].r.pc in {FirstBoot, Publish}
  {
    LaunchStarts(ss[i], pid);
  }

  /** In whatever mode: without `AlwaysRestartOnExit` and without a success hook, every launch but
      the first answers a restart request taken since the launch before. */
  lemma RestartOnlyOnRequest(ss: seq<State>, cs: seq<Choice>, i: nat, j: nat, pid: nat, pid': nat)
    requires IsRun(ss, cs) && Unassisted(ss[0]) && i < j
    requires Launches(ss, cs, i, pid) && Launches(ss, cs, j, pid')
    ensures Restarted(ss, cs, i, j)
  {
    StaysPut(ss, cs, i, j, pid);
  }

  // ---------- a failure in a looping mode ----------

  function After(s: State, cs: seq<Choice>): State
    decreases |cs|
  {
    if cs == [] then s else After(Step(s, cs[0]), cs[1..])
  }

  /** After the choices `cs` the runner can launch `pid`. */
  ghost predicate LaunchableBy(s: State, cs: seq<Choice>, pid: nat) {
    Enabled(After(s, cs), Launch(pid, Ran))
  }

  ghost predicate CanLaunch(s: State) {
    exists cs: seq<Choice>, pid: nat :: LaunchableBy(s, cs, pid)
  }

  lemma {:induction false} DoneForever(s: State, cs: seq<Choice>)
    requires s.r.pc.Done?
    ensures After(s, cs).r.pc == s.r.pc
    decreases |cs|
  {
    hide Step;
    if cs != [] {
      StepKeeps(s, cs[0]);
      DoneForever(Step(s, cs[0]), cs[1..]);
    }
  }

  lemma {:induction false} FreshPid(used: set<nat>) returns (pid: nat)
    ensures forall p :: p in used ==> p < pid
    decreases used
  {
    if used == {} {
      pid := 0;
    } else {
      var p :| p in used;
      var q := FreshPid(used - {p});
      pid := if p < q then q else p + 1;
      assert forall x :: x in used ==> x == p || x in used - {p};
    }
  }

  /** The main select acts on a failing exit status. */
  ghost predicate FailsInMain(s: State, c: Choice) {
    c.TakeExit? && Enabled(s, c) && s.r.pc == MainSelect && !s.w.pending[c.i].ok
  }

  /** In the looping modes a failing command is ever followed by another exactly when
      `AlwaysRestartOnExit` is set at that moment; otherwise the run has stopped. */
  lemma FailureRestartsIff(s: State, c: Choice)
    requires Inv(s) && Looping(s) && FailsInMain(s, c)
    ensures CanLaunch(Step(s, c)) <==> s.r.alwaysRestart
    ensures !s.r.alwaysRestart ==> Step(s, c).r.pc == Done(Stopped)
  {
    var t := Step(s, c);
    if s.r.alwaysRestart {
      FailureWaits(s, c);
      InvStep(s, c);
      RestartAfterBackoff(t);
    } else {
      assert t.r.pc == Done(Stopped);
      forall cs: seq<Choice>, pid: nat
        ensures !LaunchableBy(t, cs, pid)
      {
        DoneForever(t, cs);
      }
    }
  }

  lemma RestartAfterBackoff(t: State)
    requires Inv(t) && t.r.pc == Backoff && t.r.timer == Some(t.w.now + BACKOFF)
    ensures CanLaunch(t)
  {
    var t1 := Step(t, Pass(BACKOFF));
    var t2 := Step(t1, TakeTimer);
    var cs := [Pass(BACKOFF), TakeTimer];
    assert cs[1..] == [TakeTimer] && cs[1..][1..] == [];
    assert After(t, cs) == After(t1, [TakeTimer]) == After(t2, []) == t2;
    var used := t.w.children + t.w.others + {t.cfg.self, 0} + (if t.w.file.Some? then {t.w.file.value} else {});
    var pid := FreshPid(used);
    assert pid !in used;
    assert t2.r.pc == LoopHead && t2.w == t.w.(now := t.w.now + BACKOFF) && t2.cfg == t.cfg;
    assert LaunchableBy(t, cs, pid);
  }

  /** The comments on the looping modes promise a restart after an error.  Here an attached command
      fails after first boot and the run stops, with nothing that could start another. */
  lemma LoopingFailureStops() returns (ss: seq<State>, cs: seq<Choice>)
    ensures IsRun(ss, cs) && |cs| == 6 && ss[0].cfg.mode == LoopAttached && Unassisted(ss[0])
    ensures Launches(ss, cs, 0, 10) && Exits(ss, cs, 4, Status(10, false)) && !ss[4].r.firstBoot
    ensures ss[6].r.pc == Done(Stopped) && !CanLaunch(ss[6])
  {
    var cfg := Config(LoopAttached, false, 1);
    ss, cs := Boots(cfg, false, Plain, false, 0);
    var s4 := Booted(cfg, false, Plain, false, 0);
    var s5 := s4.(w := s4.w.(alive := {}, pending := [Status(10, false)]));
    assert Step(s4, Exit(10, false)) == s5 by {
      assert {10} - {10} == {} && [] + [Status(10, false)] == [Status(10, false)];
    }
    assert FailsInMain(s5, TakeExit(0, true));
    hide Step;
    ss, cs := Extend(ss, cs, Exit(10, false));
    ss, cs := Extend(ss, cs, TakeExit(0, true));
    InvAt(ss, cs, 5);
    FailureRestartsIff(ss[5], cs[5]);
  }
}
