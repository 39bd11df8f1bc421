/**
First boot: what the two-second relief of the supervision loop proves about a command, and what
it does not.
*/
module RunnerBoot {
  import opened Basics
  import opened Runner

  /** The relief timer is still running, or it has run out, or the command has exited well. */
  ghost predicate Proving(s: State, due: nat) {
    || s.r.pc.Done?
    || !s.r.firstBoot
    || (s.r.pc == FirstBoot && s.r.timer == Some(due))
    || (s.r.pc == Publish && (s.w.now >= due || (|s.w.pending| == 1 && s.w.pending[0].ok)))
  }

  lemma ProvingStep(s: State, c: Choice, due: nat)
    requires Inv(s) && Proving(s, due)
    ensures Proving(Step(s, c), due)
  {
    StepKeeps(s, c);
    if Enabled(s, c) && c.TakeExit? && s.r.firstBoot && !s.r.pc.Done? {
      LoneStatus(s, c.i, c.removed);
      hide Without;
    }
  }

  lemma {:induction false} ProvingAt(ss: seq<State>, cs: seq<Choice>, i: nat, j: nat, pid: nat)
    requires IsRun(ss, cs) && i < j < |ss| && Launches(ss, cs, i, pid) && ss[i].r.firstBoot
    ensures Proving(ss[j], ss[i].w.now + RELIEF)
    decreases j
  {
    hide Step;
    if j == i + 1 {
      LaunchStarts(ss[i], pid);
    } else {
      ProvingAt(ss, cs, i, j - 1, pid);
      InvAt(ss, cs, j - 1);
      ProvingStep(ss[j - 1], cs[j - 1], ss[i].w.now + RELIEF);
    }
  }

  /** First boot is passed by a command that has exited successfully, or two seconds after its
      launch: then it is still alive, or it has failed and nobody has looked yet. */
  lemma FirstBootPassed(ss: seq<State>, cs: seq<Choice>, i: nat, j: nat, pid: nat)
    requires IsRun(ss, cs) && i < j < |cs| && Launches(ss, cs, i, pid) && ss[i].r.firstBoot
    requires ss[j].r.firstBoot && Writes(ss[j], cs[j])
    ensures || ss[j].w.pending == [Status(pid, true)]
            || (&& ss[j].w.now >= ss[i].w.now + RELIEF
                && (ss[j].w.alive == {pid} || ss[j].w.pending == [Status(pid, false)]))
  {
    ProvingAt(ss, cs, i, j, pid);
    InvAt(ss, cs, j);
    OnlyFirstLaunch(ss, cs, i, j, pid);
    var p := ss[j].w.pending;
    if |p| == 1 { assert p == [p[0]] && p[0] == Status(p[0].pid, p[0].ok); }
  }

  lemma {:induction false} OnlyFirstLaunch(ss: seq<State>, cs: seq<Choice>, i: nat, j: nat, pid: nat)
    requires IsRun(ss, cs) && i < j < |ss| && Launches(ss, cs, i, pid) && ss[i].r.firstBoot && ss[j].r.firstBoot
    ensures ss[j].r.cmd == pid && ss[j].r.pc != LoopHead
    decreases j
  {
    hide Step;
    if j == i + 1 {
      LaunchStarts(ss[i], pid);
    } else {
      StepKeeps(ss[j - 1], cs[j - 1]);
      OnlyFirstLaunch(ss, cs, i, j - 1, pid);
      InvAt(ss, cs, j - 1);
      BootStep(ss[j - 1], cs[j - 1]);
    }
  }

  /** Whoever is past the loop head in first boot has launched its command. */
  lemma {:induction false} FirstLaunch(ss: seq<State>, cs: seq<Choice>, j: nat) returns (i: nat)
    requires IsRun(ss, cs) && j < |ss| && ss[j].r.firstBoot && ss[j].r.pc in {FirstBoot, Publish}
    ensures i < j && ss[i].r.firstBoot && Launches(ss, cs, i, ss[j].r.cmd)
    decreases j
  {
    var s, c := ss[j - 1], cs[j - 1];
    InvAt(ss, cs, j - 1);
    StepKeeps(s, c);
    EntersBoot(s, c);
    hide Step;
    if s.r.pc == LoopHead {
      i := j - 1;
    } else {
      i := FirstLaunch(ss, cs, j - 1);
    }
  }

  lemma EntersBoot(s: State, c: Choice)
    requires Inv(s)
    ensures var t := Step(s, c);
            t.r.firstBoot && t.r.pc in {FirstBoot, Publish} ==>
              || (s.r.pc == LoopHead && c == Launch(t.r.cmd, Ran) && Enabled(s, c))
              || (s.r.pc in {FirstBoot, Publish} && t.r.cmd == s.r.cmd)
  {
    StepKeeps(s, c);
    if Enabled(s, c) && c.TakeExit? {
      LoneStatus(s, c.i, c.removed);
      hide Without;
    }
  }

  lemma BootStep(s: State, c: Choice)
    requires Inv(s) && s.r.firstBoot && s.r.pc != LoopHead
    ensures Step(s, c).r.cmd == s.r.cmd && Step(s, c).r.pc != LoopHead
  {
    StepKeeps(s, c);
    if Enabled(s, c) && c.TakeExit? {
      LoneStatus(s, c.i, c.removed);
      hide Without;
    }
  }

  // ---------- a failure within the two seconds ----------

  /** While the command lives and its two seconds are not over, the runner is in the first select. */
  ghost predicate Watching(s: State, pid: nat, due: nat) {
    pid in s.w.alive && s.w.now < due ==>
      s.r.pc == FirstBoot && s.r.firstBoot && s.r.cmd == pid && s.r.timer == Some(due)
  }

  lemma WatchingStep(s: State, c: Choice, pid: nat, due: nat)
    requires Inv(s) && Watching(s, pid, due) && pid in s.w.children
    ensures Watching(Step(s, c), pid, due)
  {
    StepKeeps(s, c);
    FlightStep(s, c, pid);
    if Enabled(s, c) && c.TakeExit? {
      LoneStatus(s, c.i, c.removed);
      TakenStatus(s, c);
    }
  }

  lemma {:induction false} WatchingAt(ss: seq<State>, cs: seq<Choice>, i: nat, j: nat, pid: nat)
    requires IsRun(ss, cs) && i < j < |ss| && Launches(ss, cs, i, pid) && ss[i].r.firstBoot
    ensures Watching(ss[j], pid, ss[i].w.now + RELIEF) && pid in ss[j].w.children
    decreases j
  {
    hide Step;
    if j == i + 1 {
      LaunchStarts(ss[i], pid);
    } else {
      WatchingAt(ss, cs, i, j - 1, pid);
      InvAt(ss, cs, j - 1);
      StepKeeps(ss[j - 1], cs[j - 1]);
      WatchingStep(ss[j - 1], cs[j - 1], pid, ss[i].w.now + RELIEF);
    }
  }

  /** The timer case of the first select is taken although a failing status is ready too. */
  ghost predicate TimerWins(s: State, c: Choice, pid: nat) {
    c == TakeTimer && Enabled(s, c) && s.r.pc == FirstBoot && s.w.pending == [Status(pid, false)]
  }

  ghost predicate TimerWon(ss: seq<State>, cs: seq<Choice>, k: nat, j: nat, pid: nat)
    requires |ss| == |cs| + 1 && j <= |cs|
  {
    exists m :: k < m < j && TimerWins(ss[m], cs[m], pid)
  }

  lemma TimerWonLater(ss: seq<State>, cs: seq<Choice>, k: nat, j: nat, pid: nat)
    requires |ss| == |cs| + 1 && k < j < |cs|
    ensures TimerWon(ss, cs, k, j + 1, pid) <==> TimerWon(ss, cs, k, j, pid) || TimerWins(ss[j], cs[j], pid)
  {
    hide TimerWins;
  }

  /** A failing status leaves the first select by the exit case, which ends the run, or by the timer. */
  lemma RaceStep(s: State, c: Choice, pid: nat)
    requires Inv(s)
    ensures s.r.pc == FirstBoot && s.w.pending == [Status(pid, false)] ==>
              var t := Step(s, c);
              || (t.r.pc == FirstBoot && t.w.pending == s.w.pending && !TimerWins(s, c, pid))
              || (t.r.pc == Done(FailedEarly) && !TimerWins(s, c, pid))
              || (t.r.pc == Publish && TimerWins(s, c, pid))
    ensures s.r.pc != FirstBoot ==> !TimerWins(s, c, pid)
    ensures s.r.pc == Done(FailedEarly) ==> Step(s, c).r.pc == s.r.pc
    ensures s.w.children != {} && s.r.pc !in {FirstBoot, Done(FailedEarly)} ==>
              Step(s, c).r.pc !in {FirstBoot, Done(FailedEarly)}
  {
    StepKeeps(s, c);
    if Enabled(s, c) && c.TakeExit? {
      LoneStatus(s, c.i, c.removed);
      TakenStatus(s, c);
    }
  }

  lemma ExitKeepsControl(s: State, c: Choice)
    requires c.Exit?
    ensures Step(s, c).r == s.r
  {
  }

  /**
  A command that fails within its two seconds is let through exactly when the timer case of the
  first select is taken while the failing status is ready; otherwise the run ends as failed early,
  or still waits.
  */
  lemma {:induction false} EarlyFailurePassesIff(ss: seq<State>, cs: seq<Choice>, i: nat, k: nat, j: nat, pid: nat)
    requires IsRun(ss, cs) && i < k < j < |ss| && Launches(ss, cs, i, pid) && ss[i].r.firstBoot
    requires Exits(ss, cs, k, Status(pid, false)) && ss[k].w.now < ss[i].w.now + RELIEF
    ensures TimerWon(ss, cs, k, j, pid) <==> ss[j].r.pc !in {FirstBoot, Done(FailedEarly)}
    ensures ss[j].r.pc == FirstBoot ==> ss[j].w.pending == [Status(pid, false)]
    decreases j
  {
    hide Step;
    hide TimerWins;
    WatchingAt(ss, cs, i, j - 1, pid);
    InvAt(ss, cs, j - 1);
    if j == k + 1 {
      StatusStep(ss[k], cs[k], Status(pid, false));
      ExitKeepsControl(ss[k], cs[k]);
    } else {
      hide TimerWon;
      EarlyFailurePassesIff(ss, cs, i, k, j - 1, pid);
      RaceStep(ss[j - 1], cs[j - 1], pid);
      TimerWonLater(ss, cs, k, j - 1, pid);
    }
  }

  /** Such a run, in either looping mode: the command fails at once, nobody looks for two seconds,
      the timer case is taken, and first boot is passed with the command dead. */
  lemma FailureLetThrough(cfg: Config) returns (ss: seq<State>, cs: seq<Choice>)
    requires cfg.mode != Once && cfg.self == 1
    ensures IsRun(ss, cs) && ss[0].cfg == cfg && ss[0].r.firstBoot && ss[0].w.now == 0
    ensures cs == [Launch(10, Ran), Exit(10, false), Pass(RELIEF), TakeTimer, WritePid(true)]
    ensures Launches(ss, cs, 0, 10) && Exits(ss, cs, 1, Status(10, false)) && ss[1].w.now == 0
    ensures Writes(ss[4], cs[4]) && ss[4].r.firstBoot && ss[4].w.pending == [Status(10, false)]
    ensures forall i :: 1 <= i <= 5 ==> !ss[i].r.pc.Done?
    ensures ss[5].r.pc == MainSelect && ss[5].w.file.Some? && ss[5].w.alive == {}
  {
    var r := Control(LoopHead, true, false, Plain, false, 0, None);
    var s0 := State(cfg, r, World(0, {}, {}, [], false, {}, None, 0));
    var r1 := Control(FirstBoot, true, false, Plain, false, 10, Some(RELIEF));
    var s1 := State(cfg, r1, World(0, {10}, {10}, [], false, {}, None, 0));
    var failed := World(0, {10}, {}, [Status(10, false)], false, {}, None, 0);
    var s2 := State(cfg, r1, failed);
    var s3 := State(cfg, r1, failed.(now := RELIEF));
    var s4 := State(cfg, r1.(pc := Publish, timer := None), s3.w);
    LetThroughSteps(s0, s1, s2, s3, s4);
    hide Step;
    ss, cs := Extend([s0], [], Launch(10, Ran));
    ss, cs := Extend(ss, cs, Exit(10, false));
    ss, cs := Extend(ss, cs, Pass(RELIEF));
    ss, cs := Extend(ss, cs, TakeTimer);
    ss, cs := Extend(ss, cs, WritePid(true));
  }

  lemma LetThroughSteps(s0: State, s1: State, s2: State, s3: State, s4: State)
    requires s0.cfg.mode != Once && s0.cfg.self == 1
    requires s0.r == Control(LoopHead, true, false, Plain, false, 0, None)
    requires s0.w == World(0, {}, {}, [], false, {}, None, 0)
    requires s1.cfg == s0.cfg && s1.r == Control(FirstBoot, true, false, Plain, false, 10, Some(RELIEF))
    requires s1.w == World(0, {10}, {10}, [], false, {}, None, 0)
    requires s2 == s1.(w := World(0, {10}, {}, [Status(10, false)], false, {}, None, 0))
    requires s3 == s2.(w := s2.w.(now := RELIEF))
    requires s4 == s3.(r := s3.r.(pc := Publish, timer := None))
    ensures Step(s0, Launch(10, Ran)) == s1 && Step(s1, Exit(10, false)) == s2 && Step(s2, Pass(RELIEF)) == s3
    ensures Step(s3, TakeTimer) == s4
    ensures Writes(s4, WritePid(true)) && Step(s4, WritePid(true)).r.pc == MainSelect
    ensures Step(s4, WritePid(true)).w.file.Some? && Step(s4, WritePid(true)).w.alive == {}
  {
    assert {} + {10} == {10} && {10} - {10} == {} && [] + [Status(10, false)] == [Status(10, false)];
  }
}
