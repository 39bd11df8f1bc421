/**
Running a command as a daemon: the parent waits in `Background` while its respawned child runs
the supervision loop in detached mode and reports its progress.  The two machines are run
together here, the child's reports being made by the steps of its runner.
*/
module DetachedStart {
  import opened Basics
  import R = Runner
  import B = RunnerBoot
  import H = Handshake

  datatype System = System(r: R.State, h: H.State)

  /** A step of the child's runner, `sent` telling whether its report, or the signal it forwards,
      got through, or a step of the parent; the child may also be killed from outside. */
  datatype Move = Child(c: R.Choice, sent: bool) | Parent(p: H.Choice)

  ghost predicate PassesFirstBoot(s: R.State, c: R.Choice) {
    s.r.firstBoot && R.Writes(s, c)
  }

  /** The reports of the loop: "started" after the first start, UP once the pid file is there. */
  ghost function Reported(r: R.State, c: R.Choice, h: H.State, sent: bool): H.State {
    if c.Launch? && c.outcome == R.Ran && R.Enabled(r, c) && r.r.firstBoot then H.Step(h, H.Notify("started", sent))
    else if PassesFirstBoot(r, c) then H.Step(h, H.Notify(H.UP, sent))
    else h
  }

  /** The child process ends with its loop; a signal that could be forwarded is no error. */
  ghost function Ended(r: R.State, h: H.State, sent: bool): H.State {
    if r.r.pc.Done? then H.Step(h, H.Die(ExitCode(r.r.pc.result, sent))) else h
  }

  function ExitCode(res: R.Result, sent: bool): int {
    if res == R.Stopped || (res == R.Signalled && sent) then 0 else 1
  }

  ghost function Moved(s: System, m: Move): System {
    match m
    case Child(c, sent) =>
      if s.h.child.Exited? then s
      else
        var r := R.Step(s.r, c);
        System(r, Ended(r, Reported(s.r, c, s.h, sent), sent))
    case Parent(p) => if p.Notify? then s else s.(h := H.Step(s.h, p))
  }

  /** The child has reported "boot" before it enters the loop. */
  ghost predicate Started(s: System) {
    R.Init(s.r) && s.r.cfg.mode == R.LoopDetached && s.h == H.Step(H.START, H.Notify("boot", true))
  }

  ghost predicate IsRun(ss: seq<System>, ms: seq<Move>) {
    && |ss| == |ms| + 1 && Started(ss[0])
    && forall i :: 0 <= i < |ms| ==> ss[i + 1] == Moved(ss[i], ms[i])
  }

  // ---------- both machines run inside the system ----------

  ghost predicate Inv(s: System) {
    && R.Inv(s.r) && H.Inv(s.h) && s.r.cfg.mode == R.LoopDetached
    && (s.h.removed ==> !s.r.r.firstBoot)
    && (s.r.r.firstBoot ==> s.h.hasFile)
  }

  lemma InvStep(s: System, m: Move)
    requires Inv(s)
    ensures Inv(Moved(s, m))
    ensures Moved(s, m).h.removed && !s.h.removed ==> m.Child? && PassesFirstBoot(s.r, m.c)
    ensures Moved(s, m).r == s.r || (m.Child? && Moved(s, m).r == R.Step(s.r, m.c))
  {
    match m
    case Child(c, sent) =>
      R.InvStep(s.r, c);
      R.StepKeeps(s.r, c);
      R.FileStep(s.r, c);
      hide R.Step;
      hide R.Inv;
      ReportKeeps(s, c, sent);
    case Parent(p) =>
      H.InvStep(s.h, p);
      ParentKeeps(s.h, p);
      hide H.Step;
      hide R.Inv;
  }

  lemma ParentKeeps(h: H.State, c: H.Choice)
    ensures !c.Notify? ==> H.Step(h, c).hasFile == h.hasFile && H.Step(h, c).removed == h.removed
  {
  }

  lemma NotifyKeeps(h: H.State, report: string, sent: bool)
    requires H.Inv(h)
    ensures var h' := H.Step(h, H.Notify(report, sent));
            && H.Inv(h')
            && (report != H.UP ==> h'.hasFile == h.hasFile && h'.removed == h.removed)
  {
    H.InvStep(h, H.Notify(report, sent));
  }

  lemma ReportKeeps(s: System, c: R.Choice, sent: bool)
    requires H.Inv(s.h)
    ensures var r := R.Step(s.r, c);
            var h := Ended(r, Reported(s.r, c, s.h, sent), sent);
            && H.Inv(h)
            && (h.removed && !s.h.removed ==> PassesFirstBoot(s.r, c))
            && (s.h.removed ==> h.removed)
            && (!PassesFirstBoot(s.r, c) ==> h.hasFile == s.h.hasFile)
  {
    hide R.Step;
    hide H.Step;
    hide H.Inv;
    NotifyKeeps(s.h, "started", sent);
    NotifyKeeps(s.h, H.UP, sent);
    H.InvStep(s.h, H.Notify(H.UP, sent));
    var h1 := Reported(s.r, c, s.h, sent);
    if R.Step(s.r, c).r.pc.Done? {
      var status := ExitCode(R.Step(s.r, c).r.pc.result, sent);
      H.InvStep(h1, H.Die(status));
      ParentKeeps(h1, H.Die(status));
    }
  }

  lemma {:induction false} InvAt(ss: seq<System>, ms: seq<Move>, j: nat)
    requires IsRun(ss, ms) && j <= |ms|
    ensures Inv(ss[j])
    decreases j
  {
    hide Moved;
    if j == 0 {
      H.InvStep(H.START, H.Notify("boot", true));
    } else {
      InvAt(ss, ms, j - 1);
      InvStep(ss[j - 1], ms[j - 1]);
    }
  }

  /** What the runner does in a step of the system; a step of the parent lets no time pass. */
  ghost function RunnerChoice(s: System, m: Move): R.Choice {
    if m.Child? && s.h.child.Running? then m.c else R.Pass(0)
  }

  /** Seen from the child, a run of the system is a run of its runner, step for step. */
  lemma Project(ss: seq<System>, ms: seq<Move>) returns (rs: seq<R.State>, cs: seq<R.Choice>)
    requires IsRun(ss, ms)
    ensures R.IsRun(rs, cs) && |cs| == |ms|
    ensures forall i :: 0 <= i <= |ms| ==> rs[i] == ss[i].r
    ensures forall i :: 0 <= i < |ms| ==> cs[i] == RunnerChoice(ss[i], ms[i])
  {
    rs := seq(|ss|, i requires 0 <= i < |ss| => ss[i].r);
    cs := seq(|ms|, i requires 0 <= i < |ms| => RunnerChoice(ss[i], ms[i]));
    forall i | 0 <= i < |cs|
      ensures rs[i + 1] == R.Step(rs[i], cs[i])
    {
      assert ss[i + 1] == Moved(ss[i], ms[i]);
      Projected(ss[i], ms[i]);
    }
  }

  lemma Projected(s: System, m: Move)
    ensures Moved(s, m).r == R.Step(s.r, RunnerChoice(s, m))
  {
    hide Reported;
    hide Ended;
  }

  // ---------- theorems ----------

  /** Step `k` of the system passes first boot: the pid file is written and UP is reported. */
  ghost predicate Passes(ss: seq<System>, ms: seq<Move>, k: nat)
    requires |ss| == |ms| + 1
  {
    k < |ms| && ms[k].Child? && ss[k].h.child.Running? && PassesFirstBoot(ss[k].r, ms[k].c)
  }

  lemma {:induction false} RemovedByPassing(ss: seq<System>, ms: seq<Move>, j: nat) returns (k: nat)
    requires IsRun(ss, ms) && j <= |ms| && ss[j].h.removed
    ensures k < j && Passes(ss, ms, k)
    decreases j
  {
    hide Moved;
    hide PassesFirstBoot;
    if j == 0 {
      StartsPresent();
      assert false;
    }
    InvAt(ss, ms, j - 1);
    InvStep(ss[j - 1], ms[j - 1]);
    if ss[j - 1].h.removed {
      k := RemovedByPassing(ss, ms, j - 1);
    } else {
      k := j - 1;
      DeadDoNothing(ss[k], ms[k]);
    }
  }

  lemma StartsPresent()
    ensures !H.Step(H.START, H.Notify("boot", true)).removed
  {
  }

  lemma DeadDoNothing(s: System, m: Move)
    ensures m.Child? && s.h.child.Exited? ==> Moved(s, m) == s
  {
  }

  /**
  When the parent reports that the command went to the background, the child's runner has
  recorded itself in the pid file; by then the command had exited successfully, or two seconds
  had passed since its launch and it was alive, or had failed with nobody having looked.
  */
  lemma BackgroundMeansPassed(ss: seq<System>, ms: seq<Move>, j: nat) returns (i: nat, k: nat, pid: nat)
    requires IsRun(ss, ms) && j <= |ms| && ss[j].h.parent == H.Returned(H.WentToBackground)
    ensures i < k < j && Starts(ss, ms, i, pid) && Passes(ss, ms, k)
    ensures ss[k + 1].r.w.file == Some(ss[0].r.cfg.self)
    ensures || ss[k].r.w.pending == [R.Status(pid, true)]
            || (&& ss[k].r.w.now >= ss[i].r.w.now + R.RELIEF
                && (ss[k].r.w.alive == {pid} || ss[k].r.w.pending == [R.Status(pid, false)]))
  {
    InvAt(ss, ms, j);
    k := RemovedByPassing(ss, ms, j);
    var rs, cs := Project(ss, ms);
    assert cs[k] == ms[k].c && rs[k + 1] == R.Step(rs[k], cs[k]);
    R.OnlyPublishWrites(rs[k], cs[k]);
    R.FileStep(rs[k], cs[k]);
    R.Fixed(rs, cs, k);
    InvAt(ss, ms, k);
    hide R.Step;
    hide R.Writes;
    i := B.FirstLaunch(rs, cs, k);
    pid := rs[k].r.cmd;
    assert cs[i] == RunnerChoice(ss[i], ms[i]);
    B.FirstBootPassed(rs, cs, i, k, pid);
  }

  /** A first boot that ended as failed is never reported as gone to the background. */
  lemma FailureNeverReportedUp(ss: seq<System>, ms: seq<Move>, j: nat)
    requires IsRun(ss, ms) && j <= |ms| && ss[j].r.r.pc == R.Done(R.FailedEarly)
    ensures ss[j].h.parent != H.Returned(H.WentToBackground)
  {
    InvAt(ss, ms, j);
  }

  /** The child has ended exactly as its loop did: with success after a stop, with an error after
      any failure. */
  lemma {:induction false} EndsAsItsLoop(ss: seq<System>, ms: seq<Move>, j: nat)
    requires IsRun(ss, ms) && j <= |ms| && ss[j].r.r.pc.Done?
    ensures ss[j].h.child.Exited?
    ensures ss[j].r.r.pc == R.Done(R.Stopped) ==> ss[j].h.child.status == 0
    ensures ss[j].r.r.pc.result !in {R.Stopped, R.Signalled} ==> ss[j].h.child.status != 0
    decreases j
  {
    var s, m := ss[j - 1], ms[j - 1];
    if s.r.r.pc.Done? {
      EndsAsItsLoop(ss, ms, j - 1);
      DeadStays(s, m);
    } else {
      LoopEnds(s, m);
    }
  }

  lemma DeadStays(s: System, m: Move)
    requires s.h.child.Exited?
    ensures Moved(s, m).h.child == s.h.child && Moved(s, m).r == s.r
  {
  }

  lemma LoopEnds(s: System, m: Move)
    requires !s.r.r.pc.Done? && Moved(s, m).r.r.pc.Done?
    ensures m.Child? && Moved(s, m).h.child == H.Exited(ExitCode(Moved(s, m).r.r.pc.result, m.sent))
  {
    hide R.Step;
  }

  /** A failed first boot reaches the parent: taking the child's status, it returns an error. */
  lemma FailurePassedOn(ss: seq<System>, ms: seq<Move>, k: nat)
    requires IsRun(ss, ms) && k < |ms| && ss[k].r.r.pc == R.Done(R.FailedEarly)
    requires ss[k].h.parent.Looping? && ms[k] == Parent(H.TakeStatus)
    ensures ss[k + 1].h.parent.Returned? && ss[k + 1].h.parent.outcome.ChildExited?
    ensures ss[k + 1].h.parent.outcome.status != 0
  {
    EndsAsItsLoop(ss, ms, k);
    assert ss[k + 1] == Moved(ss[k], ms[k]);
  }

  /** While the parent waits, a report of passing first boot that gets through removes the status
      file, so the next tick makes the parent report success. */
  lemma PassingIsReported(ss: seq<System>, ms: seq<Move>, k: nat, readable: bool)
    requires IsRun(ss, ms) && Passes(ss, ms, k) && ms[k].sent && ss[k].h.parent.Looping?
    ensures ss[k + 1].h.removed && ss[k + 1].h.file == H.Missing && ss[k + 1].h.parent == ss[k].h.parent
    ensures H.Step(ss[k + 1].h, H.Tick(readable)).parent == H.Returned(H.WentToBackground)
  {
    InvAt(ss, ms, k);
    R.OnlyPublishWrites(ss[k].r, ms[k].c);
    R.WritesThenWaits(ss[k].r, ms[k].c);
    hide R.Step;
    assert ss[k + 1] == Moved(ss[k], ms[k]);
  }

  /** The start of the first command is reported as "started". */
  lemma StartIsReported(ss: seq<System>, ms: seq<Move>, i: nat, pid: nat)
    requires IsRun(ss, ms) && Starts(ss, ms, i, pid) && ms[i].sent && ss[i].h.parent.Looping?
    ensures ss[i + 1].h.file == H.Present("started") && ss[i + 1].h.parent == ss[i].h.parent
  {
    InvAt(ss, ms, i);
    R.LaunchStarts(ss[i].r, pid);
    hide R.Step;
    assert ss[i + 1] == Moved(ss[i], ms[i]);
  }

  /** Step `i`: the child's runner, in first boot, starts its command. */
  ghost predicate Starts(ss: seq<System>, ms: seq<Move>, i: nat, pid: nat)
    requires |ss| == |ms| + 1
  {
    && i < |ms| && ms[i].Child? && ss[i].h.child.Running? && ss[i].r.r.firstBoot
    && ms[i].c == R.Launch(pid, R.Ran) && R.Enabled(ss[i].r, ms[i].c)
  }

  /** Step `k`: the command fails. */
  ghost predicate Fails(ss: seq<System>, ms: seq<Move>, k: nat, pid: nat)
    requires |ss| == |ms| + 1
  {
    && k < |ms| && ms[k].Child? && ss[k].h.child.Running?
    && ms[k].c == R.Exit(pid, false) && R.Enabled(ss[k].r, ms[k].c)
  }

  /** A command that failed within its two seconds is reported up only if the first select took
      its timer case although the failing status was ready: step `m`. */
  lemma EarlyFailureUpOnlyByTimer(ss: seq<System>, ms: seq<Move>, i: nat, k: nat, j: nat, pid: nat) returns (m: nat)
    requires IsRun(ss, ms) && i < k < j <= |ms| && Starts(ss, ms, i, pid) && Fails(ss, ms, k, pid)
    requires ss[k].r.w.now < ss[i].r.w.now + R.RELIEF
    requires ss[j].h.parent == H.Returned(H.WentToBackground)
    ensures k < m < j && ms[m].Child? && B.TimerWins(ss[m].r, ms[m].c, pid)
  {
    InvAt(ss, ms, j);
    var rs, cs := Project(ss, ms);
    assert R.Launches(rs, cs, i, pid) && R.Exits(rs, cs, k, R.Status(pid, false));
    B.EarlyFailurePassesIff(rs, cs, i, k, j, pid);
    m :| k < m < j && B.TimerWins(rs[m], cs[m], pid);
    assert cs[m] == RunnerChoice(ss[m], ms[m]);
  }

  /** And it can happen: the command fails at once, and the parent reports success all the same. */
  lemma DeadCommandReportedUp() returns (ss: seq<System>, ms: seq<Move>)
    ensures IsRun(ss, ms) && |ms| == 6 && Starts(ss, ms, 0, 10) && Fails(ss, ms, 1, 10)
    ensures ss[1].r.w.now == ss[0].r.w.now
    ensures ss[6].h.parent == H.Returned(H.WentToBackground) && ss[6].r.w.alive == {}
  {
    hide R.Step;
    hide H.Step;
    hide Moved;
    hide R.Writes;
    hide R.Enabled;
    var rs, cs := B.FailureLetThrough(R.Config(R.LoopDetached, false, 1));
    var h0, h1, h2, h3 := UpSequence();
    assert rs[1] == R.Step(rs[0], cs[0]) && rs[2] == R.Step(rs[1], cs[1]) && rs[3] == R.Step(rs[2], cs[2]);
    assert rs[4] == R.Step(rs[3], cs[3]) && rs[5] == R.Step(rs[4], cs[4]);
    ChildMoved(rs[0], h0, cs[0]);
    ss, ms := Extend([System(rs[0], h0)], [], Child(cs[0], true));
    ChildMoved(rs[1], h1, cs[1]);
    ss, ms := Extend(ss, ms, Child(cs[1], true));
    ChildMoved(rs[2], h1, cs[2]);
    ss, ms := Extend(ss, ms, Child(cs[2], true));
    ChildMoved(rs[3], h1, cs[3]);
    ss, ms := Extend(ss, ms, Child(cs[3], true));
    ChildMoved(rs[4], h1, cs[4]);
    ss, ms := Extend(ss, ms, Child(cs[4], true));
    ParentMoved(System(rs[5], h2), H.Tick(true));
    ss, ms := Extend(ss, ms, Parent(H.Tick(true)));
  }

  lemma Extend(ss: seq<System>, ms: seq<Move>, m: Move) returns (ss': seq<System>, ms': seq<Move>)
    requires IsRun(ss, ms)
    ensures IsRun(ss', ms') && ms' == ms + [m] && ss' == ss + [Moved(ss[|ms|], m)]
  {
    hide Moved;
    ss', ms' := ss + [Moved(ss[|ms|], m)], ms + [m];
  }

  /** The status file while the child reports "boot", "started" and UP, and the parent then looks. */
  lemma UpSequence() returns (h0: H.State, h1: H.State, h2: H.State, h3: H.State)
    ensures h0 == H.Step(H.START, H.Notify("boot", true)) && h1 == H.Step(h0, H.Notify("started", true))
    ensures h2 == H.Step(h1, H.Notify(H.UP, true)) && h3 == H.Step(h2, H.Tick(true))
    ensures h0.child.Running? && h1.child.Running? && h3.parent == H.Returned(H.WentToBackground)
  {
    h0 := H.Step(H.START, H.Notify("boot", true));
    h1 := H.Step(h0, H.Notify("started", true));
    h2 := H.Step(h1, H.Notify(H.UP, true));
    h3 := H.Step(h2, H.Tick(true));
  }

  lemma ParentMoved(s: System, p: H.Choice)
    requires !p.Notify?
    ensures Moved(s, Parent(p)) == System(s.r, H.Step(s.h, p))
  {
  }

  /** A step of a living child that does not end its loop, by what it reports. */
  lemma ChildMoved(r: R.State, h: H.State, c: R.Choice)
    requires h.child.Running? && !R.Step(r, c).r.pc.Done?
    ensures var t := Moved(System(r, h), Child(c, true));
            && t.r == R.Step(r, c)
            && (c.Launch? && c.outcome == R.Ran && R.Enabled(r, c) && r.r.firstBoot ==>
                  t.h == H.Step(h, H.Notify("started", true)))
            && (!c.Launch? && !c.WritePid? ==> t.h == h)
            && (!c.Launch? && PassesFirstBoot(r, c) ==> t.h == H.Step(h, H.Notify(H.UP, true)))
  {
    hide R.Step;
    hide H.Step;
    hide R.Enabled;
  }
}
