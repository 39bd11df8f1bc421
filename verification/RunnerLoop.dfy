/**
`Runner.Run` as a loop: start a command, wait out first boot, write the pid file, block in the
main select with the drain and the backoff inside it, and go round again.

The environment and the results of system calls come from a schedule.  `Await` is where the
code blocks: it lets the environment move until the schedule names a case that is ready there.
The states at the blocking points, with every move of the environment in between, are proved to
be a run of the machine in module `Runner`; what is proved there of all runs is so proved of
this loop.
*/
module RunnerLoop {
  import opened Basics
  import opened Runner

  class Supervisor {
    const cfg: Config
    const schedule: seq<Choice>
    var firstBoot: bool
    var alwaysRestart: bool
    var build: BuildHook
    var success: bool
    var cmd: nat
    var timer: Option<nat>
    var w: World
    var at: nat
    ghost var ss: seq<State>

    /** The state while the code is at point `pc`. */
    function At(pc: Pc): State
      reads this
    {
      State(cfg, Control(pc, firstBoot, alwaysRestart, build, success, cmd, timer), w)
    }

    /** The states so far are those of the schedule so far. */
    ghost predicate Recorded()
      reads this`at, this`ss
    {
      && at <= |schedule| && |ss| == at + 1 && Init(ss[0])
      && forall i :: 0 <= i < at ==> ss[i + 1] == Step(ss[i], schedule[i])
    }

    /** The code is blocked at `pc`. */
    ghost predicate Follows(pc: Pc)
      reads this
    {
      Recorded() && |ss| == at + 1 && at <= |schedule| && ss[at] == At(pc)
    }

    /** The code is about to take a case that is ready at `pc`. */
    ghost predicate Takes(pc: Pc, c: Choice)
      reads this
    {
      Follows(pc) && at < |schedule| && schedule[at] == c && Enabled(At(pc), c) && IsMove(c)
    }

    constructor (cfg: Config, alwaysRestart: bool, build: BuildHook, success: bool, w: World, schedule: seq<Choice>)
      requires cfg.self != 0 && cfg.self !in w.others && w.children == {} && w.alive == {} && w.pending == []
      ensures Follows(LoopHead) && at == 0 && this.cfg == cfg && this.schedule == schedule && this.w == w
      ensures this.alwaysRestart == alwaysRestart && this.build == build && this.success == success
    {
      this.cfg, this.schedule, this.w := cfg, schedule, w;
      this.alwaysRestart, this.build, this.success := alwaysRestart, build, success;
      firstBoot := cfg.mode != Once;
      cmd, timer, at := 0, None, 0;
      new;
      ss := [At(LoopHead)];
    }

    /** Blocks at `pc`: the environment moves until a case that is ready there is chosen. */
    method Await(pc: Pc) returns (c: Option<Choice>)
      requires Follows(pc)
      modifies this`w, this`at, this`ss
      ensures c.None? ==> Follows(pc) && at == |schedule|
      ensures c.Some? ==> Takes(pc, c.value)
      ensures old(ss) <= ss && w.file == old(w.file)
    {
      while at < |schedule|
        invariant Follows(pc) && old(ss) <= ss && w.file == old(w.file)
        decreases |schedule| - at
      {
        var next := schedule[at];
        if Enabled(At(pc), next) {
          if IsMove(next) {
            return Some(next);
          }
          w := Environment(w, next);
        }
        Arrive(pc);
      }
      return None;
    }

    /** The code is blocked again: the chosen case is over. */
    method Arrive(ghost pc: Pc)
      requires Recorded() && at < |schedule| && At(pc) == Step(ss[at], schedule[at])
      modifies this`at, this`ss
      ensures Follows(pc) && at == old(at) + 1 && old(ss) <= ss
    {
      ss := ss + [At(pc)];
      at := at + 1;
    }

    /** Where a phase of the loop leaves the code. */
    ghost predicate Ends(f: Flow, next: Pc)
      reads this
    {
      match f
      case Onward => Follows(next)
      case Over(res) => Follows(Done(res))
      case Exhausted => at == |schedule| && exists pc :: Follows(pc)
    }

    /** Build a command, start it, and wait out the first boot. */
    method Start() returns (f: Flow)
      requires Follows(LoopHead)
      modifies this
      ensures Ends(f, Publish) && old(ss) <= ss && at >= old(at) && (f.Onward? ==> at > old(at))
    {
      hide Recorded;
      var c := Await(LoopHead);
      if c.None? {
        return Exhausted;
      }
      if c.value.outcome == NotBuilt {
        Arrive(Done(BuildFailed));
        return Over(BuildFailed);
      }
      hide Step;
      f := StartBuilt(c.value.pid, c.value.outcome == Ran);
    }

    method StartBuilt(pid: nat, started: bool) returns (f: Flow)
      requires Takes(LoopHead, Launch(pid, if started then Ran else NotStarted))
      modifies this
      ensures Ends(f, Publish) && old(ss) <= ss && at > old(at)
    {
      hide Recorded;
      LaunchStep(ss[at], pid, if started then Ran else NotStarted);
      hide Step;
      hide Enabled;
      if build == ResetRestart {
        alwaysRestart := false;
      }
      if !started {
        Arrive(Done(StartFailed));
        return Over(StartFailed);
      }
      cmd := pid;
      w := w.(children := w.children + {cmd}, alive := w.alive + {cmd});
      if !firstBoot {
        Arrive(Publish);
        return Onward;
      }
      timer := Some(w.now + RELIEF);
      Arrive(FirstBoot);
      f := FirstBootSelect();
    }

    method FirstBootSelect() returns (f: Flow)
      requires Follows(FirstBoot)
      modifies this
      ensures Ends(f, Publish) && old(ss) <= ss && at >= old(at)
    {
      var c := Await(FirstBoot);
      if c.None? {
        return Exhausted;
      }
      if c.value == TakeTimer {
        timer := None;
        Arrive(Publish);
        return Onward;
      }
      var st := w.pending[c.value.i];
      w := w.(pending := Without(w.pending, c.value.i));
      if !st.ok {
        Arrive(Done(FailedEarly));
        return Over(FailedEarly);
      }
      // the status is sent again, as if the command had finished later
      timer := None;
      w := w.(pending := w.pending + [st]);
      Arrive(Publish);
      return Onward;
    }

    /** Write the pid file where the mode asks for it. */
    method RecordPid() returns (f: Flow)
      requires Follows(Publish)
      modifies this
      ensures Ends(f, MainSelect) && old(ss) <= ss && at >= old(at)
    {
      var c := Await(Publish);
      if c.None? {
        return Exhausted;
      }
      var pid := cfg.self;
      if cfg.mode == LoopAttached {
        pid := cmd;
      }
      if firstBoot || cfg.mode == LoopAttached {
        if w.file.Some? && Running(At(Publish), w.file.value) {
          Arrive(Done(PidRefused));
          return Over(PidRefused);
        }
        if !c.value.written {
          Arrive(Done(PidWriteFailed));
          return Over(PidWriteFailed);
        }
        w := w.(file := Some(pid));
      }
      firstBoot := false;
      Arrive(MainSelect);
      return Onward;
    }

    /** The main select, with what each case does before the loop goes round. */
    method Supervise() returns (f: Flow)
      requires Follows(MainSelect)
      modifies this
      ensures Ends(f, LoopHead) && old(ss) <= ss && at >= old(at)
    {
      var c := Await(MainSelect);
      if c.None? {
        return Exhausted;
      }
      if c.value == TakeSignal {
        w := w.(signal := false);
        Arrive(Done(Signalled));
        return Over(Signalled);
      }
      if c.value == TakeRestart {
        // the exit status of the terminated command is drained
        Arrive(Drain);
        c := Await(Drain);
        if c.None? {
          return Exhausted;
        }
        w := w.(pending := Without(w.pending, c.value.i));
        Arrive(LoopHead);
        return Onward;
      }
      f := CommandExited(c.value.i, c.value.removed);
    }

    /** The exit case of the main select. */
    method CommandExited(i: nat, removed: bool) returns (f: Flow)
      requires Takes(MainSelect, TakeExit(i, removed))
      modifies this
      ensures Ends(f, LoopHead) && old(ss) <= ss && at >= old(at)
    {
      hide Step;
      hide Recorded;
      var ok := w.pending[i].ok;
      ExitStep(ss[at], i, removed);
      w := w.(pending := Without(w.pending, i));
      if ok && success {
        alwaysRestart, success, build := true, false, ResetRestart;
        w := w.(wg := w.wg - 1);
      }
      hide Decide;
      if !(cfg.mode != Once || cfg.watched) {
        f := FinishOnce(ok, removed);
      } else {
        f := GoRound(ok, removed);
      }
    }

    /** The status has been received and the hook has run; the rest is to be decided. */
    ghost predicate Deciding(ok: bool, removed: bool)
      reads this
    {
      && Recorded() && |ss| == at + 1 && at < |schedule|
      && Step(ss[at], schedule[at]) == Decide(At(MainSelect), ok, removed)
    }

    /** A command that is not set up to loop ends the run. */
    method FinishOnce(ok: bool, removed: bool) returns (f: Flow)
      requires Deciding(ok, removed) && cfg.mode == Once && !cfg.watched
      modifies this
      ensures Ends(f, LoopHead) && f.Over? && old(ss) <= ss && at >= old(at)
    {
      hide Step;
      hide Recorded;
      if !ok {
        Arrive(Done(CommandFailed));
        return Over(CommandFailed);
      }
      if !removed {
        Arrive(Done(RemoveFailed));
        return Over(RemoveFailed);
      }
      w := w.(file := None);
      Arrive(Done(Stopped));
      return Over(Stopped);
    }

    /** A command that is set up to loop is restarted, at once or later, if it may be. */
    method GoRound(ok: bool, removed: bool) returns (f: Flow)
      requires Deciding(ok, removed) && (cfg.mode != Once || cfg.watched)
      modifies this
      ensures Ends(f, LoopHead) && old(ss) <= ss && at >= old(at)
    {
      hide Step;
      hide Recorded;
      if !alwaysRestart {
        Arrive(Done(Stopped));
        return Over(Stopped);
      }
      if removed {
        w := w.(file := None);
      }
      if ok {
        Arrive(LoopHead);
        return Onward;
      }
      timer := Some(w.now + BACKOFF);
      Arrive(Backoff);
      f := WaitToRestart();
    }

    method WaitToRestart() returns (f: Flow)
      requires Follows(Backoff)
      modifies this
      ensures Ends(f, LoopHead) && old(ss) <= ss && at >= old(at)
    {
      var c := Await(Backoff);
      if c.None? {
        return Exhausted;
      }
      timer := None;
      if c.value == TakeSignal {
        w := w.(signal := false);
        Arrive(Done(Stopped));
        return Over(Stopped);
      }
      Arrive(LoopHead);
      return Onward;
    }

    /** Whatever the schedule, the loop passes through a run of the machine, to its end or to the
        end of the schedule. */
    method Run() returns (res: Option<Result>)
      requires Follows(LoopHead) && at == 0
      modifies this
      ensures at <= |schedule| && IsRun(ss, schedule[..at]) && ss[0] == old(At(LoopHead))
      ensures res.Some? ==> ss[at].r.pc == Done(res.value)
      ensures res.None? ==> at == |schedule|
    {
      hide Step;
      while true
        invariant Follows(LoopHead) && old(ss) <= ss
        decreases |schedule| - at
      {
        var f := Start();
        if f.Onward? {
          f := RecordPid();
        }
        if f.Onward? {
          f := Supervise();
        }
        if f.Over? {
          return Some(f.result);
        }
        if f.Exhausted? {
          return None;
        }
      }
    }
  }

  datatype Flow = Onward | Over(result: Result) | Exhausted

  lemma LaunchStep(s: State, pid: nat, outcome: Launched)
    requires Enabled(s, Launch(pid, outcome))
    ensures Step(s, Launch(pid, outcome)) == AfterLaunch(s, pid, outcome)
  {
  }

  lemma ExitStep(s: State, i: nat, removed: bool)
    requires Enabled(s, TakeExit(i, removed)) && s.r.pc == MainSelect
    ensures Step(s, TakeExit(i, removed)) == AfterExit(Take(s, i), s.w.pending[i].ok, removed)
  {
  }

  /** A move of the runner rather than of its environment. */
  predicate IsMove(c: Choice) { !(c.Pass? || c.Exit? || c.Deliver? || c.OthersRun?) }

  function Environment(w: World, c: Choice): World {
    match c
    case Pass(d) => w.(now := w.now + d)
    case Exit(pid, ok) => w.(alive := w.alive - {pid}, pending := w.pending + [Status(pid, ok)])
    case Deliver => w.(signal := true)
    case OthersRun(pids) => w.(others := pids)
    case _ => w
  }
}
