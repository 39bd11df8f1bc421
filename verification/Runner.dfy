/**
The supervision loop of `Runner.Run` as a machine that takes one step at a time.

A step is one choice of the scheduler: a move of the environment (time passes, a child exits,
a signal arrives, other processes come and go) or the runner's next move (launch a command,
write the pid file, or take one ready case of the select it is blocked in).  A choice that is
not possible in a state leaves it as it is, so every sequence of choices is a run.

A pid is never given to two processes, and `Timer.Stop` leaves no tick behind.
*/
module Runner {
  import opened Basics

  datatype Mode = Once | LoopAttached | LoopDetached

  /** `BuildCmdHook`: the caller's own; the one that appends `--wait`; the one installed by the
      success hook, which also switches the automatic restart off again. */
  datatype BuildHook = Plain | AddWait | ResetRestart

  datatype Result =
    | Stopped
    | BuildFailed
    | StartFailed
    | FailedEarly
    | PidRefused
    | PidWriteFailed
    | Signalled
    | CommandFailed
    | RemoveFailed

  datatype Pc = LoopHead | FirstBoot | Publish | MainSelect | Drain | Backoff | Done(result: Result)

  /** An exit status on its way to the unbuffered `cmdExitChan`. */
  datatype Status = Status(pid: nat, ok: bool)

  /** Fixed for the run. */
  datatype Config = Config(mode: Mode, watched: bool, self: nat)

  /** The variables of `Run` and the fields of `Runner`. */
  datatype Control = Control(pc: Pc, firstBoot: bool, alwaysRestart: bool, build: BuildHook, success: bool,
                             cmd: nat, timer: Option<nat>)

  /** The commands started, the exit statuses not yet received, and the world around. */
  datatype World = World(now: nat, children: set<nat>, alive: set<nat>, pending: seq<Status>, signal: bool,
                         others: set<nat>, file: Option<nat>, wg: int)

  datatype State = State(cfg: Config, r: Control, w: World)

  datatype Launched = Ran | NotBuilt | NotStarted

  datatype Choice =
    // environment
    | Pass(d: nat)
    | Exit(pid: nat, ok: bool)
    | Deliver
    | OthersRun(pids: set<nat>)
    // runner
    | Launch(pid: nat, outcome: Launched)
    | WritePid(written: bool)
    | TakeExit(i: nat, removed: bool)
    | TakeTimer
    | TakeSignal
    | TakeRestart

  const RELIEF: nat := 2000
  const BACKOFF: nat := 5000

  predicate Looping(s: State) { s.cfg.mode != Once || s.cfg.watched }

  /** `PidFile.IsRunning` for the pid in the file. */
  predicate Running(s: State, pid: nat) {
    pid != 0 && (pid == s.cfg.self || pid in s.w.alive || pid in s.w.others)
  }

  predicate WritesPid(s: State) { s.r.firstBoot || s.cfg.mode == LoopAttached }

  predicate Refuses(s: State) {
    WritesPid(s) && s.w.file.Some? && Running(s, s.w.file.value)
  }

  function Without(p: seq<Status>, i: nat): seq<Status>
    requires i < |p|
  {
    p[..i] + p[i + 1..]
  }

  predicate Enabled(s: State, c: Choice) {
    match c
    case Pass(_) => true
    case Exit(pid, _) => pid in s.w.alive
    case Deliver => true
    case OthersRun(pids) => pids !! s.w.children && s.cfg.self !in pids
    case Launch(pid, outcome) =>
      && s.r.pc == LoopHead
      && pid != 0 && pid != s.cfg.self && pid !in s.w.children && pid !in s.w.others && s.w.file != Some(pid)
    case WritePid(_) => s.r.pc == Publish
    case TakeExit(i, _) => s.r.pc in {FirstBoot, MainSelect, Drain} && i < |s.w.pending|
    case TakeTimer => s.r.pc in {FirstBoot, Backoff} && s.r.timer.Some? && s.r.timer.value <= s.w.now
    case TakeSignal => s.r.pc in {MainSelect, Backoff} && s.w.signal
    case TakeRestart => s.r.pc in {MainSelect, Backoff} && s.cfg.watched
  }

  function Goto(s: State, pc: Pc): State { s.(r := s.r.(pc := pc)) }

  function AfterLaunch(s: State, pid: nat, outcome: Launched): State {
    var r := s.r.(alwaysRestart := s.r.alwaysRestart && s.r.build != ResetRestart);
    match outcome
    case NotBuilt => Goto(s, Done(BuildFailed))
    case NotStarted => s.(r := r.(pc := Done(StartFailed)))
    case Ran =>
      State(s.cfg,
            if r.firstBoot
            then r.(cmd := pid, pc := FirstBoot, timer := Some(s.w.now + RELIEF))
            else r.(cmd := pid, pc := Publish),
            s.w.(children := s.w.children + {pid}, alive := s.w.alive + {pid}))
  }

  function AfterWritePid(s: State, written: bool): State {
    if Refuses(s) then Goto(s, Done(PidRefused))
    else if WritesPid(s) && !written then Goto(s, Done(PidWriteFailed))
    else
      State(s.cfg, s.r.(pc := MainSelect, firstBoot := false),
            if !WritesPid(s) then s.w
            else s.w.(file := Some(if s.cfg.mode == LoopAttached then s.r.cmd else s.cfg.self)))
  }

  predicate HookFires(s: State, ok: bool) { ok && s.r.success }

  /** The success hook of the Docker Compose worker. */
  function AfterHook(s: State, ok: bool): State {
    if HookFires(s, ok)
    then State(s.cfg, s.r.(alwaysRestart := true, success := false, build := ResetRestart), s.w.(wg := s.w.wg - 1))
    else s
  }

  function Unlink(s: State, removed: bool): State { if removed then s.(w := s.w.(file := None)) else s }

  /** What follows an exit, once the hook has run: stop, restart at once, or restart later. */
  function Decide(s: State, ok: bool, removed: bool): State {
    if !Looping(s) then
      if !ok then Goto(s, Done(CommandFailed))
      else Goto(Unlink(s, removed), Done(if removed then Stopped else RemoveFailed))
    else if s.r.alwaysRestart then
      var s1 := Unlink(s, removed);
      if ok then Goto(s1, LoopHead)
      else s1.(r := s1.r.(pc := Backoff, timer := Some(s1.w.now + BACKOFF)))
    else Goto(s, Done(Stopped))
  }

  /** The exit case of the main select. */
  function AfterExit(s: State, ok: bool, removed: bool): State { Decide(AfterHook(s, ok), ok, removed) }

  function Take(s: State, i: nat): State
    requires i < |s.w.pending|
  {
    s.(w := s.w.(pending := Without(s.w.pending, i)))
  }

  function AfterTakeExit(s: State, i: nat, removed: bool): State
    requires i < |s.w.pending|
  {
    var st, s1 := s.w.pending[i], Take(s, i);
    match s.r.pc
    case FirstBoot =>
      // a success is sent again, to be decided on later
      if st.ok
      then State(s1.cfg, s1.r.(timer := None, pc := Publish), s1.w.(pending := s1.w.pending + [st]))
      else Goto(s1, Done(FailedEarly))
    case MainSelect => AfterExit(s1, st.ok, removed)
    case _ => Goto(s1, LoopHead)
  }

  function Next(s: State, c: Choice): State
    requires Enabled(s, c)
  {
    match c
    case Pass(d) => s.(w := s.w.(now := s.w.now + d))
    case Exit(pid, ok) => s.(w := s.w.(alive := s.w.alive - {pid}, pending := s.w.pending + [Status(pid, ok)]))
    case Deliver => s.(w := s.w.(signal := true))
    case OthersRun(pids) => s.(w := s.w.(others := pids))
    case Launch(pid, outcome) => AfterLaunch(s, pid, outcome)
    case WritePid(written) => AfterWritePid(s, written)
    case TakeExit(i, removed) => AfterTakeExit(s, i, removed)
    case TakeTimer => s.(r := s.r.(timer := None, pc := if s.r.pc == FirstBoot then Publish else LoopHead))
    case TakeSignal =>
      State(s.cfg,
            if s.r.pc == MainSelect then s.r.(pc := Done(Signalled)) else s.r.(timer := None, pc := Done(Stopped)),
            s.w.(signal := false))
    case TakeRestart =>
      s.(r := if s.r.pc == MainSelect then s.r.(pc := Drain) else s.r.(timer := None, pc := LoopHead))
  }

  function Step(s: State, c: Choice): State { if Enabled(s, c) then Next(s, c) else s }

  ghost predicate Init(s: State) {
    && s.r.pc == LoopHead && s.r.firstBoot == (s.cfg.mode != Once) && s.r.timer == None
    && s.w.children == {} && s.w.alive == {} && s.w.pending == [] && s.cfg.self != 0 && s.cfg.self !in s.w.others
  }

  /** `ss` are the states passed through by the choices `cs`. */
  ghost predicate IsRun(ss: seq<State>, cs: seq<Choice>) {
    && |ss| == |cs| + 1 && Init(ss[0])
    && forall i :: 0 <= i < |cs| ==> ss[i + 1] == Step(ss[i], cs[i])
  }

  // ---------- what every step keeps ----------

  ghost predicate Idle(s: State) { s.w.alive == {} && s.w.pending == [] }

  /** The current command is alive, or its exit status is on its way: never both. */
  ghost predicate OneInFlight(s: State) {
    || (s.w.alive == {s.r.cmd} && s.w.pending == [])
    || (s.w.alive == {} && |s.w.pending| == 1 && s.w.pending[0].pid == s.r.cmd)
  }

  ghost predicate ControlInv(s: State) {
    match s.r.pc
    case LoopHead => Idle(s) && s.r.timer == None
    case FirstBoot => OneInFlight(s) && s.r.timer.Some? && s.r.firstBoot
    case Publish => OneInFlight(s) && s.r.timer == None
    case MainSelect => OneInFlight(s) && s.r.timer == None && !s.r.firstBoot
    case Drain => OneInFlight(s) && s.r.timer == None && !s.r.firstBoot
    case Backoff => Idle(s) && s.r.timer.Some? && !s.r.firstBoot
    case Done(res) => (Idle(s) || OneInFlight(s)) && (res == FailedEarly ==> s.r.firstBoot)
  }

  ghost predicate WorldInv(s: State) {
    && s.w.alive <= s.w.children && s.w.others !! s.w.children && 0 !in s.w.children
    && s.cfg.self !in s.w.children && s.cfg.self !in s.w.others
    && (s.r.pc in {FirstBoot, Publish, MainSelect, Drain} ==> s.r.cmd in s.w.children)
    && (s.r.pc == LoopHead && s.r.firstBoot ==> s.w.children == {})
    && (s.r.pc in {FirstBoot, Publish} && s.r.firstBoot ==> s.w.children == {s.r.cmd})
    && (s.r.firstBoot ==> s.cfg.mode != Once)
  }

  /** The pid file of an attached runner: its latest child, or a child that is gone, or nothing. */
  ghost predicate FileInv(s: State) {
    s.cfg.mode == LoopAttached && !s.r.firstBoot ==>
      && (s.w.file.Some? ==> s.w.file.value in s.w.children)
      && (s.r.pc in {MainSelect, Drain} ==> s.w.file == Some(s.r.cmd))
      && (s.r.pc == Publish ==> s.w.file != Some(s.r.cmd))
  }

  ghost predicate Inv(s: State) { ControlInv(s) && WorldInv(s) && FileInv(s) }

  lemma InvStep(s: State, c: Choice)
    requires Inv(s)
    ensures Inv(Step(s, c))
  {
    if Enabled(s, c) {
      match c
      case Launch(pid, outcome) => InvLaunch(s, pid, outcome);
      case WritePid(written) => InvWritePid(s, written);
      case TakeExit(i, removed) => InvTakeExit(s, i, removed);
      case _ => InvOther(s, c);
    }
  }

  lemma InvLaunch(s: State, pid: nat, outcome: Launched)
    requires Inv(s) && Enabled(s, Launch(pid, outcome))
    ensures Inv(AfterLaunch(s, pid, outcome))
  {
    if outcome == Ran {
      assert {} + {pid} == {pid};
    }
  }

  lemma InvWritePid(s: State, written: bool)
    requires Inv(s) && s.r.pc == Publish
    ensures Inv(AfterWritePid(s, written))
  {
  }

  lemma InvOther(s: State, c: Choice)
    requires Inv(s) && Enabled(s, c) && !c.Launch? && !c.WritePid? && !c.TakeExit?
    ensures Inv(Next(s, c))
  {
    match c
    case Exit(pid, ok) =>
      assert s.w.alive == {s.r.cmd} && s.w.alive - {pid} == {};
      assert ControlInv(Next(s, c));
    case _ =>
  }

  /** What is in flight when a status is taken is that one status. */
  lemma LoneStatus(s: State, i: nat, removed: bool)
    requires Inv(s) && Enabled(s, TakeExit(i, removed))
    ensures i == 0 && |s.w.pending| == 1 && s.w.alive == {} && s.w.pending[0].pid == s.r.cmd
    ensures Without(s.w.pending, i) == [] && Without(s.w.pending, i) + [s.w.pending[0]] == s.w.pending
  {
  }

  lemma InvTakeExit(s: State, i: nat, removed: bool)
    requires Inv(s) && Enabled(s, TakeExit(i, removed))
    ensures Inv(AfterTakeExit(s, i, removed))
  {
    LoneStatus(s, i, removed);
    hide Without;
    if s.r.pc == MainSelect {
      InvExit(Take(s, i), s.w.pending[0].ok, removed);
    }
  }

  lemma InvExit(s: State, ok: bool, removed: bool)
    requires s.r.pc == MainSelect && Idle(s) && s.r.timer == None && !s.r.firstBoot && WorldInv(s) && FileInv(s)
    ensures Inv(AfterExit(s, ok, removed))
  {
  }

  // ---------- one step at a time ----------

  /** What no step changes, and what only moves one way. */
  ghost predicate Kept(s: State, c: Choice, t: State) {
    && t.cfg.mode == s.cfg.mode && t.cfg.self == s.cfg.self && t.cfg.watched == s.cfg.watched
    && t.w.now >= s.w.now && s.w.children <= t.w.children
    && (t.r.firstBoot ==> s.r.firstBoot)
    && (s.r.pc.Done? ==> t.r.pc == s.r.pc)
    && (t.r.cmd != s.r.cmd ==> c.Launch? && c.outcome == Ran)
    && (t.r.pc == Done(FailedEarly) && s.r.pc != t.r.pc ==> s.r.pc == FirstBoot && t.w.file == s.w.file)
    && (t.r.pc == Done(PidRefused) && s.r.pc != t.r.pc ==> s.r.pc == Publish && Refuses(s))
  }

  lemma StepKeeps(s: State, c: Choice)
    ensures Kept(s, c, Step(s, c))
    ensures Step(s, c).r.cmd != s.r.cmd ==> Enabled(s, c)
  {
    if Enabled(s, c) {
      if c.TakeExit? {
        TakeExitKeeps(s, c);
      } else if c.WritePid? {
        WritePidKeeps(s, c);
      } else if c.Launch? {
        LaunchKeeps(s, c);
      } else {
        OtherKeeps(s, c);
      }
      hide Next;
    }
  }

  lemma LaunchKeeps(s: State, c: Choice)
    requires c.Launch? && Enabled(s, c)
    ensures Kept(s, c, Next(s, c)) && Next(s, c).w.file == s.w.file && Next(s, c).r.firstBoot == s.r.firstBoot
  {
  }

  lemma WritePidKeeps(s: State, c: Choice)
    requires c.WritePid? && Enabled(s, c)
    ensures Kept(s, c, Next(s, c))
    ensures var pid := if s.cfg.mode == LoopAttached then s.r.cmd else s.cfg.self;
            Next(s, c).w.file == if Writes(s, c) then Some(pid) else s.w.file
    ensures s.r.firstBoot ==> (Next(s, c).r.firstBoot <==> !Writes(s, c))
    ensures Writes(s, c) ==> !Next(s, c).r.firstBoot
  {
  }

  lemma OtherKeeps(s: State, c: Choice)
    requires Enabled(s, c) && !c.Launch? && !c.WritePid? && !c.TakeExit?
    ensures Kept(s, c, Next(s, c)) && Next(s, c).w.file == s.w.file && Next(s, c).r.firstBoot == s.r.firstBoot
  {
  }

  lemma TakeExitKeeps(s: State, c: Choice)
    requires c.TakeExit? && Enabled(s, c)
    ensures Kept(s, c, Next(s, c)) && Next(s, c).r.firstBoot == s.r.firstBoot
    ensures s.r.pc != MainSelect ==> Next(s, c).w.file == s.w.file
    ensures RemovesAndRestarts(s, c) ==> Next(s, c).w.file == None
    ensures Looping(s) && !RemovesAndRestarts(s, c) ==> Next(s, c).w.file == s.w.file
  {
    if s.r.pc == MainSelect {
      var s1 := Take(s, c.i);
      ExitKeeps(s1, s.w.pending[c.i].ok, c.removed);
      assert AfterHook(s1, s.w.pending[c.i].ok).r.alwaysRestart == AfterHook(s, s.w.pending[c.i].ok).r.alwaysRestart;
      hide AfterExit;
      hide AfterHook;
      hide Without;
    }
  }

  lemma ExitKeeps(s: State, ok: bool, removed: bool)
    ensures var t := AfterExit(s, ok, removed);
            && t.cfg == s.cfg && t.r.cmd == s.r.cmd && t.r.firstBoot == s.r.firstBoot
            && t.w == s.w.(file := t.w.file, wg := t.w.wg)
            && t.r.pc !in {Done(FailedEarly), Done(PidRefused)}
            && (t.w.file == s.w.file || t.w.file == None)
            && (Looping(s) && AfterHook(s, ok).r.alwaysRestart && removed ==> t.w.file == None)
            && (Looping(s) && !(AfterHook(s, ok).r.alwaysRestart && removed) ==> t.w.file == s.w.file)
  {
  }

  /** Only two steps touch the pid file. */
  lemma FileStep(s: State, c: Choice)
    ensures Writes(s, c) ==>
              && !Step(s, c).r.firstBoot
              && Step(s, c).w.file == Some(if s.cfg.mode == LoopAttached then s.r.cmd else s.cfg.self)
    ensures RemovesAndRestarts(s, c) ==> Step(s, c).w.file == None
    ensures Looping(s) && !RemovesAndRestarts(s, c) && !Writes(s, c) ==> Step(s, c).w.file == s.w.file
    ensures s.r.firstBoot && !Step(s, c).r.firstBoot ==> Writes(s, c)
    ensures s.r.pc in {LoopHead, FirstBoot, Drain} && !Writes(s, c) ==> Step(s, c).w.file == s.w.file
  {
    if Enabled(s, c) {
      if c.TakeExit? {
        TakeExitKeeps(s, c);
      } else if c.WritePid? {
        WritePidKeeps(s, c);
      } else if c.Launch? {
        LaunchKeeps(s, c);
      } else {
        OtherKeeps(s, c);
      }
      hide Next;
    }
  }

  lemma {:induction false} InvAt(ss: seq<State>, cs: seq<Choice>, i: nat)
    requires IsRun(ss, cs) && i < |ss|
    ensures Inv(ss[i])
    decreases i
  {
    if i > 0 {
      InvAt(ss, cs, i - 1);
      InvStep(ss[i - 1], cs[i - 1]);
    }
  }

  // ---------- theorems over whole runs ----------

  /** At most one child is alive and at most one exit status is pending, never both; a command is
      only ever launched when there is neither. */
  lemma OneChild(ss: seq<State>, cs: seq<Choice>, i: nat)
    requires IsRun(ss, cs) && i < |ss|
    ensures |ss[i].w.alive| + |ss[i].w.pending| <= 1
    ensures ss[i].r.pc == LoopHead ==> ss[i].w.alive == {} && ss[i].w.pending == []
  {
    InvAt(ss, cs, i);
  }

  /** Step `k` launches `pid`. */
  ghost predicate Launches(ss: seq<State>, cs: seq<Choice>, k: nat, pid: nat)
    requires |ss| == |cs| + 1
  {
    k < |cs| && Enabled(ss[k], cs[k]) && cs[k] == Launch(pid, Ran)
  }

  /** Step `k` decides on the exit status of `pid`: acts on it, fails on it at first boot, or
      drains it for a restart.  Sending a first-boot success again is not a decision. */
  ghost predicate Settles(s: State, c: Choice, pid: nat) {
    && c.TakeExit? && Enabled(s, c) && s.w.pending[c.i].pid == pid
    && (s.r.pc == FirstBoot ==> !s.w.pending[c.i].ok)
  }

  ghost predicate InFlight(s: State, pid: nat) {
    pid in s.w.alive || exists k :: 0 <= k < |s.w.pending| && s.w.pending[k].pid == pid
  }

  ghost predicate Gone(s: State, pid: nat) { pid in s.w.children && !InFlight(s, pid) }

  lemma FlightStep(s: State, c: Choice, pid: nat)
    requires Inv(s)
    ensures InFlight(s, pid) && !Settles(s, c, pid) ==> InFlight(Step(s, c), pid)
    ensures Settles(s, c, pid) ==> Gone(Step(s, c), pid)
    ensures Gone(s, pid) ==> Gone(Step(s, c), pid) && !Settles(s, c, pid)
  {
    StepKeeps(s, c);
    if Enabled(s, c) {
      if c.TakeExit? {
        LoneStatus(s, c.i, c.removed);
        TakenStatus(s, c);
      } else {
        FlightMoves(s, c);
      }
    }
  }

  lemma TakenStatus(s: State, c: Choice)
    requires Inv(s) && c.TakeExit? && Enabled(s, c)
    ensures var t := Step(s, c);
            && t.w.children == s.w.children && t.w.alive == s.w.alive && s.r.cmd in s.w.children
            && t.w.pending == if s.r.pc == FirstBoot && s.w.pending[c.i].ok then s.w.pending else []
  {
    LoneStatus(s, c.i, c.removed);
    hide Without;
    hide Inv;
  }

  lemma FlightMoves(s: State, c: Choice)
    requires Inv(s) && Enabled(s, c) && !c.TakeExit?
    ensures forall p :: InFlight(s, p) ==> InFlight(Step(s, c), p)
    ensures forall p :: p in s.w.children && !InFlight(s, p) ==> !InFlight(Step(s, c), p)
  {
    var t := Next(s, c);
    if c.Exit? {
      assert s.w.alive == {c.pid} && s.w.pending == [];
      assert t.w.alive == {} && t.w.pending == [Status(c.pid, c.ok)];
      assert t.w.pending[0].pid == c.pid;
    } else if c.Launch? {
      assert t.w.pending == s.w.pending && (t.w.alive == s.w.alive || t.w.alive == s.w.alive + {c.pid});
    } else {
      assert t.w.alive == s.w.alive && t.w.pending == s.w.pending;
    }
  }

  lemma {:induction false} StaysGone(ss: seq<State>, cs: seq<Choice>, pid: nat, i: nat, j: nat)
    requires IsRun(ss, cs) && i <= j < |ss| && Gone(ss[i], pid)
    ensures Gone(ss[j], pid)
    decreases j
  {
    if i < j {
      StaysGone(ss, cs, pid, i, j - 1);
      InvAt(ss, cs, j - 1);
      FlightStep(ss[j - 1], cs[j - 1], pid);
    }
  }

  lemma {:induction false} Settled(ss: seq<State>, cs: seq<Choice>, pid: nat, i: nat, j: nat) returns (k: nat)
    requires IsRun(ss, cs) && i < j < |ss| && InFlight(ss[i], pid) && !InFlight(ss[j], pid)
    ensures i <= k < j && Settles(ss[k], cs[k], pid)
    decreases j
  {
    InvAt(ss, cs, j - 1);
    FlightStep(ss[j - 1], cs[j - 1], pid);
    if InFlight(ss[j - 1], pid) {
      k := j - 1;
    } else {
      k := Settled(ss, cs, pid, i, j - 1);
    }
  }

  /** No exit status is decided on twice. */
  lemma SettledOnce(ss: seq<State>, cs: seq<Choice>, pid: nat, i: nat, j: nat)
    requires IsRun(ss, cs) && i < j < |cs|
    ensures !(Settles(ss[i], cs[i], pid) && Settles(ss[j], cs[j], pid))
  {
    if Settles(ss[i], cs[i], pid) {
      InvAt(ss, cs, i);
      FlightStep(ss[i], cs[i], pid);
      StaysGone(ss, cs, pid, i + 1, j);
      InvAt(ss, cs, j);
      FlightStep(ss[j], cs[j], pid);
    }
  }

  /** Between two launches the exit status of the first command has been decided on, once. */
  lemma SettledBeforeNextLaunch(ss: seq<State>, cs: seq<Choice>, i: nat, j: nat, pid: nat, pid': nat) returns (k: nat)
    requires IsRun(ss, cs) && i < j && Launches(ss, cs, i, pid) && Launches(ss, cs, j, pid')
    ensures i < k < j && Settles(ss[k], cs[k], pid)
    ensures forall k' :: 0 <= k' < |cs| && k' != k ==> !Settles(ss[k'], cs[k'], pid)
  {
    InvAt(ss, cs, j);
    assert pid in ss[i + 1].w.alive;
    k := Settled(ss, cs, pid, i + 1, j);
    forall k' | 0 <= k' < |cs| && k' != k
      ensures !Settles(ss[k'], cs[k'], pid)
    {
      if k' < k { SettledOnce(ss, cs, pid, k', k); } else { SettledOnce(ss, cs, pid, k, k'); }
    }
  }

  /** Step `k` is the exit of a command with status `st`. */
  ghost predicate Exits(ss: seq<State>, cs: seq<Choice>, k: nat, st: Status)
    requires |ss| == |cs| + 1
  {
    k < |cs| && cs[k] == Exit(st.pid, st.ok) && Enabled(ss[k], cs[k])
  }

  /** A pending status comes from an exit, and stays until it is decided on. */
  lemma StatusStep(s: State, c: Choice, st: Status)
    requires Inv(s)
    ensures Step(s, c).w.pending == [st] && s.w.pending != [st] ==> c == Exit(st.pid, st.ok) && Enabled(s, c)
    ensures s.w.pending == [st] && Step(s, c).w.pending != [st] ==> Settles(s, c, st.pid) && s.w.pending[c.i] == st
    ensures c == Exit(st.pid, st.ok) && Enabled(s, c) ==> Step(s, c).w.pending == [st]
    ensures s.w.pending == [st] && Settles(s, c, st.pid) ==> Step(s, c).w.pending == []
  {
    if Enabled(s, c) {
      if c.TakeExit? {
        TakenStatus(s, c);
        LoneStatus(s, c.i, c.removed);
      } else if c.Exit? {
        assert s.w.pending == [] && [] + [Status(c.pid, c.ok)] == [Status(c.pid, c.ok)];
      } else {
        assert Next(s, c).w.pending == s.w.pending;
      }
    }
  }

  lemma {:induction false} StatusFrom(ss: seq<State>, cs: seq<Choice>, j: nat, st: Status) returns (k: nat)
    requires IsRun(ss, cs) && j < |ss| && ss[j].w.pending == [st]
    ensures k < j && Exits(ss, cs, k, st)
    decreases j
  {
    hide Step;
    InvAt(ss, cs, j - 1);
    StatusStep(ss[j - 1], cs[j - 1], st);
    if ss[j - 1].w.pending == [st] {
      k := StatusFrom(ss, cs, j - 1, st);
    } else {
      k := j - 1;
    }
  }

  /** The status a command exited with is the status decided on. */
  lemma {:induction false} SettledAs(ss: seq<State>, cs: seq<Choice>, k: nat, j: nat, st: Status) returns (m: nat)
    requires IsRun(ss, cs) && Exits(ss, cs, k, st) && k < j < |ss| && ss[j].w.pending != [st]
    ensures k < m < j && Settles(ss[m], cs[m], st.pid) && ss[m].w.pending == [st] && cs[m].i == 0
    decreases j
  {
    hide Step;
    InvAt(ss, cs, j - 1);
    StatusStep(ss[j - 1], cs[j - 1], st);
    if k == j - 1 {
      assert false;
    }
    if ss[j - 1].w.pending == [st] {
      m := j - 1;
      LoneStatus(ss[m], cs[m].i, cs[m].removed);
    } else {
      m := SettledAs(ss, cs, k, j - 1, st);
    }
  }

  /** The shared timer is unarmed at every loop head and at every entry to the main select. */
  lemma TimerUnarmed(ss: seq<State>, cs: seq<Choice>, i: nat)
    requires IsRun(ss, cs) && i < |ss|
    ensures ss[i].r.pc in {LoopHead, Publish, MainSelect, Drain} ==> ss[i].r.timer == None
    ensures ss[i].r.pc in {FirstBoot, Backoff} ==> ss[i].r.timer.Some?
  {
    InvAt(ss, cs, i);
  }

  ghost predicate Restarted(ss: seq<State>, cs: seq<Choice>, i: nat, j: nat)
    requires |ss| == |cs| + 1 && j <= |cs|
  {
    exists k :: i < k < j && cs[k] == TakeRestart && Enabled(ss[k], cs[k])
  }

  /** Step `i` decides on a failure that the runner is set up to restart from. */
  ghost predicate FailsAndRestarts(s: State, c: Choice) {
    c.TakeExit? && Enabled(s, c) && s.r.pc == MainSelect && !s.w.pending[c.i].ok && s.r.alwaysRestart && Looping(s)
  }

  lemma FailureWaits(s: State, c: Choice)
    requires FailsAndRestarts(s, c)
    ensures Step(s, c).r.pc == Backoff && Step(s, c).r.timer == Some(s.w.now + BACKOFF)
  {
  }

  /** The wait ends when the timer is due, at a restart request, or by leaving. */
  lemma WaitStep(s: State, c: Choice)
    ensures var t := Step(s, c);
            && t.w.now >= s.w.now
            && (s.r.pc.Done? ==> t.r.pc.Done?)
            && (s.r.pc == Backoff && s.r.timer.Some? ==>
                  || (t.r.pc == Backoff && t.r.timer == s.r.timer)
                  || t.r.pc.Done?
                  || (c == TakeRestart && Enabled(s, c))
                  || t.w.now >= s.r.timer.value)
  {
    StepKeeps(s, c);
  }

  lemma RestartedLater(ss: seq<State>, cs: seq<Choice>, i: nat, j: nat)
    requires |ss| == |cs| + 1 && i < j < |cs|
    ensures Restarted(ss, cs, i, j) ==> Restarted(ss, cs, i, j + 1)
    ensures cs[j] == TakeRestart && Enabled(ss[j], cs[j]) ==> Restarted(ss, cs, i, j + 1)
  {
    hide Enabled;
  }

  lemma {:induction false} WaitingAt(ss: seq<State>, cs: seq<Choice>, i: nat, j: nat)
    requires IsRun(ss, cs) && i < j < |ss| && FailsAndRestarts(ss[i], cs[i])
    ensures var due := ss[i].w.now + BACKOFF;
            || Restarted(ss, cs, i, j)
            || ss[j].w.now >= due
            || ss[j].r.pc.Done?
            || (ss[j].r.pc == Backoff && ss[j].r.timer == Some(due))
    decreases j
  {
    hide Step;
    hide Enabled;
    hide Restarted;
    hide FailsAndRestarts;
    if j == i + 1 {
      FailureWaits(ss[i], cs[i]);
    } else {
      WaitingAt(ss, cs, i, j - 1);
      WaitStep(ss[j - 1], cs[j - 1]);
      RestartedLater(ss, cs, i, j - 1);
    }
  }

  /** After a failing exit, no command starts for five seconds unless a restart was asked for. */
  lemma BackoffRespected(ss: seq<State>, cs: seq<Choice>, i: nat, j: nat, pid: nat)
    requires IsRun(ss, cs) && i < j && j < |cs| && FailsAndRestarts(ss[i], cs[i]) && Launches(ss, cs, j, pid)
    ensures ss[j].w.now >= ss[i].w.now + BACKOFF || Restarted(ss, cs, i, j)
  {
    WaitingAt(ss, cs, i, j);
  }

  // ---------- pid file ----------

  /** Step `k` writes the pid file. */
  ghost predicate Writes(s: State, c: Choice) {
    c == WritePid(true) && Enabled(s, c) && WritesPid(s) && !Refuses(s)
  }

  lemma {:induction false} BootOver(ss: seq<State>, cs: seq<Choice>, i: nat, j: nat)
    requires IsRun(ss, cs) && i <= j < |ss| && !ss[i].r.firstBoot
    ensures !ss[j].r.firstBoot
    decreases j
  {
    hide Step;
    if i < j {
      BootOver(ss, cs, i, j - 1);
      StepKeeps(ss[j - 1], cs[j - 1]);
    }
  }

  lemma {:induction false} Fixed(ss: seq<State>, cs: seq<Choice>, i: nat)
    requires IsRun(ss, cs) && i < |ss|
    ensures ss[i].cfg == ss[0].cfg
    decreases i
  {
    hide Step;
    if i > 0 {
      Fixed(ss, cs, i - 1);
      StepKeeps(ss[i - 1], cs[i - 1]);
    }
  }

  /** Attached mode: once the file has been written it is never refused again, and whenever the
      runner waits for its command the file holds the latest command started. */
  lemma {:induction false} AttachedPidFile(ss: seq<State>, cs: seq<Choice>, i: nat, j: nat)
    requires IsRun(ss, cs) && ss[0].cfg.mode == LoopAttached && i < j < |ss| && Writes(ss[i], cs[i])
    ensures ss[j].r.pc == Publish ==> !Refuses(ss[j])
    ensures ss[j].r.pc != Done(PidRefused)
    ensures ss[j].r.pc in {MainSelect, Drain} ==> ss[j].w.file == Some(ss[j].r.cmd)
    decreases j
  {
    hide Step;
    hide Refuses;
    hide Writes;
    Fixed(ss, cs, j);
    FileStep(ss[i], cs[i]);
    BootOver(ss, cs, i + 1, j);
    InvAt(ss, cs, j);
    NotRefused(ss[j]);
    StepKeeps(ss[j - 1], cs[j - 1]);
    if j > i + 1 {
      AttachedPidFile(ss, cs, i, j - 1);
    } else {
      WritesThenWaits(ss[i], cs[i]);
    }
  }

  lemma WritesThenWaits(s: State, c: Choice)
    requires Writes(s, c)
    ensures Step(s, c).r.pc == MainSelect
  {
  }

  lemma NotRefused(s: State)
    requires Inv(s) && s.cfg.mode == LoopAttached && !s.r.firstBoot
    ensures s.r.pc == Publish ==> !Refuses(s)
    ensures s.r.pc in {MainSelect, Drain} ==> s.w.file == Some(s.r.cmd)
  {
  }

  /** `cmd` is the pid of the latest launch. */
  lemma {:induction false} CmdIsLatest(ss: seq<State>, cs: seq<Choice>, i: nat, j: nat, pid: nat)
    requires IsRun(ss, cs) && i < j < |ss| && Launches(ss, cs, i, pid)
    requires forall k, p :: i < k < j ==> !Launches(ss, cs, k, p)
    ensures ss[j].r.cmd == pid
    decreases j
  {
    if j == i + 1 {
      assert ss[j] == Step(ss[i], cs[i]);
    } else {
      CmdIsLatest(ss, cs, i, j - 1, pid);
      StepKeeps(ss[j - 1], cs[j - 1]);
      hide Step;
      hide Enabled;
      if cs[j - 1].Launch? {
        assert !Launches(ss, cs, j - 1, cs[j - 1].pid);
      }
    }
  }

  /** Until first boot is over the file is untouched. */
  lemma {:induction false} UntouchedInFirstBoot(ss: seq<State>, cs: seq<Choice>, j: nat)
    requires IsRun(ss, cs) && j < |ss| && ss[j].r.firstBoot
    ensures forall i :: 0 <= i <= j ==> ss[i].w.file == ss[0].w.file && ss[i].r.firstBoot
    decreases j
  {
    if j > 0 {
      InvAt(ss, cs, j - 1);
      StepKeeps(ss[j - 1], cs[j - 1]);
      FileStep(ss[j - 1], cs[j - 1]);
      hide Step;
      UntouchedInFirstBoot(ss, cs, j - 1);
    }
  }

  /** A command that fails during first boot never gets a pid file: whatever was there stays. */
  lemma {:induction false} FailedEarlyWritesNothing(ss: seq<State>, cs: seq<Choice>, j: nat)
    requires IsRun(ss, cs) && j < |ss| && ss[j].r.pc == Done(FailedEarly)
    ensures forall i :: 0 <= i <= j ==> ss[i].w.file == ss[0].w.file
    ensures forall i :: 0 <= i < j ==> !Writes(ss[i], cs[i])
    decreases j
  {
    var s, c := ss[j - 1], cs[j - 1];
    InvAt(ss, cs, j - 1);
    StepKeeps(s, c);
    if s.r.pc == Done(FailedEarly) {
      FailedEarlyWritesNothing(ss, cs, j - 1);
      DoneStays(s, c);
    } else {
      UntouchedInFirstBoot(ss, cs, j - 1);
      hide Step;
      hide Writes;
      forall i | 0 <= i < j
        ensures !Writes(ss[i], cs[i])
      {
        FileStep(ss[i], cs[i]);
        OnlyPublishWrites(ss[i], cs[i]);
        assert ss[i + 1] == Step(ss[i], cs[i]);
        assert i < j - 1 ==> ss[i + 1].r.firstBoot;
      }
    }
  }

  lemma OnlyPublishWrites(s: State, c: Choice)
    ensures Writes(s, c) ==> s.r.pc == Publish
  {
  }

  lemma DoneStays(s: State, c: Choice)
    requires s.r.pc.Done?
    ensures Step(s, c).w.file == s.w.file && !Writes(s, c)
  {
  }

  /** Step `k` restarts automatically and removes the pid file first. */
  ghost predicate RemovesAndRestarts(s: State, c: Choice) {
    && c.TakeExit? && c.removed && Enabled(s, c) && s.r.pc == MainSelect
    && Looping(s) && AfterHook(s, s.w.pending[c.i].ok).r.alwaysRestart
  }

  ghost predicate Removed(ss: seq<State>, cs: seq<Choice>, j: nat)
    requires |ss| == |cs| + 1 && j <= |cs|
  {
    exists i :: 0 <= i < j && RemovesAndRestarts(ss[i], cs[i])
  }

  lemma BootNeverRemoves(s: State, c: Choice)
    requires Inv(s) && s.r.firstBoot
    ensures !RemovesAndRestarts(s, c)
  {
  }

  lemma SteadyNeverWrites(s: State, c: Choice)
    requires !s.r.firstBoot && s.cfg.mode == LoopDetached
    ensures !Writes(s, c)
  {
  }

  /** Detached mode records the runner itself, and only once: the file is there as long as no
      automatic restart has removed it, and is never written again after one has. */
  lemma {:induction false} DetachedPidFile(ss: seq<State>, cs: seq<Choice>, j: nat)
    requires IsRun(ss, cs) && ss[0].cfg.mode == LoopDetached && j < |ss| && !ss[j].r.firstBoot
    ensures ss[j].w.file == Some(ss[0].cfg.self) <==> !Removed(ss, cs, j)
    ensures ss[j].w.file == None <==> Removed(ss, cs, j)
    decreases j
  {
    hide Step;
    hide Writes;
    hide RemovesAndRestarts;
    var s, c := ss[j - 1], cs[j - 1];
    Fixed(ss, cs, j - 1);
    FileStep(s, c);
    InvAt(ss, cs, j - 1);
    assert Removed(ss, cs, j) <==> Removed(ss, cs, j - 1) || RemovesAndRestarts(s, c);
    if s.r.firstBoot {
      UntouchedInFirstBoot(ss, cs, j - 1);
      BootNeverRemoves(s, c);
      forall i | 0 <= i < j - 1
        ensures !RemovesAndRestarts(ss[i], cs[i])
      {
        InvAt(ss, cs, i);
        BootNeverRemoves(ss[i], cs[i]);
      }
    } else {
      SteadyNeverWrites(s, c);
      DetachedPidFile(ss, cs, j - 1);
    }
  }

  /** Such a run: the command exits, is restarted, and runs with no pid file left. */
  lemma DetachedFileLost() returns (ss: seq<State>, cs: seq<Choice>)
    ensures IsRun(ss, cs) && ss[0].cfg.mode == LoopDetached && |cs| == 8
    ensures RemovesAndRestarts(ss[5], cs[5])
    ensures ss[8].r.pc == MainSelect && ss[8].w.alive == {11} && ss[8].w.file == None
  {
    var cfg := Config(LoopDetached, false, 1);
    ss, cs := Boots(cfg, true, Plain, false, 0);
    var s4 := Booted(cfg, true, Plain, false, 0);
    var s5 := s4.(w := s4.w.(alive := {}, pending := [Status(10, true)]));
    var s6 := State(cfg, s4.r.(pc := LoopHead), s4.w.(alive := {}, pending := [], file := None));
    var s7 := State(cfg, s6.r.(pc := Publish, cmd := 11), s6.w.(children := {10, 11}, alive := {11}));
    assert Step(s4, Exit(10, true)) == s5 by {
      assert {10} - {10} == {} && [] + [Status(10, true)] == [Status(10, true)];
    }
    assert Step(s5, TakeExit(0, true)) == s6 by { assert Without([Status(10, true)], 0) == []; }
    assert Step(s6, Launch(11, Ran)) == s7 by { assert {} + {11} == {11} && {10} + {11} == {10, 11}; }
    assert Step(s7, WritePid(true)) == Goto(s7, MainSelect);
    assert RemovesAndRestarts(s5, TakeExit(0, true));
    hide Step;
    hide RemovesAndRestarts;
    ss, cs := Extend(ss, cs, Exit(10, true));
    ss, cs := Extend(ss, cs, TakeExit(0, true));
    ss, cs := Extend(ss, cs, Launch(11, Ran));
    ss, cs := Extend(ss, cs, WritePid(true));
  }

  lemma LaunchStarts(s: State, pid: nat)
    requires Enabled(s, Launch(pid, Ran))
    ensures var t := Step(s, Launch(pid, Ran));
            && t.r.cmd == pid && t.r.firstBoot == s.r.firstBoot && pid in t.w.children && pid in t.w.alive
            && t.r.pc == (if s.r.firstBoot then FirstBoot else Publish)
            && (s.r.firstBoot ==> t.r.timer == Some(s.w.now + RELIEF))
  {
  }

  // ---------- building runs ----------

  lemma Extend(ss: seq<State>, cs: seq<Choice>, c: Choice) returns (ss': seq<State>, cs': seq<Choice>)
    requires IsRun(ss, cs)
    ensures IsRun(ss', cs') && cs' == cs + [c] && ss' == ss + [Step(ss[|cs|], c)]
  {
    hide Step;
    ss', cs' := ss + [Step(ss[|cs|], c)], cs + [c];
  }

  /** A looping runner with pid 1 whose first command, pid 10, has just passed first boot. */
  function Booted(cfg: Config, auto: bool, build: BuildHook, success: bool, wg: int): State {
    State(cfg, Control(MainSelect, false, auto, build, success, 10, None),
          World(2000, {10}, {10}, [], false, {}, Some(if cfg.mode == LoopAttached then 10 else 1), wg))
  }

  lemma Boots(cfg: Config, auto: bool, build: BuildHook, success: bool, wg: int)
    returns (ss: seq<State>, cs: seq<Choice>)
    requires cfg.mode != Once && cfg.self == 1 && build != ResetRestart
    ensures IsRun(ss, cs) && ss[|cs|] == Booted(cfg, auto, build, success, wg)
    ensures cs == [Launch(10, Ran), Pass(RELIEF), TakeTimer, WritePid(true)]
    ensures ss[0] == State(cfg, Control(LoopHead, true, auto, build, success, 0, None),
                           World(0, {}, {}, [], false, {}, None, wg))
  {
    var r := Control(LoopHead, true, auto, build, success, 0, None);
    var s0 := State(cfg, r, World(0, {}, {}, [], false, {}, None, wg));
    var r1 := Control(FirstBoot, true, auto, build, success, 10, Some(RELIEF));
    var s1 := State(cfg, r1, World(0, {10}, {10}, [], false, {}, None, wg));
    var s2 := State(cfg, r1, World(RELIEF, {10}, {10}, [], false, {}, None, wg));
    var s3 := State(cfg, r1.(pc := Publish, timer := None), s2.w);
    BootsHalfway(s0, s1, s2);
    assert Step(s2, TakeTimer) == s3;
    assert Step(s3, WritePid(true)) == Booted(cfg, auto, build, success, wg);
    hide Step;
    ss, cs := Extend([s0], [], Launch(10, Ran));
    ss, cs := Extend(ss, cs, Pass(RELIEF));
    ss, cs := Extend(ss, cs, TakeTimer);
    ss, cs := Extend(ss, cs, WritePid(true));
  }

  lemma BootsHalfway(s0: State, s1: State, s2: State)
    requires Enabled(s0, Launch(10, Ran)) && s0.r.firstBoot && s0.r.build != ResetRestart
    requires s0.w.now == 0 && s0.w.children == {} && s0.w.alive == {}
    requires s1.cfg == s0.cfg && s1.r == s0.r.(pc := FirstBoot, cmd := 10, timer := Some(RELIEF))
    requires s1.w == s0.w.(children := {10}, alive := {10})
    requires s2 == s1.(w := s1.w.(now := RELIEF))
    ensures Step(s0, Launch(10, Ran)) == s1 && Step(s1, Pass(RELIEF)) == s2
  {
    assert {} + {10} == {10};
  }
}
