/**
Going to the background: `Background` waits in the parent while the child reports through a
status file with `NotifyForeground`, and removes that file once it is up.

A run interleaves the child's reports, the child's death and what the parent's select takes: a
signal, a file event, the child's exit status or a tick.  File events may be dropped, delayed,
repeated or coalesced at will; they only never tell of something that has not happened.
Writing the file is one step, and no report is the empty string.
*/
module Handshake {
  import opened Basics

  const UP: string := "up"

  datatype File = Missing | Present(content: string)

  datatype Outcome = WentToBackground | ChildExited(status: int) | TimedOut | SignalFailed

  datatype Parent = Looping(childAlive: bool) | Returned(outcome: Outcome)

  datatype Child = Running | Exited(status: int)

  /** `isChild` and `hasFile` are the child's two environment variables; `wrote` and `removed`
      are what file events can tell. */
  datatype State = State(parent: Parent, child: Child, isChild: bool, hasFile: bool, file: File, wrote: bool,
                         removed: bool)

  /** An event of both kinds is equal to neither. */
  datatype Event = WriteEvent | RemoveEvent | MixedEvent

  datatype Choice =
    // child
    | Notify(report: string, ok: bool)
    | Die(status: int)
    // parent
    | TakeSignal(ignored: bool, sent: bool)
    | TakeEvent(event: Event)
    | TakeStatus
    | Tick(readable: bool)

  predicate Enabled(s: State, c: Choice) {
    match c
    case Notify(report, _) => s.child.Running? && report != ""
    case Die(_) => s.child.Running?
    case TakeSignal(_, _) => s.parent.Looping?
    case TakeEvent(e) => s.parent.Looping? && (e == WriteEvent ==> s.wrote) && (e == RemoveEvent ==> s.removed)
    case TakeStatus => s.parent.Looping? && s.child.Exited?
    case Tick(_) => s.parent.Looping?
  }

  /** `NotifyForeground`. */
  function Notified(s: State, report: string, ok: bool): State {
    if !s.isChild || !s.hasFile then s
    else if report == UP then
      var s1 := s.(isChild := false, hasFile := false);
      if ok && s.file.Present? then s1.(file := Missing, removed := true) else s1
    else if ok then s.(file := Present(report), wrote := true)
    else s
  }

  /** Returning removes the status file. */
  function Return(s: State, o: Outcome): State { s.(parent := Returned(o), file := Missing) }

  function Kill(s: State): State { if s.child.Running? then s.(child := Exited(-1)) else s }

  function Ticked(s: State, readable: bool): State
    requires s.parent.Looping?
  {
    if s.file == Missing then Return(s, WentToBackground)
    else
      var alive := s.parent.childAlive || (readable && s.file.content != "");
      if alive then s.(parent := Looping(true)) else Return(Kill(s), TimedOut)
  }

  function Next(s: State, c: Choice): State
    requires Enabled(s, c)
  {
    match c
    case Notify(report, ok) => Notified(s, report, ok)
    case Die(status) => s.(child := Exited(status))
    case TakeSignal(ignored, sent) => if ignored || sent then s else Return(Kill(s), SignalFailed)
    case TakeEvent(e) =>
      if e == RemoveEvent then Return(s, WentToBackground)
      else if e == WriteEvent then s.(parent := Looping(true))
      else s
    case TakeStatus => Return(s, ChildExited(s.child.status))
    case Tick(readable) => Ticked(s, readable)
  }

  function Step(s: State, c: Choice): State { if Enabled(s, c) then Next(s, c) else s }

  const START := State(Looping(false), Running, true, true, Present(""), false, false)

  ghost predicate IsRun(ss: seq<State>, cs: seq<Choice>) {
    && |ss| == |cs| + 1 && ss[0] == START
    && forall i :: 0 <= i < |cs| ==> ss[i + 1] == Step(ss[i], cs[i])
  }

  // ---------- what happened in a run ----------

  /** The child writes a status. */
  ghost predicate Reports(s: State, c: Choice) {
    c.Notify? && Enabled(s, c) && s.isChild && s.hasFile && c.report != "up" && c.ok
  }

  /** The child says it is up; with `ok` the file is really removed. */
  ghost predicate SaysUp(s: State, c: Choice) {
    c.Notify? && Enabled(s, c) && s.isChild && s.hasFile && c.report == "up"
  }

  ghost predicate ReportedBefore(ss: seq<State>, cs: seq<Choice>, j: nat)
    requires |ss| == |cs| + 1 && j <= |cs|
  {
    exists k :: 0 <= k < j && Reports(ss[k], cs[k])
  }

  ghost predicate RemovedBefore(ss: seq<State>, cs: seq<Choice>, j: nat)
    requires |ss| == |cs| + 1 && j <= |cs|
  {
    exists k :: 0 <= k < j && SaysUp(ss[k], cs[k]) && ss[k].file.Present? && cs[k].ok
  }

  /** The parent handles a tick. */
  ghost predicate Ticks(s: State, c: Choice) { c.Tick? && s.parent.Looping? }

  ghost predicate Inv(s: State) {
    && s.isChild == s.hasFile
    && (s.removed ==> s.file == Missing && !s.hasFile)
    && (s.parent.Looping? ==>
          && (s.file == Missing <==> s.removed)
          && (s.file.Present? ==> (s.file.content == "" <==> !s.wrote))
          && (s.parent.childAlive ==> s.wrote))
    && (s.parent == Returned(WentToBackground) ==> s.removed)
  }

  lemma InvStep(s: State, c: Choice)
    requires Inv(s)
    ensures Inv(Step(s, c))
    ensures Step(s, c).wrote <==> s.wrote || Reports(s, c)
    ensures Step(s, c).removed <==> s.removed || (SaysUp(s, c) && s.file.Present? && c.ok)
    ensures s.parent.Returned? ==> Step(s, c).parent == s.parent
    ensures Step(s, c).parent == Returned(TimedOut) && s.parent.Looping? ==> Ticks(s, c)
  {
  }

  lemma {:induction false} InvAt(ss: seq<State>, cs: seq<Choice>, j: nat)
    requires IsRun(ss, cs) && j <= |cs|
    ensures Inv(ss[j])
    ensures ss[j].wrote <==> ReportedBefore(ss, cs, j)
    ensures ss[j].removed <==> RemovedBefore(ss, cs, j)
    decreases j
  {
    if j > 0 {
      InvAt(ss, cs, j - 1);
      InvStep(ss[j - 1], cs[j - 1]);
      hide Step;
      hide Reports;
      hide SaysUp;
    }
  }

  // ---------- theorems ----------

  /** `Background` returns nil only after the child has removed the status file. */
  lemma BackgroundMeansUp(ss: seq<State>, cs: seq<Choice>, j: nat)
    requires IsRun(ss, cs) && j <= |cs| && ss[j].parent == Returned(WentToBackground)
    ensures RemovedBefore(ss, cs, j)
  {
    InvAt(ss, cs, j);
  }

  /** A tick that can read the file decides exactly: the file gone, the parent leaves; a status
      written before this tick, it waits on; none, it kills the child. */
  lemma TickDecides(ss: seq<State>, cs: seq<Choice>, k: nat)
    requires IsRun(ss, cs) && k < |cs| && cs[k] == Tick(true) && ss[k].parent.Looping?
    ensures ss[k + 1].parent == Returned(WentToBackground) <==> RemovedBefore(ss, cs, k)
    ensures ss[k + 1].parent == Returned(TimedOut) <==> !RemovedBefore(ss, cs, k) && !ReportedBefore(ss, cs, k)
    ensures ss[k + 1].parent.Looping? <==> !RemovedBefore(ss, cs, k) && ReportedBefore(ss, cs, k)
  {
    InvAt(ss, cs, k);
  }

  /** After the removal the first tick handled ends the wait, readable or not. */
  lemma FirstTickAfterRemoval(ss: seq<State>, cs: seq<Choice>, k: nat)
    requires IsRun(ss, cs) && k < |cs| && Ticks(ss[k], cs[k]) && RemovedBefore(ss, cs, k)
    ensures ss[k + 1].parent == Returned(WentToBackground)
  {
    InvAt(ss, cs, k);
  }

  /** The parent learns that the child is alive: it takes a write event, or a poll reads a status. */
  ghost predicate Hears(ss: seq<State>, cs: seq<Choice>, k: nat)
    requires |ss| == |cs| + 1
  {
    && k < |cs| && Enabled(ss[k], cs[k])
    && (cs[k] == TakeEvent(WriteEvent) || (cs[k] == Tick(true) && ss[k].file.Present? && ReportedBefore(ss, cs, k)))
  }

  ghost predicate Heard(ss: seq<State>, cs: seq<Choice>, j: nat)
    requires |ss| == |cs| + 1
  {
    exists k :: 0 <= k < j && Hears(ss, cs, k)
  }

  lemma AliveStep(s: State, c: Choice)
    requires Inv(s)
    ensures Step(s, c).parent.Looping? ==>
              && s.parent.Looping?
              && (Step(s, c).parent.childAlive <==>
                    || s.parent.childAlive
                    || (c == TakeEvent(WriteEvent) && Enabled(s, c))
                    || (c == Tick(true) && s.file.Present? && s.wrote))
  {
  }

  /** While it waits, the parent takes the child for alive exactly if it has heard of it. */
  lemma {:induction false} AliveIffHeard(ss: seq<State>, cs: seq<Choice>, j: nat)
    requires IsRun(ss, cs) && j <= |cs| && ss[j].parent.Looping?
    ensures ss[j].parent.childAlive <==> Heard(ss, cs, j)
    decreases j
  {
    if j > 0 {
      InvAt(ss, cs, j - 1);
      AliveStep(ss[j - 1], cs[j - 1]);
      AliveIffHeard(ss, cs, j - 1);
      assert Heard(ss, cs, j) <==> Heard(ss, cs, j - 1) || Hears(ss, cs, j - 1);
      hide Step;
    }
  }

  /** A tick ends the wait exactly if the file is gone; it kills the child exactly if the file is
      still there, nothing was heard before, and this poll does not find a status either; in all
      other cases the parent waits on. */
  lemma TimedOutIff(ss: seq<State>, cs: seq<Choice>, k: nat)
    requires IsRun(ss, cs) && k < |cs| && Ticks(ss[k], cs[k])
    ensures ss[k + 1].parent == Returned(WentToBackground) <==> RemovedBefore(ss, cs, k)
    ensures ss[k + 1].parent == Returned(TimedOut)
            <==> && !RemovedBefore(ss, cs, k)
                 && !Heard(ss, cs, k)
                 && !(cs[k].readable && ReportedBefore(ss, cs, k))
    ensures ss[k + 1].parent.Looping? || ss[k + 1].parent in {Returned(WentToBackground), Returned(TimedOut)}
  {
    InvAt(ss, cs, k);
    AliveIffHeard(ss, cs, k);
    hide Heard;
    hide ReportedBefore;
    hide RemovedBefore;
  }

  /** A child killed for a time-out was killed by a tick before which nothing was heard of it; if
      that tick could read the file, the child had written no status at all. */
  lemma {:induction false} TimedOutUnheard(ss: seq<State>, cs: seq<Choice>, j: nat) returns (k: nat)
    requires IsRun(ss, cs) && j <= |cs| && ss[j].parent == Returned(TimedOut)
    ensures k < j && Ticks(ss[k], cs[k]) && ss[k + 1].parent == Returned(TimedOut) && ss[k + 1].child.Exited?
    ensures !RemovedBefore(ss, cs, k) && !Heard(ss, cs, k)
    ensures cs[k].readable ==> !ReportedBefore(ss, cs, k)
    decreases j
  {
    InvAt(ss, cs, j - 1);
    InvStep(ss[j - 1], cs[j - 1]);
    if ss[j - 1].parent.Returned? {
      k := TimedOutUnheard(ss, cs, j - 1);
    } else {
      k := j - 1;
      TimedOutIff(ss, cs, k);
    }
  }

  /** Once the child has said it is up, no report of its own touches the file again: it stays
      removed, or, if it could not be removed, stays as it was while the parent waits. */
  lemma {:induction false} UpIsFinal(ss: seq<State>, cs: seq<Choice>, k: nat, j: nat)
    requires IsRun(ss, cs) && k < j <= |cs| && SaysUp(ss[k], cs[k])
    ensures !ss[j].isChild
    ensures ss[j].file == Missing || ss[j].file == ss[k].file
    ensures ss[k + 1].file == Missing ==> ss[j].file == Missing
    ensures j < |cs| && cs[j].Notify? ==> ss[j + 1] == ss[j]
    decreases j
  {
    InvAt(ss, cs, j - 1);
    if j > k + 1 {
      UpIsFinal(ss, cs, k, j - 1);
    }
  }

  /** An exit status passed on by the parent is the one the child died with. */
  lemma {:induction false} StatusIsTheChilds(ss: seq<State>, cs: seq<Choice>, j: nat, status: int) returns (k: nat)
    requires IsRun(ss, cs) && j <= |cs|
    requires ss[j].parent == Returned(ChildExited(status)) || (ss[j].parent.Looping? && ss[j].child == Exited(status))
    ensures k < j && cs[k] == Die(status) && ss[k].child.Running?
    decreases j
  {
    DeathStep(ss[j - 1], cs[j - 1], status);
    InvStepParent(ss[j - 1], cs[j - 1]);
    hide Step;
    if cs[j - 1] == Die(status) && ss[j - 1].child.Running? {
      k := j - 1;
    } else {
      k := StatusIsTheChilds(ss, cs, j - 1, status);
    }
  }

  lemma InvStepParent(s: State, c: Choice)
    ensures s.parent.Returned? ==> Step(s, c).parent == s.parent
  {
  }

  lemma DeathStep(s: State, c: Choice, status: int)
    ensures s.parent.Looping? && Step(s, c).parent == Returned(ChildExited(status)) ==> s.child == Exited(status)
    ensures Step(s, c).parent.Looping? ==> s.parent.Looping?
    ensures s.parent.Looping? && Step(s, c).parent.Looping? && Step(s, c).child == Exited(status) ==>
              s.child == Exited(status) || (c == Die(status) && s.child.Running?)
  {
  }

  ghost predicate UpBefore(ss: seq<State>, cs: seq<Choice>, j: nat)
    requires |ss| == |cs| + 1 && j <= |cs|
  {
    exists k :: 0 <= k < j && SaysUp(ss[k], cs[k])
  }

  /** Until it says it is up, the child can report. */
  lemma {:induction false} ChildUntilUp(ss: seq<State>, cs: seq<Choice>, j: nat)
    requires IsRun(ss, cs) && j <= |cs|
    ensures ss[j].isChild && ss[j].hasFile <==> !UpBefore(ss, cs, j)
    decreases j
  {
    if j > 0 {
      ChildUntilUp(ss, cs, j - 1);
      ChildStep(ss[j - 1], cs[j - 1]);
      hide Step;
      hide SaysUp;
      assert UpBefore(ss, cs, j) <==> UpBefore(ss, cs, j - 1) || SaysUp(ss[j - 1], cs[j - 1]);
    }
  }

  lemma ChildStep(s: State, c: Choice)
    ensures var t := Step(s, c); t.isChild && t.hasFile <==> s.isChild && s.hasFile && !SaysUp(s, c)
  {
  }

  /** The parent's wait is over at once when it takes the child's exit status, and it is the status
      the child died with that is passed on; from the death on that case is ready. */
  lemma StatusPassedOn(ss: seq<State>, cs: seq<Choice>, k: nat) returns (d: nat)
    requires IsRun(ss, cs) && k < |cs| && cs[k] == TakeStatus && Enabled(ss[k], TakeStatus)
    ensures d < k && cs[d].Die? && ss[d].child.Running?
    ensures ss[k + 1].parent == Returned(ChildExited(cs[d].status))
  {
    d := StatusIsTheChilds(ss, cs, k, ss[k].child.status);
  }

  lemma {:induction false} DeathIsNoticed(ss: seq<State>, cs: seq<Choice>, d: nat, j: nat)
    requires IsRun(ss, cs) && d < j <= |cs| && cs[d].Die? && ss[d].child.Running?
    ensures ss[j].child == Exited(cs[d].status)
    ensures ss[j].parent.Looping? ==> Enabled(ss[j], TakeStatus)
    decreases j
  {
    if j > d + 1 {
      DeathIsNoticed(ss, cs, d, j - 1);
    }
  }

  /** A remove event can be taken exactly after the removal, and ends the wait at once; a write
      event exactly after a report, and then the parent waits on; a mixed event changes nothing. */
  lemma EventDecides(ss: seq<State>, cs: seq<Choice>, k: nat)
    requires IsRun(ss, cs) && k < |cs| && cs[k].TakeEvent? && ss[k].parent.Looping?
    ensures cs[k].event == RemoveEvent ==>
              && (Enabled(ss[k], cs[k]) <==> RemovedBefore(ss, cs, k))
              && (RemovedBefore(ss, cs, k) ==> ss[k + 1].parent == Returned(WentToBackground))
    ensures cs[k].event == WriteEvent ==>
              && (Enabled(ss[k], cs[k]) <==> ReportedBefore(ss, cs, k))
              && (ReportedBefore(ss, cs, k) ==> ss[k + 1].parent == Looping(true))
    ensures cs[k].event == MixedEvent ==> ss[k + 1] == ss[k]
  {
    InvAt(ss, cs, k);
    hide RemovedBefore;
    hide ReportedBefore;
  }

  /** A signal ends the wait exactly if it was meant for the child and could not be sent on, and
      the child is dead then; otherwise nothing changes. */
  lemma SignalDecides(ss: seq<State>, cs: seq<Choice>, k: nat)
    requires IsRun(ss, cs) && k < |cs| && cs[k].TakeSignal? && ss[k].parent.Looping?
    ensures !cs[k].ignored && !cs[k].sent ==> ss[k + 1].parent == Returned(SignalFailed) && ss[k + 1].child.Exited?
    ensures cs[k].ignored || cs[k].sent ==> ss[k + 1] == ss[k]
  {
  }

  ghost predicate DiedBefore(ss: seq<State>, cs: seq<Choice>, j: nat)
    requires |ss| == |cs| + 1 && j <= |cs|
  {
    exists d :: 0 <= d < j && cs[d].Die? && ss[d].child.Running?
  }

  /**
  Exactly four things end the wait: a signal that could not be sent on; the removal of the file,
  told by an event or found by a tick; the child's exit; and a tick with nothing heard of the
  child.
  */
  lemma WaitEndsIff(ss: seq<State>, cs: seq<Choice>, k: nat)
    requires IsRun(ss, cs) && k < |cs| && ss[k].parent.Looping?
    ensures ss[k + 1].parent.Returned?
            <==> match cs[k]
                 case TakeSignal(ignored, sent) => !ignored && !sent
                 case TakeEvent(e) => e == RemoveEvent && RemovedBefore(ss, cs, k)
                 case TakeStatus => DiedBefore(ss, cs, k)
                 case Tick(readable) =>
                   RemovedBefore(ss, cs, k) || !(Heard(ss, cs, k) || (readable && ReportedBefore(ss, cs, k)))
                 case _ => false
  {
    match cs[k]
    case TakeSignal(_, _) => SignalDecides(ss, cs, k);
    case TakeEvent(_) => EventDecides(ss, cs, k);
    case TakeStatus => DeadIffDied(ss, cs, k);
    case Tick(_) => TimedOutIff(ss, cs, k);
    case _ =>
  }

  lemma DeadIffDied(ss: seq<State>, cs: seq<Choice>, k: nat)
    requires IsRun(ss, cs) && k <= |cs| && ss[k].parent.Looping?
    ensures ss[k].child.Exited? <==> DiedBefore(ss, cs, k)
  {
    if ss[k].child.Exited? {
      var d := StatusIsTheChilds(ss, cs, k, ss[k].child.status);
    }
    if DiedBefore(ss, cs, k) {
      var d: nat :| 0 <= d < k && cs[d].Die? && ss[d].child.Running?;
      DeathIsNoticed(ss, cs, d, k);
    }
  }

  /** What the status file should hold: the last report written, nothing before the first. */
  ghost function LastReport(ss: seq<State>, cs: seq<Choice>, j: nat): string
    requires |ss| == |cs| + 1 && j <= |cs|
  {
    if j == 0 then "" else if Reports(ss[j - 1], cs[j - 1]) then cs[j - 1].report else LastReport(ss, cs, j - 1)
  }

  /** While the parent waits the file holds the child's last report, until the child removes it. */
  lemma {:induction false} FileIsLastReport(ss: seq<State>, cs: seq<Choice>, j: nat)
    requires IsRun(ss, cs) && j <= |cs| && ss[j].parent.Looping?
    ensures ss[j].file == if RemovedBefore(ss, cs, j) then Missing else Present(LastReport(ss, cs, j))
    decreases j
  {
    InvAt(ss, cs, j);
    if j > 0 {
      InvAt(ss, cs, j - 1);
      InvStep(ss[j - 1], cs[j - 1]);
      hide RemovedBefore;
      hide ReportedBefore;
      FileIsLastReport(ss, cs, j - 1);
      FileStep(ss[j - 1], cs[j - 1]);
      hide Step;
      hide Reports;
    }
  }

  lemma FileStep(s: State, c: Choice)
    requires Inv(s) && s.parent.Looping? && Step(s, c).parent.Looping?
    ensures Step(s, c).file.Present? ==>
              s.file.Present? && Step(s, c).file.content == if Reports(s, c) then c.report else s.file.content
  {
  }

  /** However `Background` returned, it leaves no status file, and the child never makes another. */
  lemma {:induction false} LeavesNoFile(ss: seq<State>, cs: seq<Choice>, j: nat)
    requires IsRun(ss, cs) && j <= |cs| && ss[j].parent.Returned?
    ensures ss[j].file == Missing && (ss[j].child.Exited? || !ss[j].hasFile)
    decreases j
  {
    InvAt(ss, cs, j - 1);
    InvStep(ss[j - 1], cs[j - 1]);
    if ss[j - 1].parent.Returned? {
      LeavesNoFile(ss, cs, j - 1);
    }
  }

  /** The proviso on reading is needed: with the write event dropped and the poll failing, a
      child that did report is killed. */
  lemma UnreadableFileKills() returns (ss: seq<State>, cs: seq<Choice>)
    ensures IsRun(ss, cs) && |cs| == 2
    ensures ReportedBefore(ss, cs, 1) && ss[2].parent == Returned(TimedOut)
  {
    var s1 := Step(START, Notify("boot", true));
    cs := [Notify("boot", true), Tick(false)];
    ss := [START, s1, Step(s1, Tick(false))];
    assert Reports(ss[0], cs[0]);
  }

  // ---------- the code ----------

  /** A move of the child rather than of the parent. */
  predicate IsChilds(c: Choice) { c.Notify? || c.Die? }

  /**
  The parent in `Background`, and the child it has respawned.  What the select finds ready comes
  from a schedule; `Await` is where the parent blocks, and the child moves meanwhile.
  */
  class Reexec {
    const schedule: seq<Choice>
    // parent
    var childAlive: bool
    // child
    var child: Child
    var watchPid: bool
    var statusFile: bool
    // shared
    var file: File
    var wrote: bool
    var removed: bool

    var at: nat
    ghost var ss: seq<State>

    function At(p: Parent): State
      reads this
    {
      State(p, child, watchPid, statusFile, file, wrote, removed)
    }

    /** The states so far are those of the schedule so far. */
    ghost predicate Recorded()
      reads this`at, this`ss
    {
      && at <= |schedule| && |ss| == at + 1 && ss[0] == START
      && forall i :: 0 <= i < at ==> ss[i + 1] == Step(ss[i], schedule[i])
    }

    ghost predicate Follows(p: Parent)
      reads this
    {
      Recorded() && at <= |schedule| && |ss| == at + 1 && ss[at] == At(p)
    }

    /** The parent has created the file, set the variables and respawned itself. */
    constructor (schedule: seq<Choice>)
      ensures Follows(Looping(childAlive)) && at == 0 && !childAlive && this.schedule == schedule
    {
      this.schedule, childAlive, at := schedule, false, 0;
      child, watchPid, statusFile := Running, true, true;
      file, wrote, removed := Present(""), false, false;
      ss := [START];
    }

    method NotifyForeground(report: string, ok: bool)
      modifies this`watchPid, this`statusFile, this`file, this`wrote, this`removed
      ensures forall p :: At(p) == Notified(old(At(p)), report, ok)
    {
      if !watchPid {
        return;
      }
      if !statusFile {
        return;
      }
      if report == UP {
        statusFile := false;
        watchPid := false;
        if ok && file.Present? {
          file, removed := Missing, true;
        }
        return;
      }
      if ok {
        file, wrote := Present(report), true;
      }
    }

    /** The next choice of the schedule is over. */
    method Arrive(ghost p: Parent)
      requires Recorded() && at < |schedule| && At(p) == Step(ss[at], schedule[at])
      modifies this`at, this`ss
      ensures Follows(p) && at == old(at) + 1
    {
      ss := ss + [At(p)];
      at := at + 1;
    }

    /** Blocks in the select: the child moves until a case that is ready is chosen. */
    method Await() returns (c: Option<Choice>)
      requires Follows(Looping(childAlive))
      modifies this`child, this`watchPid, this`statusFile, this`file, this`wrote, this`removed, this`at, this`ss
      ensures Follows(Looping(childAlive)) && at >= old(at)
      ensures c.None? ==> at == |schedule|
      ensures c.Some? ==>
                && at < |schedule| && schedule[at] == c.value
                && Enabled(ss[at], c.value) && !IsChilds(c.value)
    {
      hide Recorded;
      while at < |schedule|
        invariant Follows(Looping(childAlive)) && at >= old(at)
        decreases |schedule| - at
      {
        var next := schedule[at];
        if Enabled(At(Looping(childAlive)), next) {
          if !IsChilds(next) {
            return Some(next);
          }
          if next.Die? {
            child := Exited(next.status);
          } else {
            NotifyForeground(next.report, next.ok);
          }
        }
        Arrive(Looping(childAlive));
      }
      return None;
    }

    method KillChild()
      modifies this`child
      ensures child == if old(child).Running? then Exited(-1) else old(child)
    {
      if child.Running? {
        child := Exited(-1);
      }
    }

    /** Leaving runs the deferred removal of the status file. */
    method Leave(o: Outcome) returns (res: Option<Outcome>)
      requires Recorded() && at < |schedule|
      requires At(Returned(o)).(file := Missing) == Step(ss[at], schedule[at])
      modifies this`file, this`at, this`ss
      ensures Follows(Returned(o)) && res == Some(o) && at == old(at) + 1
    {
      file := Missing;
      Arrive(Returned(o));
      return Some(o);
    }

    /** The loop of `Background`.  Whatever the schedule, it passes through a run of the machine, to
        its return or to the end of the schedule. */
    method Background() returns (res: Option<Outcome>)
      requires Follows(Looping(childAlive)) && at == 0 && !childAlive
      modifies this
      ensures at <= |schedule| && IsRun(ss, schedule[..at])
      ensures res.Some? ==> ss[at].parent == Returned(res.value)
      ensures res.None? ==> at == |schedule| && ss[at].parent.Looping?
    {
      hide Recorded;
      while true
        invariant Follows(Looping(childAlive))
        decreases |schedule| - at
      {
        var c := Await();
        if c.None? {
          IsRecorded();
          return None;
        }
        res := Select(c.value);
        if res.Some? {
          IsRecorded();
          return;
        }
      }
    }

    lemma IsRecorded()
      requires Recorded()
      ensures at <= |schedule| && IsRun(ss, schedule[..at])
    {
    }

    /** One turn of the select. */
    method Select(c: Choice) returns (res: Option<Outcome>)
      requires Follows(Looping(childAlive)) && at < |schedule| && schedule[at] == c
      requires Enabled(ss[at], c) && !IsChilds(c)
      modifies this
      ensures at == old(at) + 1 && Follows(if res.Some? then Returned(res.value) else Looping(childAlive))
    {
      hide Recorded;
      match c {
        case TakeSignal(ignored, sent) =>
          if !ignored && !sent {
            KillChild();
            res := Leave(SignalFailed);
            return;
          }
        case TakeEvent(event) =>
          if event == RemoveEvent {
            res := Leave(WentToBackground);
            return;
          }
          if event == WriteEvent {
            childAlive := true;
          }
        case TakeStatus =>
          res := Leave(ChildExited(child.status));
          return;
        case Tick(readable) =>
          if file == Missing {
            res := Leave(WentToBackground);
            return;
          }
          if readable && |file.content| > 0 {
            childAlive := true;
          }
          if !childAlive {
            KillChild();
            res := Leave(TimedOut);
            return;
          }
      }
      Arrive(Looping(childAlive));
      return None;
    }
  }
}
