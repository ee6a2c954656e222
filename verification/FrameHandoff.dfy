/** The hand-off of frames from the game task to the display task (main/gb_display.c): a binary
    semaphore that is free while no frame is on its way, and a task notification.

    Both tasks are cut at every point where the other may run in between; a run is any interleaving. */
module FrameHandoff {
  import opened Bytes
  import opened Pixels

  datatype Job = Job(frame: Frame, enlarged: bool)

  /** Where the game task is. Copying: in submit, holding the semaphore, writing the queued frame.
      Checking: in wait or idle, holding it for a moment. Drawing: after a successful wait, using the
      strip buffer itself. */
  datatype Producer = Elsewhere | Copying(job: Job) | Copied | Checking(direct: bool) | Drawing

  /** Where the display task is. Working: drawing the queued frame through the strip buffer. */
  datatype Display = Waiting | Working | Finishing

  datatype State = State(
    free: bool, notified: bool, queued: Job, error: bool,
    producer: Producer, display: Display,
    submitted: seq<Job>, drawn: seq<Job>)

  function Initial(): State {
    State(true, false, Job(BlankFrame(), false), false, Elsewhere, Waiting, [], [])
  }

  datatype Action =
    // gb_display_submit_frame, in three steps
    | Submit(job: Job) | WriteQueued | Notify
    // wait_frame_idle and gb_display_idle: take the semaphore, then give it back and go on
    | Wait(direct: bool) | Proceed | EndDraw
    // frame_task: wake up, finish the drawing with this result, give the semaphore
    | Wake | Finish(works: bool) | Give

  /** Not every action is possible in every state. */
  predicate Enabled(s: State, a: Action) {
    match a
    case Submit(_) => s.producer == Elsewhere
    case WriteQueued => s.producer.Copying?
    case Notify => s.producer == Copied
    case Wait(_) => s.producer == Elsewhere
    case Proceed => s.producer.Checking?
    case EndDraw => s.producer == Drawing
    case Wake => s.display == Waiting && s.notified
    case Finish(_) => s.display == Working
    case Give => s.display == Finishing
  }

  /** A take that finds the semaphore taken fails without waiting, or times out. */
  function Step(s: State, a: Action): State
    requires Enabled(s, a)
  {
    match a
    case Submit(job) =>
      if !s.free then s
      else if s.error then s
      else s.(free := false, producer := Copying(job))
    case WriteQueued => s.(queued := s.producer.job, producer := Copied, submitted := s.submitted + [s.producer.job])
    case Notify => s.(notified := true, producer := Elsewhere)
    case Wait(direct) => if !s.free then s else s.(free := false, producer := Checking(direct))
    case Proceed => s.(free := true, producer := if s.producer.direct && !s.error then Drawing else Elsewhere)
    case EndDraw => s.(producer := Elsewhere)
    case Wake => s.(notified := false, display := Working)
    case Finish(works) => s.(display := Finishing, error := s.error || !works, drawn := s.drawn + [s.queued])
    case Give => s.(free := true, display := Waiting)
  }

  predicate Possible(s: State, run: seq<Action>)
    decreases |run|
  {
    run == [] || (Enabled(s, run[0]) && Possible(Step(s, run[0]), run[1..]))
  }

  function After(s: State, run: seq<Action>): State
    requires Possible(s, run)
    decreases |run|
  {
    if run == [] then s else After(Step(s, run[0]), run[1..])
  }

  /** A frame has been handed over and the semaphore has not come back yet. */
  predicate OnItsWay(s: State) {
    s.notified || s.display != Waiting
  }

  predicate ProducerHolds(s: State) {
    s.producer.Copying? || s.producer == Copied || s.producer.Checking?
  }

  function Pending(s: State): seq<Job> {
    if s.notified || s.display == Working || s.producer == Copied then [s.queued] else []
  }

  predicate Inv(s: State) {
    // The semaphore is in exactly one place.
    && (s.free ==> !ProducerHolds(s) && !OnItsWay(s))
    && (!s.free ==> ProducerHolds(s) || OnItsWay(s))
    && !(ProducerHolds(s) && OnItsWay(s))
    && !(s.notified && s.display != Waiting)
    && (s.producer == Drawing ==> s.free)
    // Nothing is lost, repeated or changed on the way.
    && s.submitted == s.drawn + Pending(s)
  }

  lemma StepKeepsInv(s: State, a: Action)
    requires Inv(s) && Enabled(s, a)
    ensures Inv(Step(s, a))
  {
    var t := Step(s, a);
    match a
    case Finish(_) =>
      assert s.drawn + [s.queued] + [] == s.drawn + [s.queued];
    case WriteQueued =>
      assert s.drawn + [] == s.drawn;
    case _ =>
  }

  lemma {:induction false} RunKeepsInv(s: State, run: seq<Action>)
    requires Inv(s) && Possible(s, run)
    ensures Inv(After(s, run))
    decreases |run|
  {
    if run != [] {
      StepKeepsInv(s, run[0]);
      hide Step, Inv, Enabled;
      RunKeepsInv(Step(s, run[0]), run[1..]);
    }
  }

  /** In every interleaving the strip buffer and the queued frame have one user at a time, and the
      display task draws exactly the submitted frames, in order, each as it was when submitted. */
  lemma OneUserAtATime(run: seq<Action>)
    requires Possible(Initial(), run)
    ensures var s := After(Initial(), run);
      && !(s.display == Working && (s.producer == Drawing || s.producer.Copying?))
      && (s.producer.Copying? ==> !s.notified)
      && s.drawn <= s.submitted && |s.submitted| <= |s.drawn| + 1
  {
    RunKeepsInv(Initial(), run);
  }

  /** While a frame is being drawn the queued frame does not change. */
  lemma QueuedStaysPut(s: State, a: Action)
    requires Inv(s) && Enabled(s, a) && s.display == Working
    ensures Step(s, a).queued == s.queued
  {
  }

  predicate DisplayOnly(run: seq<Action>) {
    forall i | 0 <= i < |run| :: run[i].Wake? || run[i].Finish? || run[i].Give?
  }

  predicate NoSubmission(run: seq<Action>) {
    forall i | 0 <= i < |run| :: !run[i].Submit?
  }

  /** Nothing is on its way or being handed over, and no drawing has failed. */
  predicate Quiet(s: State) {
    Inv(s) && !OnItsWay(s) && !s.error && !s.producer.Copying? && s.producer != Copied
  }

  lemma {:induction false} QuietStays(s: State, run: seq<Action>)
    requires Quiet(s) && Possible(s, run) && NoSubmission(run)
    ensures Quiet(After(s, run))
    decreases |run|
  {
    if run != [] {
      var t := Step(s, run[0]);
      StepKeepsInv(s, run[0]);
      assert Quiet(t);
      hide Step, Quiet, Enabled;
      forall i | 0 <= i < |run[1..]| ensures !run[1..][i].Submit? {
        assert run[1..][i] == run[i + 1];
      }
      QuietStays(t, run[1..]);
    }
  }

  /** In every run from the start: once the game task has taken the semaphore to ask whether the display is
      idle, and has read no error, then whatever both tasks do next short of a submit (giving the semaphore
      back, drawing overlays, waiting again), the first submit after that goes through. */
  lemma SubmitAfterIdleQueues(before: seq<Action>, between: seq<Action>, job: Job)
    requires Possible(Initial(), before)
    requires var asked := After(Initial(), before);
      asked.producer.Checking? && !asked.error && Possible(asked, between) && NoSubmission(between)
    ensures var s := After(After(Initial(), before), between);
      s.producer == Elsewhere ==> Enabled(s, Submit(job)) && Step(s, Submit(job)).producer == Copying(job)
  {
    var asked := After(Initial(), before);
    RunKeepsInv(Initial(), before);
    assert Quiet(asked);
    hide After, Possible;
    QuietStays(asked, between);
  }

  /** A drawing that failed is never forgotten: from then on no frame is taken, and no other is. */
  lemma {:induction false} ErrorIsRemembered(s: State, run: seq<Action>, job: Job)
    requires Possible(s, run)
    ensures After(s, run).error <==> s.error || Finish(false) in run
    ensures var t := After(s, run); t.producer == Elsewhere && t.error ==> Step(t, Submit(job)) == t
    decreases |run|
  {
    if run != [] {
      ErrorIsRemembered(Step(s, run[0]), run[1..], job);
      assert run == [run[0]] + run[1..];
      hide After, Possible;
    }
  }

  /** Such runs exist: the display is asked in the beginning, and the answer given back. */
  lemma IdleCanBeSeen()
    ensures Possible(Initial(), [Wait(false)]) && Possible(After(Initial(), [Wait(false)]), [Proceed])
    ensures var asked := After(Initial(), [Wait(false)]); asked.producer.Checking? && !asked.error
    ensures After(After(Initial(), [Wait(false)]), [Proceed]).producer == Elsewhere
  {
    assert [Wait(false)][1..] == [] && [Proceed][1..] == [];
  }

  /** Every handed-over frame can be finished: from any state the display task alone frees the semaphore
      again in at most three steps, and the frame is drawn. */
  lemma DisplayAlwaysFinishes(s: State, works: bool) returns (run: seq<Action>)
    requires Inv(s) && OnItsWay(s)
    ensures |run| <= 3 && DisplayOnly(run) && Possible(s, run)
    ensures var t := After(s, run); t.free && t.drawn == t.submitted && t.submitted == s.submitted
  {
    if s.display == Waiting {
      StepKeepsInv(s, Wake);
      var t := Step(s, Wake);
      run := FinishFrom(t, works);
      assert [Wake] + run != [] && ([Wake] + run)[1..] == run;
      run := [Wake] + run;
    } else {
      run := FinishFrom(s, works);
    }
  }

  lemma FinishFrom(s: State, works: bool) returns (run: seq<Action>)
    requires Inv(s) && s.display != Waiting
    ensures |run| <= 2 && DisplayOnly(run) && Possible(s, run)
    ensures var t := After(s, run); t.free && t.drawn == t.submitted && t.submitted == s.submitted
  {
    if s.display == Working {
      StepKeepsInv(s, Finish(works));
      run := GiveFrom(Step(s, Finish(works)));
      assert ([Finish(works)] + run)[1..] == run;
      run := [Finish(works)] + run;
    } else {
      run := GiveFrom(s);
    }
  }

  lemma GiveFrom(s: State) returns (run: seq<Action>)
    requires Inv(s) && s.display == Finishing
    ensures |run| == 1 && DisplayOnly(run) && Possible(s, run)
    ensures var t := After(s, run); t.free && t.drawn == t.submitted && t.submitted == s.submitted
  {
    run := [Give];
    assert run[1..] == [];
    StepKeepsInv(s, Give);
  }
}
