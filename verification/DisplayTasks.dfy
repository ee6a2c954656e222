/** Both tasks and the panel together (main/gb_display.c): the hand-off of frames, with every drawing cut
    into its strips. A run is any interleaving of the steps of the two tasks. */
module DisplayTasks {
  import opened Bytes
  import opened LcdLink
  import opened Display
  import FrameHandoff

  /** A drawing under way: how many strips have been treated, and how their transfers went. */
  datatype Progress = Progress(k: nat, fates: nat -> StripFate)

  datatype Work = Work(drawing: Drawing, progress: Progress)

  /** Of this, `done` (the drawings that have ended) and `start` (panel and memory when the last one began)
      are only there to speak about. */
  datatype Joint = Joint(
    tasks: FrameHandoff.State, lcd: Lcd,
    game: Option<Work>, display: Progress,
    start: Lcd, done: seq<Act>)

  const NO_STRIPS := Progress(0, PROMPT)

  function Initial(first: Lcd): Joint {
    Joint(FrameHandoff.Initial(), first, None, NO_STRIPS, first, [])
  }

  datatype Move =
    // a step of the hand-off that draws nothing
    | Hand(action: FrameHandoff.Action)
    // the game task begins a drawing of its own, after a wait that found the display idle
    | Begin(drawing: Drawing)
    // either task goes on to its next strip
    | GameStrip(fate: StripFate)
    | DisplayStrip(fate: StripFate)

  predicate Enabled(j: Joint, v: Move) {
    match v
    case Hand(a) => FrameHandoff.Enabled(j.tasks, a) && !a.Finish? && (a.EndDraw? ==> j.game.None?)
    case Begin(e) => j.tasks.producer == FrameHandoff.Drawing && j.game.None? && !e.Frame? && e.Slots() > 0
    case GameStrip(_) => j.game.Some?
    case DisplayStrip(_) => j.tasks.display == FrameHandoff.Working
  }

  /** The queued frame is read where it stands, strip by strip. */
  function Queued(s: FrameHandoff.State): Drawing {
    Drawing.Frame(s.queued.frame, s.queued.enlarged)
  }

  /** The next strip of a drawing, with the memory as it is now. */
  function NextStrip(lcd: Lcd, e: Drawing, k: nat, x: StripFate): After {
    if k < e.Slots() && Wanted(lcd.memory, e, k) then StripSpec(lcd.link, e.SlotStrip(k), x) else After(lcd.link, Ok)
  }

  function With(fates: nat -> StripFate, k: nat, x: StripFate): nat -> StripFate {
    (i: nat) => if i == k then x else fates(i)
  }

  function Step(j: Joint, v: Move): Joint
    requires Enabled(j, v)
  {
    match v
    case Hand(a) =>
      var t := j.(tasks := FrameHandoff.Step(j.tasks, a));
      if a.Wake? then t.(display := NO_STRIPS, start := j.lcd) else t
    case Begin(e) =>
      j.(game := Some(Work(e, NO_STRIPS)), start := j.lcd, lcd := j.lcd.(memory := MemoryDuring(j.lcd.memory, e)))
    case GameStrip(x) =>
      var e, p := j.game.value.drawing, j.game.value.progress;
      var a, fates := NextStrip(j.lcd, e, p.k, x), With(p.fates, p.k, x);
      if a.sent == Ok && p.k + 1 < e.Slots() then
        j.(lcd := j.lcd.(link := a.link), game := Some(Work(e, Progress(p.k + 1, fates))))
      else
        j.(lcd := Lcd(a.link, MemoryAfter(j.lcd.memory, e, a.sent)), game := None, done := j.done + [Act(e, fates)])
    case DisplayStrip(x) =>
      var e, p := Queued(j.tasks), j.display;
      var a, fates := NextStrip(j.lcd, e, p.k, x), With(p.fates, p.k, x);
      if a.sent == Ok && p.k + 1 < e.Slots() then
        j.(lcd := j.lcd.(link := a.link), display := Progress(p.k + 1, fates))
      else
        j.(lcd := Lcd(a.link, MemoryAfter(j.lcd.memory, e, a.sent)), done := j.done + [Act(e, fates)],
           tasks := FrameHandoff.Step(j.tasks, FrameHandoff.Finish(a.sent == Ok)))
  }

  predicate Possible(j: Joint, run: seq<Move>)
    decreases |run|
  {
    run == [] || (Enabled(j, run[0]) && Possible(Step(j, run[0]), run[1..]))
  }

  function RunOf(j: Joint, run: seq<Move>): Joint
    requires Possible(j, run)
    decreases |run|
  {
    if run == [] then j else RunOf(Step(j, run[0]), run[1..])
  }

  /** No drawing is under way. */
  predicate AtRest(j: Joint) {
    j.game.None? && j.tasks.display != FrameHandoff.Working
  }

  /** This drawing has come this far since it began. */
  ghost predicate Underway(j: Joint, e: Drawing, p: Progress) {
    && p.k < e.Slots() && j.lcd.memory == MemoryDuring(j.start.memory, e)
    && After(j.lcd.link, Ok) == Treated(j.start.link, j.start.memory, e, p.k, p.fates)
  }

  /** The frames among some drawings. */
  function Frames(acts: seq<Act>): seq<FrameHandoff.Job> {
    if acts == [] then []
    else
      var e := acts[|acts| - 1].drawing;
      Frames(acts[..|acts| - 1]) + if e.Frame? then [FrameHandoff.Job(e.frame, e.enlarged)] else []
  }

  /** One drawing at a time, and the panel is what the drawings so far make of it one after another. */
  ghost predicate Inv(first: Lcd, j: Joint) {
    && FrameHandoff.Inv(j.tasks)
    && (j.game.Some? ==> j.tasks.producer == FrameHandoff.Drawing && Underway(j, j.game.value.drawing, j.game.value.progress))
    && (j.tasks.display == FrameHandoff.Working ==> Underway(j, Queued(j.tasks), j.display))
    && (if AtRest(j) then j.lcd else j.start) == DrawnAll(first, j.done)
    && Frames(j.done) == j.tasks.drawn
    && (j.game.Some? ==> !j.game.value.drawing.Frame?)
  }

  lemma {:induction false} SameFates(l: Link, m: Memory, e: Drawing, k: nat, x: nat -> StripFate, y: nat -> StripFate)
    requires k <= e.Slots() && forall i | 0 <= i < k :: x(i) == y(i)
    ensures Treated(l, m, e, k, x) == Treated(l, m, e, k, y)
  {
    hide StripSpec, Wanted;
    if k > 0 {
      SameFates(l, m, e, k - 1, x, y);
    }
  }

  lemma WantedDuring(m: Memory, e: Drawing, k: nat)
    requires k < e.Slots()
    ensures Wanted(MemoryDuring(m, e), e, k) == Wanted(m, e, k)
  {
  }

  /** The next strip is one more strip of the drawing. */
  lemma OneMoreStrip(j: Joint, e: Drawing, p: Progress, x: StripFate)
    requires Underway(j, e, p)
    ensures NextStrip(j.lcd, e, p.k, x) == Treated(j.start.link, j.start.memory, e, p.k + 1, With(p.fates, p.k, x))
  {
    hide StripSpec, Wanted;
    WantedDuring(j.start.memory, e, p.k);
    SameFates(j.start.link, j.start.memory, e, p.k, p.fates, With(p.fates, p.k, x));
  }

  /** A drawing that ends here is the whole drawing. */
  lemma DrawingEnds(j: Joint, e: Drawing, p: Progress, x: StripFate)
    requires Underway(j, e, p)
    requires var a := NextStrip(j.lcd, e, p.k, x); a.sent != Ok || p.k + 1 == e.Slots()
    ensures var a := NextStrip(j.lcd, e, p.k, x);
      Result(Lcd(a.link, MemoryAfter(j.lcd.memory, e, a.sent)), a.sent) == Drawn(j.start, e, With(p.fates, p.k, x))
  {
    hide NextStrip, Treated;
    OneMoreStrip(j, e, p, x);
    if NextStrip(j.lcd, e, p.k, x).sent != Ok {
      Stopped(j.start.link, j.start.memory, e, p.k + 1, e.Slots(), With(p.fates, p.k, x));
    }
  }

  lemma DoneMore(first: Lcd, done: seq<Act>, a: Act)
    ensures DrawnAll(first, done + [a]) == Drawn(DrawnAll(first, done), a.drawing, a.fates).lcd
    ensures Frames(done + [a]) == Frames(done) + if a.drawing.Frame? then [FrameHandoff.Job(a.drawing.frame, a.drawing.enlarged)] else []
  {
    hide Drawn;
    assert (done + [a])[..|done|] == done;
  }

  lemma StepKeepsInv(first: Lcd, j: Joint, v: Move)
    requires Inv(first, j) && Enabled(j, v)
    ensures Inv(first, Step(j, v))
  {
    match v
    case Hand(a) => HandKeepsInv(first, j, a);
    case Begin(e) => BeginKeepsInv(first, j, e);
    case GameStrip(x) => GameKeepsInv(first, j, x);
    case DisplayStrip(x) => DisplayKeepsInv(first, j, x);
  }

  lemma HandKeepsInv(first: Lcd, j: Joint, a: FrameHandoff.Action)
    requires Inv(first, j) && Enabled(j, Hand(a))
    ensures Inv(first, Step(j, Hand(a)))
  {
    hide Treated, DrawnAll, Frames, MemoryDuring;
    FrameHandoff.StepKeepsInv(j.tasks, a);
    if a.Wake? {
      Begins(j.lcd, Queued(j.tasks));
    }
    if j.tasks.display == FrameHandoff.Working {
      FrameHandoff.QueuedStaysPut(j.tasks, a);
    }
  }

  lemma Begins(s: Lcd, e: Drawing)
    ensures Treated(s.link, s.memory, e, 0, PROMPT) == After(s.link, Ok)
    ensures e.Frame? ==> e.Slots() > 0 && MemoryDuring(s.memory, e) == s.memory
  {
  }

  lemma BeginKeepsInv(first: Lcd, j: Joint, e: Drawing)
    requires Inv(first, j) && Enabled(j, Begin(e))
    ensures Inv(first, Step(j, Begin(e)))
  {
    hide DrawnAll, Frames;
  }

  lemma GameKeepsInv(first: Lcd, j: Joint, x: StripFate)
    requires Inv(first, j) && Enabled(j, GameStrip(x))
    ensures Inv(first, Step(j, GameStrip(x)))
  {
    hide Treated, DrawnAll, Frames, NextStrip, MemoryAfter, MemoryDuring, With;
    var e, p := j.game.value.drawing, j.game.value.progress;
    OneMoreStrip(j, e, p, x);
    var a := NextStrip(j.lcd, e, p.k, x);
    if a.sent != Ok || p.k + 1 == e.Slots() {
      DrawingEnds(j, e, p, x);
      DoneMore(first, j.done, Act(e, With(p.fates, p.k, x)));
      assert j.tasks.drawn + [] == j.tasks.drawn;
    }
  }

  lemma DisplayKeepsInv(first: Lcd, j: Joint, x: StripFate)
    requires Inv(first, j) && Enabled(j, DisplayStrip(x))
    ensures Inv(first, Step(j, DisplayStrip(x)))
  {
    hide Treated, DrawnAll, Frames, NextStrip, MemoryAfter, MemoryDuring, With;
    var e, p := Queued(j.tasks), j.display;
    OneMoreStrip(j, e, p, x);
    var a := NextStrip(j.lcd, e, p.k, x);
    if a.sent != Ok || p.k + 1 == e.Slots() {
      DrawingEnds(j, e, p, x);
      DoneMore(first, j.done, Act(e, With(p.fates, p.k, x)));
      FrameHandoff.StepKeepsInv(j.tasks, FrameHandoff.Finish(a.sent == Ok));
    }
  }

  lemma {:induction false} RunKeepsInv(first: Lcd, j: Joint, run: seq<Move>)
    requires Inv(first, j) && Possible(j, run)
    ensures Inv(first, RunOf(j, run))
    decreases |run|
  {
    hide Inv, Step, Enabled;
    if run != [] {
      StepKeepsInv(first, j, run[0]);
      RunKeepsInv(first, Step(j, run[0]), run[1..]);
    }
  }

  lemma InitialInv(first: Lcd)
    ensures Inv(first, Initial(first))
  {
  }

  /** In every interleaving no two drawings overlap, so that whenever none is under way the panel and what is
      remembered are what the drawings so far make of them one after another; and the frames among those are
      the submitted ones, in order. */
  lemma DrawingsTakeTurns(first: Lcd, run: seq<Move>)
    requires Possible(Initial(first), run)
    ensures var j := RunOf(Initial(first), run);
      && !(j.game.Some? && j.tasks.display == FrameHandoff.Working)
      && (AtRest(j) ==> j.lcd == DrawnAll(first, j.done))
      && Frames(j.done) == j.tasks.drawn && j.tasks.drawn <= j.tasks.submitted && |j.tasks.submitted| <= |j.tasks.drawn| + 1
  {
    hide DrawnAll, Treated;
    InitialInv(first);
    RunKeepsInv(first, Initial(first), run);
  }

  /** One of the frames among these drawings was not reported as drawn. */
  ghost predicate FrameFailed(first: Lcd, done: seq<Act>)
    decreases |done|
  {
    done != []
    && var before, last := done[..|done| - 1], done[|done| - 1];
       FrameFailed(first, before)
       || (last.drawing.Frame? && Drawn(DrawnAll(first, before), last.drawing, last.fates).sent != Ok)
  }

  lemma FailedMore(first: Lcd, done: seq<Act>, a: Act)
    ensures FrameFailed(first, done + [a]) <==>
      FrameFailed(first, done) || (a.drawing.Frame? && Drawn(DrawnAll(first, done), a.drawing, a.fates).sent != Ok)
  {
    hide Drawn, DrawnAll;
    assert (done + [a])[..|done|] == done;
  }

  lemma StepTellsFailures(first: Lcd, j: Joint, v: Move)
    requires Inv(first, j) && Enabled(j, v) && (j.tasks.error <==> FrameFailed(first, j.done))
    ensures Step(j, v).tasks.error <==> FrameFailed(first, Step(j, v).done)
  {
    hide Treated, DrawnAll, Frames, NextStrip, MemoryAfter, MemoryDuring, With, FrameFailed;
    match v
    case Hand(a) =>
    case Begin(e) =>
    case GameStrip(x) =>
      var e, p := j.game.value.drawing, j.game.value.progress;
      FailedMore(first, j.done, Act(e, With(p.fates, p.k, x)));
    case DisplayStrip(x) =>
      var e, p := Queued(j.tasks), j.display;
      var a := NextStrip(j.lcd, e, p.k, x);
      FailedMore(first, j.done, Act(e, With(p.fates, p.k, x)));
      if a.sent != Ok || p.k + 1 == e.Slots() {
        DrawingEnds(j, e, p, x);
      }
  }

  lemma {:induction false} FailuresAreTold(first: Lcd, j: Joint, run: seq<Move>)
    requires Inv(first, j) && Possible(j, run) && (j.tasks.error <==> FrameFailed(first, j.done))
    ensures RunOf(j, run).tasks.error <==> FrameFailed(first, RunOf(j, run).done)
    decreases |run|
  {
    hide Inv, Step, Enabled, FrameFailed;
    if run != [] {
      StepKeepsInv(first, j, run[0]);
      StepTellsFailures(first, j, run[0]);
      FailuresAreTold(first, Step(j, run[0]), run[1..]);
    }
  }

  /** The error that the display task leaves says, in every interleaving, exactly whether one of its frames was not
      reported as drawn. */
  lemma ErrorTellsFailures(first: Lcd, run: seq<Move>)
    requires Possible(Initial(first), run)
    ensures RunOf(Initial(first), run).tasks.error <==> FrameFailed(first, RunOf(Initial(first), run).done)
  {
    InitialInv(first);
    FailuresAreTold(first, Initial(first), run);
    hide Inv, RunOf, Possible;
  }

  /** What game_main.c submits and draws. */
  predicate ShippedMove(v: Move) {
    && (v.Hand? && v.action.Submit? ==> v.action.job.enlarged)
    && (v.Begin? ==> ShippedDrawing(v.drawing))
  }

  predicate ShippedRun(run: seq<Move>) {
    forall i | 0 <= i < |run| :: ShippedMove(run[i])
  }

  predicate ShippedSoFar(j: Joint) {
    && Shipped(j.done)
    && (j.tasks.producer.Copying? ==> j.tasks.producer.job.enlarged)
    && (FrameHandoff.OnItsWay(j.tasks) || j.tasks.producer == FrameHandoff.Copied ==> j.tasks.queued.enlarged)
    && (j.game.Some? ==> ShippedDrawing(j.game.value.drawing))
  }

  lemma StepStaysShipped(j: Joint, v: Move)
    requires ShippedSoFar(j) && Enabled(j, v) && ShippedMove(v) && FrameHandoff.Inv(j.tasks)
    ensures ShippedSoFar(Step(j, v))
  {
    hide ShippedDrawing, NextStrip, MemoryAfter, MemoryDuring, With;
    if v.DisplayStrip? {
      assert ShippedDrawing(Queued(j.tasks)) by { FrameIsShipped(j.tasks.queued); }
    }
  }

  lemma FrameIsShipped(job: FrameHandoff.Job)
    requires job.enlarged
    ensures ShippedDrawing(Drawing.Frame(job.frame, job.enlarged))
  {
  }

  lemma {:induction false} RunStaysShipped(first: Lcd, j: Joint, run: seq<Move>)
    requires Inv(first, j) && ShippedSoFar(j) && Possible(j, run) && ShippedRun(run)
    ensures ShippedSoFar(RunOf(j, run))
    decreases |run|
  {
    hide Inv, Step, Enabled, ShippedSoFar, ShippedMove;
    if run != [] {
      StepKeepsInv(first, j, run[0]);
      assert FrameHandoff.Inv(j.tasks) by { TasksInv(first, j); }
      StepStaysShipped(j, run[0]);
      assert ShippedRun(run[1..]);
      RunStaysShipped(first, Step(j, run[0]), run[1..]);
    }
  }

  lemma TasksInv(first: Lcd, j: Joint)
    requires Inv(first, j)
    ensures FrameHandoff.Inv(j.tasks)
  {
  }

  lemma ShippedAtFirst(first: Lcd)
    ensures ShippedSoFar(Initial(first))
  {
  }

  /** In every interleaving of what the firmware draws, from a clean panel of which nothing is remembered:
      as long as no wait for a transfer is given up, whenever no drawing is under way the panel shows what is
      remembered, and the last frame if it was reported as drawn; and the driver has been reliable all the
      time exactly as long. */
  lemma PanelStaysTruthful(first: Lcd, run: seq<Move>)
    requires Possible(Initial(first), run) && ShippedRun(run) && Clean(first.link) && !first.memory.valid
    ensures var j := RunOf(Initial(first), run);
      && (AlwaysReliable(first, j.done) <==> NeverTimesOut(first, j.done))
      && (AtRest(j) && NeverTimesOut(first, j.done) ==>
            && Truthful(j.lcd.link.screen, j.lcd.memory) && Clean(j.lcd.link)
            && (j.done != [] && j.done[|j.done| - 1].drawing.Frame? && LastSent(first, j.done) == Ok ==>
                  var e := j.done[|j.done| - 1].drawing; Shows(j.lcd.link.screen, e.frame, e.enlarged)))
  {
    hide Shows, Drawn, Inv, AlwaysReliable, Fit, Shipped, Clean;
    DrawingsTakeTurns(first, run);
    InitialInv(first);
    ShippedAtFirst(first);
    RunStaysShipped(first, Initial(first), run);
    var j := RunOf(Initial(first), run);
    ShippedIsFit(first, j.done);
    ReliableRunExactlyWhen(first, j.done);
    if NeverTimesOut(first, j.done) {
      RememberedIsShown(first, j.done);
      if j.done != [] {
        var front, a := j.done[..|j.done| - 1], j.done[|j.done| - 1];
        RememberedIsShown(first, front);
        DrawnIsShown(DrawnAll(first, front), a.drawing, a.fates);
      }
    }
  }
}
