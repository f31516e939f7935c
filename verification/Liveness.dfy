/** Every concurrent run ends: no interleaving goes on for ever, and none gets stuck. */
module Liveness {
  import opened Values
  import opened Sequences
  import opened Pipeline
  import opened Completeness

  // ---------- no run goes on for ever ----------

  /** How many more steps a producer may cause, its own and its receivers'. */
  function Work(p: Producer): nat {
    match p.st
    case Opening => 4 * |p.todo| + 6
    case NeedBatch => 4 * |p.todo| + 5
    case Reading(_) => 4 * |p.todo| + 4
    case Sending(_, last) => if last then 4 * |p.todo| + 2 else 4 * |p.todo| + 7
    case Returned(_) => 0
  }

  function WorkerWork(x: Worker): nat {
    if x.st.Folding? then 2 else if x.st.Receiving? then 1 else 0
  }

  function SharedWork(sh: Shared): nat { if sh.outside then 0 else 1 }

  function WorkOfP(): Producer -> int { (p: Producer) => Work(p) }

  function WorkOfW(): Worker -> int { (x: Worker) => WorkerWork(x) }

  function Remaining(s: State): int {
    Total(s.ps, WorkOfP()) + Total(s.ws, WorkOfW()) + SharedWork(s.sh)
  }

  lemma LineShrinksWork(c: Config, l: Local)
    requires l.p.st.Reading? && l.p.todo != []
    ensures var l' := Act(c, l, ReadLine(0)); Work(l'.p) < Work(l.p) && l'.x == l.x && l'.sh.outside == l.sh.outside
  {
  }

  lemma AbandonShrinksWork(l: Local, err: ProducerError)
    requires Busy(l.p)
    ensures var l' := Abandon(l, err); Work(l'.p) < Work(l.p) && l'.x == l.x && l'.sh.outside == l.sh.outside
  {
  }

  lemma HandingOnShrinksWork(c: Config, l: Local, step: Step)
    requires Allowed(l, step) && OnWorker(step)
    ensures var l' := Act(c, l, step);
            Work(l'.p) + WorkerWork(l'.x) < Work(l.p) + WorkerWork(l.x) && l'.sh.outside == l.sh.outside
  {
  }

  lemma StartingShrinksWork(c: Config, l: Local, step: Step)
    requires Allowed(l, step) && (step.Open? || step.OpenFails? || step.GetPooled? || step.GetNew? || step.ReadEnd?)
    ensures var l' := Act(c, l, step); Work(l'.p) < Work(l.p) && l'.x == l.x && l'.sh.outside == l.sh.outside
  {
  }

  /** Every step uses up some of the work that is left. */
  lemma WorkShrinks(c: Config, l: Local, step: Step)
    requires Allowed(l, step)
    ensures var l' := Act(c, l, step);
            Work(l'.p) + WorkerWork(l'.x) + SharedWork(l'.sh) < Work(l.p) + WorkerWork(l.x) + SharedWork(l.sh)
  {
    hide ParsedRow, Abandon, WorkerWork, Work;
    if OnWorker(step) {
      HandingOnShrinksWork(c, l, step);
    } else {
      match step
      case ReadLine(_) => LineShrinksWork(c, l);
      case SeeCancel(_) => AbandonShrinksWork(l, Canceled);
      case ReadFails(_) => AbandonShrinksWork(l, ReadFailure);
      case CancelOutside =>
      case _ => StartingShrinksWork(c, l, step);
    }
  }

  lemma StepsUseUpWork(c: Config, s: State, step: Step)
    requires Enabled(s, step)
    ensures 0 <= Remaining(Apply(c, s, step)) < Remaining(s)
  {
    hide Total, Act, Allowed, Work, WorkerWork, SharedWork;
    WorkShrinks(c, View(s, step), step);
    TotalsChange(c, s, step, WorkOfP(), WorkOfW());
    TotalIsNonNegative(Apply(c, s, step).ps, WorkOfP());
    TotalIsNonNegative(Apply(c, s, step).ws, WorkOfW());
  }

  /** The number of steps of any run is bounded by its starting state. */
  lemma {:induction false} RunsAreBounded(c: Config, s: State, steps: seq<Step>)
    requires Runs(c, s, steps)
    ensures |steps| <= Remaining(s)
    decreases steps
  {
    hide Total, Enabled, Apply, Remaining;
    if steps == [] {
      SomeWorkRemains(s);
    } else {
      StepsUseUpWork(c, s, steps[0]);
      RunsAreBounded(c, Apply(c, s, steps[0]), steps[1..]);
    }
  }

  lemma SomeWorkRemains(s: State)
    ensures Remaining(s) >= 0
  {
    hide Total;
    TotalIsNonNegative(s.ps, WorkOfP());
    TotalIsNonNegative(s.ws, WorkOfW());
  }

  // ---------- no run gets stuck ----------

  /** A step the program takes by itself: not a failure and not a cancellation from outside. */
  predicate Ordinary(step: Step) {
    !(step.OpenFails? || step.ReadFails? || step.FoldFails? || step.CancelOutside?)
  }

  ghost predicate CanMove(s: State) {
    exists step: Step :: Ordinary(step) && Enabled(s, step)
  }

  lemma WorkerMoves(s: State, w: nat)
    requires w < |s.ws|
    requires s.ws[w].st.Folding? || (s.ws[w].st.Receiving? && AllReturned(s))
    ensures CanMove(s)
  {
    var step := if s.ws[w].st.Folding? then Fold(w) else Finish(w);
    assert Ordinary(step) && Enabled(s, step);
  }

  /** A producer moves alone unless it is waiting for a receiver. */
  lemma ProducerMoves(s: State, i: nat)
    requires i < |s.ps| && !s.ps[i].st.Returned?
    requires s.ps[i].st.Sending? ==> s.sh.cancelled
    ensures CanMove(s)
  {
    var p := s.ps[i];
    var step := match p.st
      case Opening => Open(i)
      case NeedBatch => GetNew(i)
      case Reading(_) => if p.todo != [] then ReadLine(i) else ReadEnd(i)
      case Sending(_, _) => SeeCancel(i)
      case Returned(_) => CancelOutside;
    assert Ordinary(step) && Enabled(s, step);
  }

  lemma SenderMeetsReceiver(s: State, i: nat, w: nat)
    requires i < |s.ps| && s.ps[i].st.Sending? && w < |s.ws| && s.ws[w].st.Receiving?
    ensures CanMove(s)
  {
    assert Ordinary(Send(i, w)) && Enabled(s, Send(i, w));
  }

  /** A sender with no receiver left: then every worker stopped on an error, and the
      cancellation that came with it frees the sender. */
  lemma SenderIsFreed(s: State, i: nat)
    requires Sound(s) && ClosedFirst(s) && |s.ws| > 0
    requires i < |s.ps| && s.ps[i].st.Sending?
    ensures CanMove(s)
  {
    hide CanMove, Enabled;
    var x := s.ws[0];
    assert !AllReturned(s) by {
      assert !s.ps[i].st.Returned?;
    }
    assert !x.st.Finished?;
    if x.st.Folding? {
      WorkerMoves(s, 0);
    } else if x.st.Receiving? {
      SenderMeetsReceiver(s, i, 0);
    } else {
      assert WorkerSound(x, s.sh);
      ProducerMoves(s, i);
    }
  }

  lemma SoundStateMoves(s: State)
    requires Sound(s) && ClosedFirst(s) && |s.ws| > 0 && !Done(s)
    ensures CanMove(s)
  {
    hide CanMove, Enabled, Sound, ClosedFirst;
    if i :| 0 <= i < |s.ps| && !s.ps[i].st.Returned? {
      if s.ps[i].st.Sending? {
        SenderIsFreed(s, i);
      } else {
        ProducerMoves(s, i);
      }
    } else if w :| 0 <= w < |s.ws| && !s.ws[w].st.Stopped? && !s.ws[w].st.Finished? {
      WorkerMoves(s, w);
    }
  }

  /** Whatever has happened so far, a run that is not finished can go on. */
  lemma NeverStuck(c: Config, inputs: seq<seq<Option<Row>>>, s: State, steps: seq<Step>)
    requires Initial(c, inputs, s) && Runs(c, s, steps)
    ensures Done(After(c, s, steps)) || CanMove(After(c, s, steps))
  {
    hide CanMove, Enabled, Apply, Sound, Blamed, ClosedFirst, Done;
    var t := After(c, s, steps);
    InitiallySound(c, inputs, s);
    AlwaysSound(c, s, steps);
    if !Done(t) {
      SoundStateMoves(t);
    }
  }

  // ---------- when nothing goes wrong ----------

  /** Nothing has failed, and under the fail policy no bad line is left. */
  ghost predicate Quiet(c: Config, s: State) {
    && !s.sh.cancelled && !s.sh.workerErr && !s.sh.outside
    && (forall i :: 0 <= i < |s.ps| ==> QuietProducer(c, s.ps[i]))
  }

  predicate QuietProducer(c: Config, p: Producer) {
    (p.st.Returned? ==> p.st.err.None?) && (c.failOnBadRow ==> Bads(p.todo) == 0)
  }

  predicate AllOrdinary(steps: seq<Step>) {
    forall i :: 0 <= i < |steps| ==> Ordinary(steps[i])
  }

  lemma LocalQuiet(c: Config, l: Local, step: Step)
    requires Allowed(l, step) && Ordinary(step) && QuietProducer(c, l.p) && !l.sh.cancelled && !l.sh.workerErr
    requires !l.sh.outside
    ensures var l' := Act(c, l, step);
            (OnProducer(step) ==> QuietProducer(c, l'.p)) && !l'.sh.cancelled && !l'.sh.workerErr && !l'.sh.outside
  {
  }

  lemma IdleIsQuiet(c: Config, s: State, step: Step)
    requires InRange(s, step) && Quiet(c, s)
    ensures QuietProducer(c, View(s, step).p)
  {
  }

  lemma QuietStep(c: Config, s: State, step: Step)
    requires Enabled(s, step) && Ordinary(step) && Quiet(c, s)
    ensures Quiet(c, Apply(c, s, step))
  {
    hide Act, Allowed, QuietProducer;
    IdleIsQuiet(c, s, step);
    LocalQuiet(c, View(s, step), step);
  }

  lemma {:induction false} StaysQuiet(c: Config, s: State, steps: seq<Step>)
    requires Runs(c, s, steps) && AllOrdinary(steps) && Quiet(c, s)
    ensures Quiet(c, After(c, s, steps))
    decreases steps
  {
    hide Enabled, Apply, Quiet, Ordinary;
    if steps != [] {
      QuietStep(c, s, steps[0]);
      assert forall i :: 0 <= i < |steps| - 1 ==> steps[1..][i] == steps[i + 1];
      StaysQuiet(c, Apply(c, s, steps[0]), steps[1..]);
    }
  }

  lemma {:induction false} NoBadInput(inputs: seq<seq<Option<Row>>>, i: nat)
    requires BadsOfAll(inputs) == 0 && i < |inputs|
    ensures Bads(inputs[i]) == 0
  {
    hide Bads;
    if i < |inputs| - 1 {
      NoBadInput(inputs[..|inputs| - 1], i);
    }
  }

  lemma InitiallyQuiet(c: Config, inputs: seq<seq<Option<Row>>>, s: State)
    requires Initial(c, inputs, s) && (c.failOnBadRow ==> BadsOfAll(inputs) == 0)
    ensures Quiet(c, s)
  {
    hide Bads, BadsOfAll;
    forall i | 0 <= i < |s.ps| && c.failOnBadRow
      ensures Bads(s.ps[i].todo) == 0
    {
      NoBadInput(inputs, i);
    }
  }

  lemma NothingSkipped(c: Config, l: Local, step: Step)
    requires Allowed(l, step)
    ensures var l' := Act(c, l, step);
            (c.failOnBadRow ==> l'.sh.skipped == l.sh.skipped) && (Ordinary(step) ==> l'.sh.outside == l.sh.outside)
  {
  }

  lemma {:induction false} NothingSkippedInRun(c: Config, s: State, steps: seq<Step>)
    requires Runs(c, s, steps)
    ensures c.failOnBadRow ==> After(c, s, steps).sh.skipped == s.sh.skipped
    ensures AllOrdinary(steps) ==> After(c, s, steps).sh.outside == s.sh.outside
    decreases steps
  {
    hide Act, Allowed, Ordinary;
    if steps != [] {
      NothingSkipped(c, View(s, steps[0]), steps[0]);
      assert forall i :: 0 <= i < |steps| - 1 ==> steps[1..][i] == steps[i + 1];
      NothingSkippedInRun(c, Apply(c, s, steps[0]), steps[1..]);
    }
  }

  /** A finished run in which nothing outside the program goes wrong reports success exactly
      when bad lines are skipped or there are none. */
  lemma OrdinaryRunSucceeds(c: Config, inputs: seq<seq<Option<Row>>>, s: State, steps: seq<Step>)
    requires Initial(c, inputs, s) && Runs(c, s, steps) && AllOrdinary(steps) && Done(After(c, s, steps))
    ensures !After(c, s, steps).sh.outside
    ensures ReportsSuccess(After(c, s, steps)) <==> !c.failOnBadRow || BadsOfAll(inputs) == 0
  {
    hide Enabled, Apply, AllOrdinary, Done, BadsOfAll, GoodsOfAll, FoldedRows, Total;
    var t := After(c, s, steps);
    NothingSkippedInRun(c, s, steps);
    if !c.failOnBadRow || BadsOfAll(inputs) == 0 {
      InitiallyQuiet(c, inputs, s);
      StaysQuiet(c, s, steps);
    }
    FinishedRun(c, inputs, s, steps);
  }

  lemma NoSteps(c: Config, s: State) returns (steps: seq<Step>)
    ensures steps == [] && Runs(c, s, steps) && After(c, s, steps) == s
  {
    steps := [];
  }

  lemma RunStep(c: Config, s: State, step: Step, rest: seq<Step>) returns (steps: seq<Step>)
    requires Enabled(s, step) && Runs(c, Apply(c, s, step), rest)
    ensures steps == [step] + rest && Runs(c, s, steps) && After(c, s, steps) == After(c, Apply(c, s, step), rest)
  {
    steps := [step] + rest;
    assert steps[1..] == rest;
  }

  /** From any sound state there is a way to the end by ordinary steps alone. */
  lemma {:induction false} RunToTheEnd(c: Config, s: State) returns (steps: seq<Step>)
    requires Sound(s) && Blamed(s) && ClosedFirst(s) && |s.ws| > 0
    ensures Runs(c, s, steps) && AllOrdinary(steps) && Done(After(c, s, steps))
    decreases Remaining(s)
  {
    hide Enabled, Apply, Sound, Blamed, ClosedFirst, Done, Remaining, Ordinary, Runs, After;
    if Done(s) {
      steps := NoSteps(c, s);
    } else {
      SoundStateMoves(s);
      var step: Step :| Ordinary(step) && Enabled(s, step);
      var t := Apply(c, s, step);
      SoundStep(c, s, step);
      BlamedStep(c, s, step);
      ClosedFirstStep(c, s, step);
      SameWorkers(c, s, step);
      StepsUseUpWork(c, s, step);
      var rest := RunToTheEnd(c, t);
      steps := RunStep(c, s, step, rest);
    }
  }

  lemma SameWorkers(c: Config, s: State, step: Step)
    requires Enabled(s, step)
    ensures |Apply(c, s, step).ws| == |s.ws| && |Apply(c, s, step).ps| == |s.ps|
  {
    hide Act, Allowed;
  }

  /** For every input there is a finished run; it reports success exactly when bad lines are
      skipped or there are none. */
  lemma FinishedRunExists(c: Config, inputs: seq<seq<Option<Row>>>, s: State) returns (steps: seq<Step>)
    requires Initial(c, inputs, s)
    ensures Runs(c, s, steps) && Done(After(c, s, steps)) && !After(c, s, steps).sh.outside
    ensures ReportsSuccess(After(c, s, steps)) <==> !c.failOnBadRow || BadsOfAll(inputs) == 0
  {
    hide Enabled, Apply, Sound, Blamed, ClosedFirst, Done, Runs, After, AllOrdinary, BadsOfAll, ReportsSuccess;
    InitiallySound(c, inputs, s);
    steps := RunToTheEnd(c, s);
    OrdinaryRunSucceeds(c, inputs, s, steps);
  }

  // ---------- a cancellation from outside ----------

  /** Cancelled from outside, with no failure of the program's own and nothing folded. */
  ghost predicate CalledOff(s: State) {
    && s.sh.cancelled && s.sh.outside && !s.sh.workerErr
    && (forall i :: 0 <= i < |s.ps| ==> !FailedItself(s.ps[i]))
    && (forall w :: 0 <= w < |s.ws| ==> s.ws[w].folded == [] && (s.ws[w].st.Receiving? || s.ws[w].st.Finished?))
  }

  predicate Winding(step: Step) {
    step.Open? || step.GetNew? || step.SeeCancel? || step.Finish?
  }

  lemma LocalCalledOff(c: Config, l: Local, step: Step)
    requires Allowed(l, step) && Winding(step) && l.sh.cancelled && l.sh.outside && !l.sh.workerErr
    requires !FailedItself(l.p)
    ensures var l' := Act(c, l, step);
            && l'.sh.cancelled && l'.sh.outside && !l'.sh.workerErr && !FailedItself(l'.p)
            && l'.x.folded == l.x.folded && (l'.x.st == l.x.st || l'.x.st.Finished?)
  {
  }

  lemma CalledOffStep(c: Config, s: State, step: Step)
    requires Enabled(s, step) && Winding(step) && CalledOff(s)
    ensures CalledOff(Apply(c, s, step))
  {
    hide Act, Allowed, FailedItself;
    NoFailureOf(Producer([], Opening));
    LocalCalledOff(c, View(s, step), step);
    ActIsLocal(c, View(s, step), step);
  }

  lemma NoFailureOf(p: Producer)
    requires p.st.Opening?
    ensures !FailedItself(p)
  {
  }

  lemma CalledOffMoves(s: State) returns (step: Step)
    requires CalledOff(s) && !Done(s)
    ensures Winding(step) && Enabled(s, step)
  {
    if i :| 0 <= i < |s.ps| && !s.ps[i].st.Returned? {
      step := if s.ps[i].st.Opening? then Open(i) else if s.ps[i].st.NeedBatch? then GetNew(i) else SeeCancel(i);
    } else {
      var w :| 0 <= w < |s.ws| && !s.ws[w].st.Stopped? && !s.ws[w].st.Finished?;
      step := Finish(w);
    }
  }

  lemma {:induction false} WindDown(c: Config, s: State) returns (steps: seq<Step>)
    requires CalledOff(s)
    ensures Runs(c, s, steps) && Done(After(c, s, steps)) && CalledOff(After(c, s, steps))
    decreases Remaining(s)
  {
    hide Enabled, Apply, CalledOff, Done, Remaining, Runs, After, Winding;
    if Done(s) {
      steps := NoSteps(c, s);
    } else {
      var step := CalledOffMoves(s);
      CalledOffStep(c, s, step);
      StepsUseUpWork(c, s, step);
      var rest := WindDown(c, Apply(c, s, step));
      steps := RunStep(c, s, step, rest);
    }
  }

  lemma {:induction false} NothingFolded(ws: seq<Worker>)
    requires forall w :: 0 <= w < |ws| ==> ws[w].folded == []
    ensures FoldedRows(ws) == []
  {
    if ws != [] {
      NothingFolded(ws[..|ws| - 1]);
    }
  }

  lemma CallOff(c: Config, inputs: seq<seq<Option<Row>>>, s: State)
    requires Initial(c, inputs, s)
    ensures Enabled(s, CancelOutside) && CalledOff(Apply(c, s, CancelOutside))
  {
  }

  /** With several chunks, a cancellation from outside is not reported: for every input and
      configuration there is a finished run that reports success and has folded nothing, so that
      good rows are lost whenever there are any. */
  lemma OutsideCancellationLosesRows(c: Config, inputs: seq<seq<Option<Row>>>, s: State) returns (steps: seq<Step>)
    requires Initial(c, inputs, s) && |inputs| != 1
    ensures Runs(c, s, steps)
    ensures var t := After(c, s, steps);
            && Done(t) && ReportsSuccess(t) && t.sh.outside
            && (multiset(FoldedRows(t.ws)) == multiset(GoodsOfAll(inputs)) <==> GoodsOfAll(inputs) == [])
  {
    hide Enabled, Apply, Done, Runs, After, GoodsOfAll, FoldedRows, CalledOff;
    CallOff(c, inputs, s);
    var rest := WindDown(c, Apply(c, s, CancelOutside));
    steps := RunStep(c, s, CancelOutside, rest);
    var t := After(c, s, steps);
    InitiallySound(c, inputs, s);
    AlwaysSound(c, s, steps);
    CalledOffEnd(t);
    if GoodsOfAll(inputs) != [] {
      assert GoodsOfAll(inputs)[0] in multiset(GoodsOfAll(inputs));
    }
  }

  lemma CalledOffEnd(s: State)
    requires CalledOff(s) && |s.ps| != 1
    ensures ReportsSuccess(s) && s.sh.outside && FoldedRows(s.ws) == []
  {
    hide FoldedRows;
    NothingFolded(s.ws);
    forall i | 0 <= i < |s.ps|
      ensures !Reported(s.ps[i], false)
    {
      assert !FailedItself(s.ps[i]);
    }
  }

  /** Success can be trusted: every finished run that reports it has folded exactly the good rows,
      whether or not it was cancelled. */
  ghost predicate SuccessIsComplete(c: Config, inputs: seq<seq<Option<Row>>>, s: State) {
    forall steps :: Runs(c, s, steps) && Done(After(c, s, steps)) && ReportsSuccess(After(c, s, steps)) ==>
      multiset(FoldedRows(After(c, s, steps).ws)) == multiset(GoodsOfAll(inputs))
  }

  /** Cancellations included, success can be trusted exactly if the source is read by one reader,
      or holds no row at all. */
  lemma SuccessCanBeTrusted(c: Config, inputs: seq<seq<Option<Row>>>, s: State)
    requires Initial(c, inputs, s)
    ensures SuccessIsComplete(c, inputs, s) <==> |inputs| == 1 || GoodsOfAll(inputs) == []
  {
    hide Enabled, Apply, Done, Runs, After, GoodsOfAll, FoldedRows, ReportsSuccess, Initial, Total;
    if |inputs| == 1 || GoodsOfAll(inputs) == [] {
      forall steps | Runs(c, s, steps) && Done(After(c, s, steps)) && ReportsSuccess(After(c, s, steps))
        ensures multiset(FoldedRows(After(c, s, steps).ws)) == multiset(GoodsOfAll(inputs))
      {
        FinishedRun(c, inputs, s, steps);
        NothingFoldedTwice(c, inputs, s, steps);
      }
    } else {
      var steps := OutsideCancellationLosesRows(c, inputs, s);
    }
  }
}
