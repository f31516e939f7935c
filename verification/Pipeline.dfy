/** The concurrent single-process run as a step system: one producer goroutine per chunk, an
    unbuffered channel, aggregation workers, a batch pool and a shared cancellation.

    A step is one atomic action of one goroutine; a run is any interleaving of enabled steps.
    Rows live in the batches, which all goroutines share: a goroutine only holds the name of a
    batch, and a recycled batch is emptied for its next owner. */
module Pipeline {
  import opened Values
  import opened Sequences

  datatype ProducerError = Canceled | BadRow | ReadFailure

  datatype ProducerState =
    | Opening
    | NeedBatch
    | Reading(batch: nat)
    | Sending(batch: nat, last: bool)
    | Returned(err: Option<ProducerError>)

  /** todo lists the outcomes of the lines not read yet: a row, or None for a bad line. */
  datatype Producer = Producer(todo: seq<Option<Row>>, st: ProducerState)

  datatype WorkerState =
    | Receiving
    | Folding(batch: nat)
    | Stopped
    | Finished

  datatype Worker = Worker(folded: seq<Row>, count: nat, st: WorkerState)

  datatype Config = Config(batchSize: nat, failOnBadRow: bool)

  /** What the goroutines share besides the channel. */
  datatype Shared = Shared(
    made: nat,               // batches created so far: 0, 1, ..., made - 1
    contents: map<nat, seq<Row>>, // the rows each of them holds
    pool: multiset<nat>,     // released batches
    cancelled: bool,         // the producers' context is done
    outside: bool,           // it was cancelled by the caller
    workerErr: bool,         // some worker's Add failed: the first error is recorded
    skipped: nat,
    dropped: multiset<Row>)  // rows of batches released unsent or unfolded

  datatype State = State(ps: seq<Producer>, ws: seq<Worker>, sh: Shared)

  datatype Step =
    | Open(i: nat)
    | OpenFails(i: nat)
    | GetPooled(i: nat, b: nat)
    | GetNew(i: nat)
    | SeeCancel(i: nat)
    | ReadLine(i: nat)
    | ReadFails(i: nat)
    | ReadEnd(i: nat)
    | Send(i: nat, w: nat)
    | Fold(w: nat)
    | FoldFails(w: nat)
    | Finish(w: nat)
    | CancelOutside

  predicate OnProducer(step: Step) {
    !(step.Fold? || step.FoldFails? || step.Finish? || step.CancelOutside?)
  }

  predicate OnWorker(step: Step) {
    step.Send? || step.Fold? || step.FoldFails? || step.Finish?
  }

  /** What one step sees and changes: at most one producer, at most one worker, and the
      shared state. A step without a producer or worker carries an idle stand-in. */
  datatype Local = Local(p: Producer, x: Worker, sh: Shared)

  predicate Busy(p: Producer) { p.st.Reading? || p.st.Sending? }

  /** The rows in a batch now. */
  function RowsIn(sh: Shared, b: nat): seq<Row> {
    if b in sh.contents then sh.contents[b] else []
  }

  // ---------- which steps are possible ----------

  predicate Allowed(l: Local, step: Step) {
    match step
    case Open(_) => l.p.st.Opening?
    case OpenFails(_) => l.p.st.Opening?
    case GetPooled(_, b) => l.p.st.NeedBatch? && b in l.sh.pool
    case GetNew(_) => l.p.st.NeedBatch?
    case SeeCancel(_) => Busy(l.p) && l.sh.cancelled
    case ReadLine(_) => l.p.st.Reading? && l.p.todo != []
    case ReadFails(_) => l.p.st.Reading?
    case ReadEnd(_) => l.p.st.Reading? && l.p.todo == []
    case Send(_, _) => l.p.st.Sending? && l.x.st.Receiving?
    case Fold(_) => l.x.st.Folding?
    case FoldFails(_) => l.x.st.Folding?
    case Finish(_) => l.x.st.Receiving?
    case CancelOutside => !l.sh.outside
  }

  predicate AllReturned(s: State) {
    forall i :: 0 <= i < |s.ps| ==> s.ps[i].st.Returned?
  }

  predicate InRange(s: State, step: Step) {
    && (OnProducer(step) ==> step.i < |s.ps|)
    && (OnWorker(step) ==> step.w < |s.ws|)
  }

  function View(s: State, step: Step): Local
    requires InRange(s, step)
  {
    Local(if OnProducer(step) then s.ps[step.i] else Producer([], Opening),
          if OnWorker(step) then s.ws[step.w] else Worker([], 0, Receiving),
          s.sh)
  }

  /** The channel is closed, and a worker can finish, only once every producer has returned. */
  predicate Enabled(s: State, step: Step) {
    InRange(s, step) && Allowed(View(s, step), step) && (step.Finish? ==> AllReturned(s))
  }

  // ---------- what each step does ----------

  /** A producer gives its batch back to the pool and returns. */
  function Abandon(l: Local, err: ProducerError): Local
    requires Busy(l.p)
  {
    Local(l.p.(st := Returned(Some(err))), l.x,
          l.sh.(pool := l.sh.pool + multiset{l.p.st.batch},
                dropped := l.sh.dropped + multiset(RowsIn(l.sh, l.p.st.batch)),
                cancelled := true))
  }

  /** A parsed row is appended to the batch in place. */
  function ParsedRow(c: Config, l: Local, row: Row): Local
    requires l.p.st.Reading? && l.p.todo != []
  {
    var b := l.p.st.batch;
    var rows := RowsIn(l.sh, b) + [row];
    Local(Producer(l.p.todo[1..], if |rows| >= c.batchSize then Sending(b, false) else Reading(b)), l.x,
          l.sh.(contents := l.sh.contents[b := rows]))
  }

  function Act(c: Config, l: Local, step: Step): Local
    requires Allowed(l, step)
  {
    var p, x, sh := l.p, l.x, l.sh;
    match step
    case Open(_) => l.(p := p.(st := NeedBatch))
    case OpenFails(_) => l.(p := p.(st := Returned(Some(ReadFailure))), sh := sh.(cancelled := true))
    case GetPooled(_, b) =>
      l.(p := p.(st := Reading(b)), sh := sh.(pool := sh.pool - multiset{b}, contents := sh.contents[b := []]))
    case GetNew(_) =>
      l.(p := p.(st := Reading(sh.made)), sh := sh.(made := sh.made + 1, contents := sh.contents[sh.made := []]))
    case SeeCancel(_) => Abandon(l, Canceled)
    case ReadLine(_) =>
      (match p.todo[0]
       case Some(row) => ParsedRow(c, l, row)
       case None =>
         if c.failOnBadRow then Abandon(l, BadRow)
         else l.(p := p.(todo := p.todo[1..]), sh := sh.(skipped := sh.skipped + 1)))
    case ReadFails(_) => Abandon(l, ReadFailure)
    case ReadEnd(_) =>
      if RowsIn(sh, p.st.batch) == [] then
        l.(p := p.(st := Returned(None)), sh := sh.(pool := sh.pool + multiset{p.st.batch}))
      else l.(p := p.(st := Sending(p.st.batch, true)))
    case Send(_, _) =>
      l.(p := p.(st := if p.st.last then Returned(None) else NeedBatch), x := x.(st := Folding(p.st.batch)))
    case Fold(_) =>
      var rows := RowsIn(sh, x.st.batch);
      l.(x := Worker(x.folded + rows, x.count + |rows|, Receiving), sh := sh.(pool := sh.pool + multiset{x.st.batch}))
    case FoldFails(_) =>
      l.(x := x.(st := Stopped),
         sh := sh.(pool := sh.pool + multiset{x.st.batch}, dropped := sh.dropped + multiset(RowsIn(sh, x.st.batch)),
                   workerErr := true, cancelled := true))
    case Finish(_) => l.(x := x.(st := Finished))
    case CancelOutside => l.(sh := sh.(outside := true, cancelled := true))
  }

  function Apply(c: Config, s: State, step: Step): State
    requires Enabled(s, step)
  {
    var l := Act(c, View(s, step), step);
    State(if OnProducer(step) then s.ps[step.i := l.p] else s.ps,
          if OnWorker(step) then s.ws[step.w := l.x] else s.ws,
          l.sh)
  }

  // ---------- runs ----------

  predicate Initial(c: Config, inputs: seq<seq<Option<Row>>>, s: State) {
    && c.batchSize > 0
    && |s.ps| == |inputs| && (forall i :: 0 <= i < |s.ps| ==> s.ps[i] == Producer(inputs[i], Opening))
    && |s.ws| > 0 && (forall w :: 0 <= w < |s.ws| ==> s.ws[w] == Worker([], 0, Receiving))
    && s.sh == Shared(0, map[], multiset{}, false, false, false, 0, multiset{})
  }

  /** Every step of the run is enabled where it is taken. */
  predicate Runs(c: Config, s: State, steps: seq<Step>)
    decreases steps
  {
    steps == [] || (Enabled(s, steps[0]) && Runs(c, Apply(c, s, steps[0]), steps[1..]))
  }

  function After(c: Config, s: State, steps: seq<Step>): State
    requires Runs(c, s, steps)
    decreases steps
  {
    if steps == [] then s else After(c, Apply(c, s, steps[0]), steps[1..])
  }

  // ---------- quantities ----------

  /** A step leaves the producer or worker it does not act on alone. */
  lemma ActIsLocal(c: Config, l: Local, step: Step)
    requires Allowed(l, step)
    ensures !OnProducer(step) ==> Act(c, l, step).p == l.p
    ensures !OnWorker(step) ==> Act(c, l, step).x == l.x
  {
  }

  /** A quantity carried by producers and workers changes by what the acting ones change. */
  lemma TotalsChange(c: Config, s: State, step: Step, f: Producer -> int, g: Worker -> int)
    requires Enabled(s, step)
    ensures var l, l', t := View(s, step), Act(c, View(s, step), step), Apply(c, s, step);
            Total(t.ps, f) + Total(t.ws, g)
            == Total(s.ps, f) + Total(s.ws, g) + f(l'.p) - f(l.p) + g(l'.x) - g(l.x)
  {
    hide Total, Act, Allowed;
    var l := Act(c, View(s, step), step);
    ActIsLocal(c, View(s, step), step);
    if OnProducer(step) {
      TotalUpdate(s.ps, f, step.i, l.p);
    }
    if OnWorker(step) {
      TotalUpdate(s.ws, g, step.w, l.x);
    }
  }

  // ---------- who holds which batch ----------

  function Holds(p: Producer, b: nat): int {
    if Busy(p) && p.st.batch == b then 1 else 0
  }

  function HoldsFolding(x: Worker, b: nat): int {
    if x.st.Folding? && x.st.batch == b then 1 else 0
  }

  function HeldByP(b: nat): Producer -> int { (p: Producer) => Holds(p, b) }

  function HeldByW(b: nat): Worker -> int { (x: Worker) => HoldsFolding(x, b) }

  /** How many owners a batch has: producers and workers holding it, and the pool. */
  function Owners(s: State, b: nat): int {
    Total(s.ps, HeldByP(b)) + Total(s.ws, HeldByW(b)) + s.sh.pool[b]
  }

  /** Every batch made so far has exactly one owner, and no other batch has any. */
  ghost predicate OneOwnerEach(s: State) {
    forall b: nat :: Owners(s, b) == if b < s.sh.made then 1 else 0
  }

  lemma AbandonKeepsOwners(l: Local, err: ProducerError, b: nat)
    requires Busy(l.p)
    ensures var l' := Abandon(l, err);
            && l'.x == l.x && l'.sh.made == l.sh.made
            && Holds(l'.p, b) + l'.sh.pool[b] == Holds(l.p, b) + l.sh.pool[b]
  {
  }

  lemma HandingOnKeepsOwners(c: Config, l: Local, step: Step, b: nat)
    requires Allowed(l, step) && (step.Send? || step.Fold? || step.FoldFails?)
    ensures var l' := Act(c, l, step);
            && l'.sh.made == l.sh.made
            && Holds(l'.p, b) + HoldsFolding(l'.x, b) + l'.sh.pool[b]
               == Holds(l.p, b) + HoldsFolding(l.x, b) + l.sh.pool[b]
  {
  }

  lemma GettingChangesOwners(c: Config, l: Local, step: Step, b: nat)
    requires Allowed(l, step) && (step.GetPooled? || step.GetNew? || step.ReadEnd?)
    ensures var l' := Act(c, l, step);
            && l'.x == l.x && l.sh.made <= l'.sh.made
            && Holds(l'.p, b) + l'.sh.pool[b]
               == Holds(l.p, b) + l.sh.pool[b] + if l.sh.made <= b < l'.sh.made then 1 else 0
  {
  }

  lemma LineKeepsOwners(c: Config, l: Local, b: nat)
    requires l.p.st.Reading? && l.p.todo != []
    ensures var l' := Act(c, l, ReadLine(0));
            && l'.x == l.x && l'.sh.made == l.sh.made
            && Holds(l'.p, b) + l'.sh.pool[b] == Holds(l.p, b) + l.sh.pool[b]
  {
    hide Abandon;
    AbandonKeepsOwners(l, BadRow, b);
  }

  /** What a step takes from one owner it gives to another; only a new batch adds one. */
  lemma OwnersChange(c: Config, l: Local, step: Step, b: nat)
    requires Allowed(l, step)
    ensures var l' := Act(c, l, step);
            && l.sh.made <= l'.sh.made
            && Holds(l'.p, b) + HoldsFolding(l'.x, b) + l'.sh.pool[b]
               == Holds(l.p, b) + HoldsFolding(l.x, b) + l.sh.pool[b] + if l.sh.made <= b < l'.sh.made then 1 else 0
  {
    hide Abandon, ParsedRow;
    match step
    case GetPooled(_, _) => GettingChangesOwners(c, l, step, b);
    case GetNew(_) => GettingChangesOwners(c, l, step, b);
    case ReadEnd(_) => GettingChangesOwners(c, l, step, b);
    case SeeCancel(_) => AbandonKeepsOwners(l, Canceled, b);
    case ReadFails(_) => AbandonKeepsOwners(l, ReadFailure, b);
    case ReadLine(_) => LineKeepsOwners(c, l, b);
    case Send(_, _) => HandingOnKeepsOwners(c, l, step, b);
    case Fold(_) => HandingOnKeepsOwners(c, l, step, b);
    case FoldFails(_) => HandingOnKeepsOwners(c, l, step, b);
    case _ =>
  }

  lemma OwnersStep(c: Config, s: State, step: Step)
    requires Enabled(s, step) && OneOwnerEach(s)
    ensures OneOwnerEach(Apply(c, s, step))
  {
    hide Total, Act, Allowed, Holds, HoldsFolding;
    forall b: nat
      ensures Owners(Apply(c, s, step), b) == if b < Apply(c, s, step).sh.made then 1 else 0
    {
      assert Owners(s, b) == if b < s.sh.made then 1 else 0;
      OwnersChange(c, View(s, step), step, b);
      TotalsChange(c, s, step, HeldByP(b), HeldByW(b));
    }
  }

  lemma InitiallyNoBatches(c: Config, inputs: seq<seq<Option<Row>>>, s: State)
    requires Initial(c, inputs, s)
    ensures OneOwnerEach(s)
  {
    forall b: nat
      ensures Owners(s, b) == 0
    {
      TotalOfSame(s.ps, HeldByP(b), 0);
      TotalOfSame(s.ws, HeldByW(b), 0);
    }
  }

  /** In every interleaving, every batch has exactly one owner at every moment: it is never
      shared, never lost, and never released twice. */
  lemma {:induction false} BatchesHaveOneOwner(c: Config, s: State, steps: seq<Step>)
    requires Runs(c, s, steps) && OneOwnerEach(s)
    ensures OneOwnerEach(After(c, s, steps))
    decreases steps
  {
    hide OneOwnerEach, Enabled, Apply;
    if steps != [] {
      OwnersStep(c, s, steps[0]);
      BatchesHaveOneOwner(c, Apply(c, s, steps[0]), steps[1..]);
    }
  }

  // ---------- ownership protects contents ----------

  /** A batch held by a producer was made, is not in the pool, and nobody else holds it. */
  lemma ProducerOwnsAlone(s: State, i: nat)
    requires OneOwnerEach(s) && i < |s.ps| && Busy(s.ps[i])
    ensures var b := s.ps[i].st.batch;
            && b < s.sh.made && s.sh.pool[b] == 0
            && (forall j :: 0 <= j < |s.ps| && j != i && Busy(s.ps[j]) ==> s.ps[j].st.batch != b)
            && (forall w :: 0 <= w < |s.ws| && s.ws[w].st.Folding? ==> s.ws[w].st.batch != b)
  {
    hide Total;
    var b := s.ps[i].st.batch;
    assert Owners(s, b) <= 1;
    TotalAtLeast(s.ps, HeldByP(b), i);
    TotalIsNonNegative(s.ws, HeldByW(b));
    forall j | 0 <= j < |s.ps| && j != i && Busy(s.ps[j])
      ensures s.ps[j].st.batch != b
    {
      if i < j {
        TotalAtLeastBoth(s.ps, HeldByP(b), i, j);
      } else {
        TotalAtLeastBoth(s.ps, HeldByP(b), j, i);
      }
    }
    forall w | 0 <= w < |s.ws| && s.ws[w].st.Folding?
      ensures s.ws[w].st.batch != b
    {
      TotalAtLeast(s.ws, HeldByW(b), w);
    }
  }

  /** The same for a worker. */
  lemma WorkerOwnsAlone(s: State, w: nat)
    requires OneOwnerEach(s) && w < |s.ws| && s.ws[w].st.Folding?
    ensures s.ws[w].st.batch < s.sh.made && s.sh.pool[s.ws[w].st.batch] == 0
  {
    hide Total;
    var b := s.ws[w].st.batch;
    assert Owners(s, b) <= 1;
    TotalAtLeast(s.ws, HeldByW(b), w);
    TotalIsNonNegative(s.ps, HeldByP(b));
  }

  lemma PooledIsUnheld(s: State, b: nat)
    requires OneOwnerEach(s) && b in s.sh.pool
    ensures b < s.sh.made && s.sh.pool[b] == 1
    ensures forall i :: 0 <= i < |s.ps| && Busy(s.ps[i]) ==> s.ps[i].st.batch != b
    ensures forall w :: 0 <= w < |s.ws| && s.ws[w].st.Folding? ==> s.ws[w].st.batch != b
  {
    hide Total;
    assert Owners(s, b) <= 1;
    TotalIsNonNegative(s.ps, HeldByP(b));
    TotalIsNonNegative(s.ws, HeldByW(b));
    forall i | 0 <= i < |s.ps| && Busy(s.ps[i])
      ensures s.ps[i].st.batch != b
    {
      ProducerOwnsAlone(s, i);
    }
    forall w | 0 <= w < |s.ws| && s.ws[w].st.Folding?
      ensures s.ws[w].st.batch != b
    {
      WorkerOwnsAlone(s, w);
    }
  }

  /** The one batch whose rows a step changes, if it does. */
  function Written(l: Local, step: Step): Option<nat>
    requires Allowed(l, step)
  {
    match step
    case GetPooled(_, b) => Some(b)
    case GetNew(_) => Some(l.sh.made)
    case ReadLine(_) => if l.p.todo[0].Some? then Some(l.p.st.batch) else None
    case _ => None
  }

  lemma OnlyWrittenChanges(c: Config, l: Local, step: Step, b: nat)
    requires Allowed(l, step) && Written(l, step) != Some(b)
    ensures RowsIn(Act(c, l, step).sh, b) == RowsIn(l.sh, b)
  {
  }

  /** While a goroutine holds a batch, no step of any other goroutine changes its rows. */
  lemma HeldRowsAreUndisturbed(c: Config, s: State, step: Step)
    requires Enabled(s, step) && OneOwnerEach(s)
    ensures var sh' := Apply(c, s, step).sh;
            && (forall j :: 0 <= j < |s.ps| && Busy(s.ps[j]) && !(OnProducer(step) && step.i == j) ==>
                  RowsIn(sh', s.ps[j].st.batch) == RowsIn(s.sh, s.ps[j].st.batch))
            && (forall w :: 0 <= w < |s.ws| && s.ws[w].st.Folding? ==>
                  RowsIn(sh', s.ws[w].st.batch) == RowsIn(s.sh, s.ws[w].st.batch))
  {
    hide Act, RowsIn, OneOwnerEach;
    var l := View(s, step);
    forall j | 0 <= j < |s.ps| && Busy(s.ps[j]) && !(OnProducer(step) && step.i == j)
      ensures RowsIn(Apply(c, s, step).sh, s.ps[j].st.batch) == RowsIn(s.sh, s.ps[j].st.batch)
    {
      ProducerOwnsAlone(s, j);
      OnlyWrittenChanges(c, l, step, s.ps[j].st.batch);
    }
    forall w | 0 <= w < |s.ws| && s.ws[w].st.Folding?
      ensures RowsIn(Apply(c, s, step).sh, s.ws[w].st.batch) == RowsIn(s.sh, s.ws[w].st.batch)
    {
      WorkerOwnsAlone(s, w);
      if step.ReadLine? {
        ProducerOwnsAlone(s, step.i);
      }
      OnlyWrittenChanges(c, l, step, s.ws[w].st.batch);
    }
  }
}
