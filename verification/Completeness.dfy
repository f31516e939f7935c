/** What a finished concurrent run has done: no interleaving loses, repeats or invents a row,
    every failure is blamed, and a run that reports success has folded every good row. */
module Completeness {
  import opened Values
  import opened Sequences
  import opened Pipeline

  // ---------- the rows in the system ----------

  /** The rows among the outcomes of some lines. */
  function Goods(todo: seq<Option<Row>>): seq<Row> {
    if todo == [] then [] else (match todo[0] case Some(row) => [row] case None => []) + Goods(todo[1..])
  }

  function Bads(todo: seq<Option<Row>>): nat {
    if todo == [] then 0 else (if todo[0].None? then 1 else 0) + Bads(todo[1..])
  }

  /** How often a row is still among the unread lines of a producer. */
  function UnreadBy(r: Row): Producer -> int { (p: Producer) => multiset(Goods(p.todo))[r] }

  function FoldedBy(r: Row): Worker -> int { (x: Worker) => multiset(x.folded)[r] }

  /** How often a row is in batch b, if the batch is in use; what a pooled batch still holds
      is left over. */
  function LiveAt(sh: Shared, b: nat, r: Row): int {
    if sh.pool[b] == 0 then multiset(RowsIn(sh, b))[r] else 0
  }

  function Live(sh: Shared, n: nat, r: Row): int {
    if n == 0 then 0 else Live(sh, n - 1, r) + LiveAt(sh, n - 1, r)
  }

  /** How often a row occurs in the whole system: unread, in a batch in use, folded or dropped. */
  function Occurrences(s: State, r: Row): int {
    Total(s.ps, UnreadBy(r)) + Total(s.ws, FoldedBy(r)) + Live(s.sh, s.sh.made, r) + s.sh.dropped[r]
  }

  lemma {:induction false} LiveUpdate(sh: Shared, sh': Shared, n: nat, b: nat, r: Row)
    requires forall x: nat :: x < n && x != b ==> LiveAt(sh', x, r) == LiveAt(sh, x, r)
    ensures Live(sh', n, r) - Live(sh, n, r) == if b < n then LiveAt(sh', b, r) - LiveAt(sh, b, r) else 0
  {
    hide LiveAt;
    if n > 0 {
      LiveUpdate(sh, sh', n - 1, b, r);
    }
  }

  /** The acting goroutines own the batches they act on, and so does the pool. */
  predicate Owns(l: Local, step: Step) {
    && (Busy(l.p) ==> l.p.st.batch < l.sh.made && l.sh.pool[l.p.st.batch] == 0)
    && (l.x.st.Folding? ==> l.x.st.batch < l.sh.made && l.sh.pool[l.x.st.batch] == 0)
    && (step.GetPooled? ==> step.b < l.sh.made && l.sh.pool[step.b] == 1)
    && l.sh.pool[l.sh.made] == 0
  }

  lemma OwnersOwn(s: State, step: Step)
    requires Enabled(s, step) && OneOwnerEach(s)
    ensures Owns(View(s, step), step)
  {
    hide OneOwnerEach;
    if OnProducer(step) && Busy(s.ps[step.i]) {
      ProducerOwnsAlone(s, step.i);
    }
    if OnWorker(step) && s.ws[step.w].st.Folding? {
      WorkerOwnsAlone(s, step.w);
    }
    if step.GetPooled? {
      PooledIsUnheld(s, step.b);
    }
    if s.sh.made in s.sh.pool {
      PooledIsUnheld(s, s.sh.made);
    }
  }

  /** What the rows of one step add up to, but for the other goroutines. */
  function LocalRows(l: Local, r: Row): int {
    multiset(Goods(l.p.todo))[r] + multiset(l.x.folded)[r] + Live(l.sh, l.sh.made, r) + l.sh.dropped[r]
  }

  /** A batch given back with its rows dropped. */
  lemma AbandonKeepsRows(l: Local, err: ProducerError, r: Row)
    requires Busy(l.p) && l.p.st.batch < l.sh.made && l.sh.pool[l.p.st.batch] == 0
    ensures LocalRows(Abandon(l, err), r) == LocalRows(l, r)
  {
    hide Goods, Live;
    LiveUpdate(l.sh, Abandon(l, err).sh, l.sh.made, l.p.st.batch, r);
  }

  lemma GoodsOfFirst(todo: seq<Option<Row>>, r: Row)
    requires todo != []
    ensures multiset(Goods(todo))[r] == multiset(Goods(todo[1..]))[r] + if todo[0] == Some(r) then 1 else 0
  {
  }

  lemma ParsedRowKeepsRows(c: Config, l: Local, row: Row, r: Row)
    requires l.p.st.Reading? && l.p.todo != [] && l.p.todo[0] == Some(row)
    requires l.p.st.batch < l.sh.made && l.sh.pool[l.p.st.batch] == 0
    ensures LocalRows(ParsedRow(c, l, row), r) == LocalRows(l, r)
  {
    hide Goods, Live;
    GoodsOfFirst(l.p.todo, r);
    LiveUpdate(l.sh, ParsedRow(c, l, row).sh, l.sh.made, l.p.st.batch, r);
  }

  lemma LineKeepsRows(c: Config, l: Local, r: Row)
    requires l.p.st.Reading? && l.p.todo != [] && l.p.st.batch < l.sh.made && l.sh.pool[l.p.st.batch] == 0
    ensures LocalRows(Act(c, l, ReadLine(0)), r) == LocalRows(l, r)
  {
    hide Abandon, ParsedRow, LocalRows, Goods;
    match l.p.todo[0]
    case Some(row) => ParsedRowKeepsRows(c, l, row, r);
    case None =>
      AbandonKeepsRows(l, BadRow, r);
      SkippedLineKeepsRows(l, l.(p := l.p.(todo := l.p.todo[1..]), sh := l.sh.(skipped := l.sh.skipped + 1)), r);
  }

  lemma SkippedLineKeepsRows(l: Local, l': Local, r: Row)
    requires l.p.todo != [] && l.p.todo[0] == None && l'.p.todo == l.p.todo[1..] && l'.x == l.x
    requires l'.sh == l.sh.(skipped := l'.sh.skipped)
    ensures LocalRows(l', r) == LocalRows(l, r)
  {
    hide Goods, Live;
    GoodsOfFirst(l.p.todo, r);
    LiveUpdate(l.sh, l'.sh, l.sh.made, l.sh.made, r);
  }

  lemma PooledKeepsRows(c: Config, l: Local, b: nat, r: Row)
    requires Allowed(l, GetPooled(0, b)) && Owns(l, GetPooled(0, b))
    ensures LocalRows(Act(c, l, GetPooled(0, b)), r) == LocalRows(l, r)
  {
    hide Goods, Live;
    LiveUpdate(l.sh, Act(c, l, GetPooled(0, b)).sh, l.sh.made, b, r);
  }

  lemma NewKeepsRows(c: Config, l: Local, r: Row)
    requires Allowed(l, GetNew(0)) && Owns(l, GetNew(0))
    ensures LocalRows(Act(c, l, GetNew(0)), r) == LocalRows(l, r)
  {
    hide Goods;
    LiveUpdate(l.sh, Act(c, l, GetNew(0)).sh, l.sh.made, l.sh.made, r);
  }

  lemma FoldKeepsRows(c: Config, l: Local, r: Row)
    requires Allowed(l, Fold(0)) && Owns(l, Fold(0))
    ensures LocalRows(Act(c, l, Fold(0)), r) == LocalRows(l, r)
  {
    hide Goods, Live;
    var b := l.x.st.batch;
    LiveUpdate(l.sh, l.sh.(pool := l.sh.pool + multiset{b}), l.sh.made, b, r);
  }

  lemma FailedFoldKeepsRows(c: Config, l: Local, r: Row)
    requires Allowed(l, FoldFails(0)) && Owns(l, FoldFails(0))
    ensures LocalRows(Act(c, l, FoldFails(0)), r) == LocalRows(l, r)
  {
    hide Goods, Live;
    LiveUpdate(l.sh, Act(c, l, FoldFails(0)).sh, l.sh.made, l.x.st.batch, r);
  }

  lemma EndKeepsRows(c: Config, l: Local, r: Row)
    requires Allowed(l, ReadEnd(0)) && Owns(l, ReadEnd(0))
    ensures LocalRows(Act(c, l, ReadEnd(0)), r) == LocalRows(l, r)
  {
    hide Goods, Live;
    LiveUpdate(l.sh, Act(c, l, ReadEnd(0)).sh, l.sh.made, l.p.st.batch, r);
  }

  lemma OtherStepsKeepRows(c: Config, l: Local, step: Step, r: Row)
    requires Allowed(l, step) && (step.Open? || step.OpenFails? || step.Send? || step.Finish? || step.CancelOutside?)
    ensures LocalRows(Act(c, l, step), r) == LocalRows(l, r)
  {
    hide Goods, Live;
    LiveUpdate(l.sh, Act(c, l, step).sh, l.sh.made, l.sh.made, r);
  }

  /** No step makes a row appear or disappear, as long as batches have one owner. */
  lemma RowsChange(c: Config, l: Local, step: Step, r: Row)
    requires Allowed(l, step) && Owns(l, step)
    ensures LocalRows(Act(c, l, step), r) == LocalRows(l, r)
  {
    hide Abandon, ParsedRow, LocalRows;
    match step
    case SeeCancel(_) => AbandonKeepsRows(l, Canceled, r);
    case ReadFails(_) => AbandonKeepsRows(l, ReadFailure, r);
    case ReadLine(_) => LineKeepsRows(c, l, r);
    case GetPooled(_, b) => PooledKeepsRows(c, l, b, r);
    case GetNew(_) => NewKeepsRows(c, l, r);
    case Fold(_) => FoldKeepsRows(c, l, r);
    case FoldFails(_) => FailedFoldKeepsRows(c, l, r);
    case ReadEnd(_) => EndKeepsRows(c, l, r);
    case _ => OtherStepsKeepRows(c, l, step, r);
  }

  /** Where every batch has one owner, no run makes a row appear, disappear or repeat. */
  lemma {:induction false} RowsAreConserved(c: Config, s: State, steps: seq<Step>, r: Row)
    requires Runs(c, s, steps) && OneOwnerEach(s)
    ensures Occurrences(After(c, s, steps), r) == Occurrences(s, r)
    decreases steps
  {
    hide Total, Act, Allowed, Goods, Live, OneOwnerEach;
    if steps != [] {
      OwnersOwn(s, steps[0]);
      OwnersStep(c, s, steps[0]);
      RowsChange(c, View(s, steps[0]), steps[0], r);
      TotalsChange(c, s, steps[0], UnreadBy(r), FoldedBy(r));
      RowsAreConserved(c, Apply(c, s, steps[0]), steps[1..], r);
    }
  }

  /** Ownership is what protects the rows: where a batch is read into while it is also in the
      pool, the row read is lost. */
  lemma SharedBatchLosesRows(c: Config, row: Row) returns (s: State, step: Step)
    requires c.batchSize > 0
    ensures Enabled(s, step) && !OneOwnerEach(s)
    ensures Occurrences(s, row) == 1 && Occurrences(Apply(c, s, step), row) == 0
  {
    hide Goods, OneOwnerEach;
    var p, x := Producer([Some(row)], Reading(0)), Worker([], 0, Receiving);
    var sh := Shared(1, map[0 := []], multiset{0}, false, false, false, 0, multiset{});
    s := State([p], [x], sh);
    step := ReadLine(0);
    TwoOwners(s);
    var l := ParsedRow(c, Local(p, x, sh), row);
    var t := State([l.p], [x], l.sh);
    assert Apply(c, s, step) == t by {
      assert [p][0 := l.p] == [l.p];
    }
    assert p.todo[1..] == [];
    GoodsOfFirst(p.todo, row);
    NoGoods();
    SoloOccurrences(s, row);
    SoloOccurrences(t, row);
  }

  lemma NoGoods()
    ensures Goods([]) == []
  {
  }

  lemma TwoOwners(s: State)
    requires |s.ps| == |s.ws| == 1 && s.ps[0].st == Reading(0) && s.ws[0].st.Receiving? && 0 in s.sh.pool
    ensures !OneOwnerEach(s)
  {
    hide Total;
    if OneOwnerEach(s) {
      ProducerOwnsAlone(s, 0);
    }
  }

  lemma SoloOccurrences(s: State, r: Row)
    requires |s.ps| == |s.ws| == 1 && s.sh.made == 1 && s.sh.pool[0] == 1
    ensures Occurrences(s, r) == multiset(Goods(s.ps[0].todo))[r] + multiset(s.ws[0].folded)[r] + s.sh.dropped[r]
  {
    hide Goods;
    TotalOfOne(s.ps[0], UnreadBy(r));
    TotalOfOne(s.ws[0], FoldedBy(r));
    assert s.ps == [s.ps[0]] && s.ws == [s.ws[0]];
    assert Live(s.sh, 1, r) == Live(s.sh, 0, r) + LiveAt(s.sh, 0, r);
  }

  lemma TotalOfOne<T>(x: T, f: T -> int)
    ensures Total([x], f) == f(x)
  {
    assert [x][..0] == [];
  }

  // ---------- skipped lines ----------

  function BadsLeft(): Producer -> int { (p: Producer) => Bads(p.todo) }

  function Nothing(): Worker -> int { (x: Worker) => 0 }

  function BadLines(s: State): int {
    Total(s.ps, BadsLeft()) + Total(s.ws, Nothing()) + s.sh.skipped
  }

  lemma LineChangesBads(c: Config, l: Local)
    requires l.p.st.Reading? && l.p.todo != []
    ensures var l' := Act(c, l, ReadLine(0)); Bads(l'.p.todo) + l'.sh.skipped == Bads(l.p.todo) + l.sh.skipped
  {
  }

  lemma BadLinesChange(c: Config, l: Local, step: Step)
    requires Allowed(l, step)
    ensures var l' := Act(c, l, step); Bads(l'.p.todo) + l'.sh.skipped == Bads(l.p.todo) + l.sh.skipped
  {
    hide Bads, ParsedRow;
    if step.ReadLine? {
      LineChangesBads(c, l);
    }
  }

  lemma {:induction false} BadLinesAreConserved(c: Config, s: State, steps: seq<Step>)
    requires Runs(c, s, steps)
    ensures BadLines(After(c, s, steps)) == BadLines(s)
    decreases steps
  {
    hide Total, Act, Allowed, Bads;
    if steps != [] {
      BadLinesChange(c, View(s, steps[0]), steps[0]);
      TotalsChange(c, s, steps[0], BadsLeft(), Nothing());
      BadLinesAreConserved(c, Apply(c, s, steps[0]), steps[1..]);
    }
  }

  // ---------- who is to blame ----------

  /** The producer's own failure, which the run reports; Canceled is not reported. */
  predicate FailedItself(p: Producer) {
    p.st.Returned? && p.st.err.Some? && p.st.err.value != Canceled
  }

  predicate ProducerSound(p: Producer, sh: Shared) {
    && (p.st.Returned? && p.st.err.Some? ==> sh.cancelled)
    && (p.st == Returned(None) || (p.st.Sending? && p.st.last) ==> p.todo == [])
  }

  predicate WorkerSound(x: Worker, sh: Shared) {
    (x.st.Stopped? ==> sh.workerErr) && x.count == |x.folded|
  }

  predicate SharedSound(sh: Shared) {
    (sh.workerErr || sh.dropped != multiset{} ==> sh.cancelled)
  }

  /** What is once cancelled or failed stays so. */
  predicate Grows(sh: Shared, sh': Shared) {
    && (sh.cancelled ==> sh'.cancelled) && (sh.workerErr ==> sh'.workerErr) && (sh.outside ==> sh'.outside)
  }

  lemma AbandonIsSound(l: Local, err: ProducerError)
    requires Busy(l.p) && SharedSound(l.sh)
    ensures var l' := Abandon(l, err);
            && ProducerSound(l'.p, l'.sh) && SharedSound(l'.sh) && Grows(l.sh, l'.sh) && l'.x == l.x
            && (err != Canceled ==> FailedItself(l'.p))
            && l'.sh.workerErr == l.sh.workerErr && l'.sh.outside == l.sh.outside
  {
  }

  lemma LineIsSound(c: Config, l: Local)
    requires l.p.st.Reading? && l.p.todo != [] && SharedSound(l.sh)
    ensures var l' := Act(c, l, ReadLine(0));
            && SharedSound(l'.sh) && Grows(l.sh, l'.sh) && (l'.sh.cancelled && !l.sh.cancelled ==> FailedItself(l'.p))
  {
    hide Abandon;
    AbandonIsSound(l, BadRow);
  }

  lemma HandingOnIsSound(c: Config, l: Local, step: Step)
    requires Allowed(l, step) && OnWorker(step) && SharedSound(l.sh)
    ensures var l' := Act(c, l, step);
            && SharedSound(l'.sh) && Grows(l.sh, l'.sh) && (OnProducer(step) ==> !l.p.st.Returned?)
            && (l'.sh.cancelled && !l.sh.cancelled ==> l'.sh.workerErr)
  {
  }

  lemma StartingIsSound(c: Config, l: Local, step: Step)
    requires Allowed(l, step) && (step.Open? || step.OpenFails? || step.GetPooled? || step.GetNew? || step.ReadEnd?)
    requires SharedSound(l.sh)
    ensures var l' := Act(c, l, step);
            && SharedSound(l'.sh) && Grows(l.sh, l'.sh) && (l'.sh.cancelled && !l.sh.cancelled ==> FailedItself(l'.p))
  {
  }

  lemma LocalSoundShared(c: Config, l: Local, step: Step)
    requires Allowed(l, step) && SharedSound(l.sh)
    ensures var l' := Act(c, l, step);
            && SharedSound(l'.sh) && Grows(l.sh, l'.sh)
            && (OnProducer(step) ==> !l.p.st.Returned?)
            && (l'.sh.cancelled && !l.sh.cancelled ==>
                  l'.sh.outside || l'.sh.workerErr || (OnProducer(step) && FailedItself(l'.p)))
  {
    hide Abandon, ParsedRow, FailedItself;
    if OnWorker(step) {
      HandingOnIsSound(c, l, step);
    } else {
      match step
      case SeeCancel(_) => AbandonIsSound(l, Canceled);
      case ReadFails(_) => AbandonIsSound(l, ReadFailure);
      case ReadLine(_) => LineIsSound(c, l);
      case CancelOutside =>
      case _ => StartingIsSound(c, l, step);
    }
  }

  lemma LineKeepsProducerSound(c: Config, l: Local)
    requires l.p.st.Reading? && l.p.todo != [] && SharedSound(l.sh)
    ensures var l' := Act(c, l, ReadLine(0)); ProducerSound(l'.p, l'.sh)
  {
    hide Abandon;
    AbandonIsSound(l, BadRow);
  }

  lemma LocalSoundProducer(c: Config, l: Local, step: Step)
    requires Allowed(l, step) && SharedSound(l.sh) && ProducerSound(l.p, l.sh)
    ensures var l' := Act(c, l, step); ProducerSound(l'.p, l'.sh)
  {
    hide Abandon, ParsedRow;
    match step
    case SeeCancel(_) => AbandonIsSound(l, Canceled);
    case ReadFails(_) => AbandonIsSound(l, ReadFailure);
    case ReadLine(_) => LineKeepsProducerSound(c, l);
    case _ =>
  }

  lemma LocalSoundWorker(c: Config, l: Local, step: Step)
    requires Allowed(l, step) && SharedSound(l.sh) && WorkerSound(l.x, l.sh)
    ensures var l' := Act(c, l, step); WorkerSound(l'.x, l'.sh)
  {
    LocalSoundShared(c, l, step);
    if !OnWorker(step) {
      ActIsLocal(c, l, step);
    }
  }

  ghost predicate Sound(s: State) {
    && SharedSound(s.sh)
    && (forall i :: 0 <= i < |s.ps| ==> ProducerSound(s.ps[i], s.sh))
    && (forall w :: 0 <= w < |s.ws| ==> WorkerSound(s.ws[w], s.sh))
  }

  /** Every cancellation has a cause that is reported, unless the caller asked for it. */
  ghost predicate Blamed(s: State) {
    s.sh.cancelled ==> s.sh.outside || s.sh.workerErr || exists i :: 0 <= i < |s.ps| && FailedItself(s.ps[i])
  }

  /** Workers finish only after the channel is closed. */
  ghost predicate ClosedFirst(s: State) {
    (exists w :: 0 <= w < |s.ws| && s.ws[w].st.Finished?) ==> AllReturned(s)
  }

  lemma IdleIsSound(s: State, step: Step)
    requires InRange(s, step) && Sound(s)
    ensures ProducerSound(View(s, step).p, s.sh) && WorkerSound(View(s, step).x, s.sh)
  {
  }

  lemma SoundStep(c: Config, s: State, step: Step)
    requires Enabled(s, step) && Sound(s)
    ensures Sound(Apply(c, s, step))
  {
    hide Act, Allowed;
    IdleIsSound(s, step);
    LocalSoundShared(c, View(s, step), step);
    LocalSoundProducer(c, View(s, step), step);
    LocalSoundWorker(c, View(s, step), step);
    ActIsLocal(c, View(s, step), step);
  }

  lemma BlamedStep(c: Config, s: State, step: Step)
    requires Enabled(s, step) && Sound(s) && Blamed(s)
    ensures Blamed(Apply(c, s, step))
  {
    hide Act, Allowed;
    IdleIsSound(s, step);
    LocalSoundShared(c, View(s, step), step);
    var s' := Apply(c, s, step);
    if i :| 0 <= i < |s.ps| && FailedItself(s.ps[i]) {
      assert FailedItself(s'.ps[i]);
    }
    if OnProducer(step) {
      assert s'.ps[step.i] == Act(c, View(s, step), step).p;
    }
  }

  lemma ClosedFirstStep(c: Config, s: State, step: Step)
    requires Enabled(s, step) && ClosedFirst(s)
    ensures ClosedFirst(Apply(c, s, step))
  {
    var s' := Apply(c, s, step);
    if w :| 0 <= w < |s'.ws| && s'.ws[w].st.Finished? {
      assert s.ws[w].st.Finished? || step == Finish(w);
      assert forall i :: 0 <= i < |s.ps| ==> s.ps[i].st.Returned?;
      assert !OnProducer(step);
    }
  }

  lemma {:induction false} AlwaysSound(c: Config, s: State, steps: seq<Step>)
    requires Runs(c, s, steps) && Sound(s) && Blamed(s) && ClosedFirst(s)
    ensures Sound(After(c, s, steps)) && Blamed(After(c, s, steps)) && ClosedFirst(After(c, s, steps))
    ensures |After(c, s, steps).ps| == |s.ps| && |After(c, s, steps).ws| == |s.ws|
    decreases steps
  {
    hide Act, Allowed, Sound, Blamed, ClosedFirst;
    if steps != [] {
      SoundStep(c, s, steps[0]);
      BlamedStep(c, s, steps[0]);
      ClosedFirstStep(c, s, steps[0]);
      AlwaysSound(c, Apply(c, s, steps[0]), steps[1..]);
    }
  }

  // ---------- batch sizes ----------

  /** A batch is sent when it is full, or as the last of its chunk; it is never empty. */
  predicate ProducerSized(c: Config, p: Producer, sh: Shared) {
    && (p.st.Reading? ==> |RowsIn(sh, p.st.batch)| < c.batchSize)
    && (p.st.Sending? ==>
          var n := |RowsIn(sh, p.st.batch)|; 0 < n && if p.st.last then n < c.batchSize else n == c.batchSize)
  }

  predicate WorkerSized(c: Config, x: Worker, sh: Shared) {
    x.st.Folding? ==> 0 < |RowsIn(sh, x.st.batch)| <= c.batchSize
  }

  ghost predicate Sized(c: Config, s: State) {
    && c.batchSize > 0
    && (forall i :: 0 <= i < |s.ps| ==> ProducerSized(c, s.ps[i], s.sh))
    && (forall w :: 0 <= w < |s.ws| ==> WorkerSized(c, s.ws[w], s.sh))
  }

  lemma LineKeepsSizes(c: Config, l: Local)
    requires l.p.st.Reading? && l.p.todo != [] && c.batchSize > 0 && ProducerSized(c, l.p, l.sh)
    ensures var l' := Act(c, l, ReadLine(0)); ProducerSized(c, l'.p, l'.sh)
  {
  }

  lemma HandingOnKeepsSizes(c: Config, l: Local, step: Step)
    requires Allowed(l, step) && OnWorker(step) && ProducerSized(c, l.p, l.sh) && WorkerSized(c, l.x, l.sh)
    ensures var l' := Act(c, l, step);
            (OnProducer(step) ==> ProducerSized(c, l'.p, l'.sh)) && WorkerSized(c, l'.x, l'.sh)
  {
    hide RowsIn;
  }

  lemma LocalSized(c: Config, l: Local, step: Step)
    requires Allowed(l, step) && c.batchSize > 0 && ProducerSized(c, l.p, l.sh) && WorkerSized(c, l.x, l.sh)
    ensures var l' := Act(c, l, step);
            && (OnProducer(step) ==> ProducerSized(c, l'.p, l'.sh))
            && (OnWorker(step) ==> WorkerSized(c, l'.x, l'.sh))
  {
    hide ParsedRow;
    if OnWorker(step) {
      HandingOnKeepsSizes(c, l, step);
    } else if step.ReadLine? {
      LineKeepsSizes(c, l);
    }
  }

  lemma IdleIsSized(c: Config, s: State, step: Step)
    requires InRange(s, step) && Sized(c, s)
    ensures ProducerSized(c, View(s, step).p, s.sh) && WorkerSized(c, View(s, step).x, s.sh)
  {
  }

  lemma SizedStep(c: Config, s: State, step: Step)
    requires Enabled(s, step) && Sized(c, s) && OneOwnerEach(s)
    ensures Sized(c, Apply(c, s, step))
  {
    hide Act, Allowed, OneOwnerEach, RowsIn;
    IdleIsSized(c, s, step);
    LocalSized(c, View(s, step), step);
    ActIsLocal(c, View(s, step), step);
    HeldRowsAreUndisturbed(c, s, step);
  }

  lemma InitiallySized(c: Config, inputs: seq<seq<Option<Row>>>, s: State)
    requires Initial(c, inputs, s)
    ensures Sized(c, s)
  {
  }

  lemma {:induction false} StaysSized(c: Config, s: State, steps: seq<Step>)
    requires Runs(c, s, steps) && Sized(c, s) && OneOwnerEach(s)
    ensures Sized(c, After(c, s, steps))
    decreases steps
  {
    hide Act, Allowed, Sized, OneOwnerEach;
    if steps != [] {
      SizedStep(c, s, steps[0]);
      OwnersStep(c, s, steps[0]);
      StaysSized(c, Apply(c, s, steps[0]), steps[1..]);
    }
  }

  /** In every interleaving, the batches on their way are nonempty, full but for the last of a
      chunk, and never hold more than the batch size. */
  lemma AlwaysSized(c: Config, inputs: seq<seq<Option<Row>>>, s: State, steps: seq<Step>)
    requires Initial(c, inputs, s) && Runs(c, s, steps)
    ensures Sized(c, After(c, s, steps))
  {
    hide Sized, OneOwnerEach, Enabled, Apply;
    InitiallySized(c, inputs, s);
    InitiallyNoBatches(c, inputs, s);
    StaysSized(c, s, steps);
  }

  // ---------- finished runs ----------

  predicate Done(s: State) {
    && (forall i :: 0 <= i < |s.ps| ==> s.ps[i].st.Returned?)
    && (forall w :: 0 <= w < |s.ws| ==> s.ws[w].st.Stopped? || s.ws[w].st.Finished?)
  }

  predicate ReturnedError(p: Producer) { p.st.Returned? && p.st.err.Some? }

  /** Whether a producer's error reaches the caller: always from a source read alone, but of the
      readers of several chunks only if it is not a cancellation. */
  predicate Reported(p: Producer, alone: bool) {
    ReturnedError(p) && (alone || p.st.err.value != Canceled)
  }

  /** What the callers of the two halves see: no producer's error, and none of a worker. */
  predicate ReportsSuccess(s: State) {
    !s.sh.workerErr && forall i :: 0 <= i < |s.ps| ==> !Reported(s.ps[i], |s.ps| == 1)
  }

  /** All rows folded, worker by worker. */
  function FoldedRows(ws: seq<Worker>): seq<Row> {
    if ws == [] then [] else FoldedRows(ws[..|ws| - 1]) + ws[|ws| - 1].folded
  }

  function RowCount(): Worker -> int { (x: Worker) => x.count }

  function GoodsOfAll(inputs: seq<seq<Option<Row>>>): seq<Row> {
    if inputs == [] then [] else GoodsOfAll(inputs[..|inputs| - 1]) + Goods(inputs[|inputs| - 1])
  }

  function BadsOfAll(inputs: seq<seq<Option<Row>>>): nat {
    if inputs == [] then 0 else BadsOfAll(inputs[..|inputs| - 1]) + Bads(inputs[|inputs| - 1])
  }

  lemma {:induction false} FoldedTotals(ws: seq<Worker>, r: Row)
    ensures Total(ws, FoldedBy(r)) == multiset(FoldedRows(ws))[r]
  {
    if ws != [] {
      FoldedTotals(ws[..|ws| - 1], r);
    }
  }

  lemma {:induction false} CountTotals(ws: seq<Worker>)
    requires forall w :: 0 <= w < |ws| ==> ws[w].count == |ws[w].folded|
    ensures Total(ws, RowCount()) == |FoldedRows(ws)|
  {
    if ws != [] {
      CountTotals(ws[..|ws| - 1]);
    }
  }

  lemma {:induction false} InputTotals(inputs: seq<seq<Option<Row>>>, ps: seq<Producer>, r: Row)
    requires |ps| == |inputs| && forall i :: 0 <= i < |ps| ==> ps[i] == Producer(inputs[i], Opening)
    ensures Total(ps, UnreadBy(r)) == multiset(GoodsOfAll(inputs))[r]
    ensures Total(ps, BadsLeft()) == BadsOfAll(inputs)
  {
    hide Goods, Bads;
    if ps != [] {
      InputTotals(inputs[..|inputs| - 1], ps[..|ps| - 1], r);
    }
  }

  lemma InitiallySound(c: Config, inputs: seq<seq<Option<Row>>>, s: State)
    requires Initial(c, inputs, s)
    ensures Sound(s) && Blamed(s) && ClosedFirst(s)
  {
  }

  lemma InitialQuantities(c: Config, inputs: seq<seq<Option<Row>>>, s: State, r: Row)
    requires Initial(c, inputs, s)
    ensures Occurrences(s, r) == multiset(GoodsOfAll(inputs))[r]
    ensures BadLines(s) == BadsOfAll(inputs)
  {
    InputTotals(inputs, s.ps, r);
    TotalOfSame(s.ws, FoldedBy(r), 0);
    TotalOfSame(s.ws, Nothing(), 0);
  }

  /** Rows are dropped only where an error is returned. */
  ghost predicate Explained(s: State) {
    s.sh.dropped != multiset{} ==> s.sh.workerErr || exists i :: 0 <= i < |s.ps| && ReturnedError(s.ps[i])
  }

  lemma AbandonIsExplained(l: Local, err: ProducerError)
    requires Busy(l.p)
    ensures var l' := Abandon(l, err); ReturnedError(l'.p) && l'.sh.workerErr == l.sh.workerErr
  {
  }

  lemma LineIsExplained(c: Config, l: Local)
    requires l.p.st.Reading? && l.p.todo != []
    ensures var l' := Act(c, l, ReadLine(0));
            l'.sh.workerErr == l.sh.workerErr && (l'.sh.dropped == l.sh.dropped || ReturnedError(l'.p))
  {
    hide Abandon;
    AbandonIsExplained(l, BadRow);
  }

  lemma LocalExplained(c: Config, l: Local, step: Step)
    requires Allowed(l, step)
    ensures var l' := Act(c, l, step);
            && (l.sh.workerErr ==> l'.sh.workerErr)
            && (OnProducer(step) ==> !ReturnedError(l.p))
            && (l'.sh.dropped == l.sh.dropped || l'.sh.workerErr || (OnProducer(step) && ReturnedError(l'.p)))
  {
    hide ParsedRow, Abandon;
    match step
    case SeeCancel(_) => AbandonIsExplained(l, Canceled);
    case ReadFails(_) => AbandonIsExplained(l, ReadFailure);
    case ReadLine(_) => LineIsExplained(c, l);
    case _ =>
  }

  lemma ExplainedStep(c: Config, s: State, step: Step)
    requires Enabled(s, step) && Explained(s)
    ensures Explained(Apply(c, s, step))
  {
    hide Act, Allowed, ReturnedError;
    LocalExplained(c, View(s, step), step);
    var s' := Apply(c, s, step);
    if i :| 0 <= i < |s.ps| && ReturnedError(s.ps[i]) {
      assert ReturnedError(s'.ps[i]);
    }
    if OnProducer(step) {
      assert s'.ps[step.i] == Act(c, View(s, step), step).p;
    }
  }

  lemma {:induction false} AlwaysExplained(c: Config, s: State, steps: seq<Step>)
    requires Runs(c, s, steps) && Explained(s)
    ensures Explained(After(c, s, steps))
    decreases steps
  {
    hide Enabled, Apply, Explained;
    if steps != [] {
      ExplainedStep(c, s, steps[0]);
      AlwaysExplained(c, Apply(c, s, steps[0]), steps[1..]);
    }
  }

  /** A run that ends without any error has dropped nothing, even if it was cancelled. */
  lemma CleanEnding(s: State)
    requires Sound(s) && Explained(s) && Done(s)
    requires !s.sh.workerErr && forall i :: 0 <= i < |s.ps| ==> !ReturnedError(s.ps[i])
    ensures s.sh.dropped == multiset{}
    ensures forall i :: 0 <= i < |s.ps| ==> s.ps[i] == Producer([], Returned(None))
    ensures forall w :: 0 <= w < |s.ws| ==> s.ws[w].st.Finished?
  {
    forall i | 0 <= i < |s.ps|
      ensures s.ps[i] == Producer([], Returned(None))
    {
      assert ProducerSound(s.ps[i], s.sh);
      assert !ReturnedError(s.ps[i]);
    }
    forall w | 0 <= w < |s.ws|
      ensures s.ws[w].st.Finished?
    {
      assert WorkerSound(s.ws[w], s.sh);
    }
  }

  /** Unless it was cancelled from outside, a run reports success exactly when nothing was
      cancelled. */
  lemma SuccessUncancelled(s: State)
    requires Sound(s) && Blamed(s) && !s.sh.outside
    ensures ReportsSuccess(s) <==> !s.sh.cancelled
    ensures !s.sh.cancelled ==> forall i :: 0 <= i < |s.ps| ==> !ReturnedError(s.ps[i])
  {
    if s.sh.cancelled && !s.sh.workerErr {
      var i :| 0 <= i < |s.ps| && FailedItself(s.ps[i]);
      assert Reported(s.ps[i], |s.ps| == 1);
    }
    if !s.sh.cancelled {
      forall i | 0 <= i < |s.ps|
        ensures !ReturnedError(s.ps[i])
      {
        assert ProducerSound(s.ps[i], s.sh);
      }
    }
  }

  lemma {:induction false} NothingLive(sh: Shared, n: nat, r: Row)
    requires forall b: nat :: b < n ==> sh.pool[b] == 1
    ensures Live(sh, n, r) == 0
  {
    if n > 0 {
      NothingLive(sh, n - 1, r);
    }
  }

  lemma EndingQuantities(s: State, r: Row)
    requires s.sh.dropped == multiset{} && forall b: nat :: b < s.sh.made ==> s.sh.pool[b] == 1
    requires forall i :: 0 <= i < |s.ps| ==> s.ps[i] == Producer([], Returned(None))
    requires forall w :: 0 <= w < |s.ws| ==> s.ws[w].st.Finished?
    ensures Occurrences(s, r) == multiset(FoldedRows(s.ws))[r]
    ensures BadLines(s) == s.sh.skipped
  {
    NothingLive(s.sh, s.sh.made, r);
    FoldedTotals(s.ws, r);
    TotalOfSame(s.ps, UnreadBy(r), 0);
    TotalOfSame(s.ps, BadsLeft(), 0);
    TotalOfSame(s.ws, Nothing(), 0);
  }

  lemma NoBatchIsHeld(s: State, b: nat)
    requires Done(s)
    ensures Owners(s, b) == s.sh.pool[b]
  {
    TotalOfSame(s.ps, HeldByP(b), 0);
    TotalOfSame(s.ws, HeldByW(b), 0);
  }

  /** A finished run without any error, whether it was cancelled or not. */
  lemma ErrorFreeRun(c: Config, inputs: seq<seq<Option<Row>>>, s: State, steps: seq<Step>)
    requires Initial(c, inputs, s) && Runs(c, s, steps) && Done(After(c, s, steps))
    requires var t := After(c, s, steps);
             && (forall b: nat :: b < t.sh.made ==> t.sh.pool[b] == 1) && Sound(t)
             && !t.sh.workerErr && forall i :: 0 <= i < |t.ps| ==> !ReturnedError(t.ps[i])
    ensures var t := After(c, s, steps);
            && multiset(FoldedRows(t.ws)) == multiset(GoodsOfAll(inputs))
            && Total(t.ws, RowCount()) == |GoodsOfAll(inputs)|
            && t.sh.skipped == BadsOfAll(inputs)
  {
    hide Total, Goods, Bads, GoodsOfAll, BadsOfAll, FoldedRows, Enabled, Apply, Occurrences, BadLines;
    var t := After(c, s, steps);
    InitiallyNoBatches(c, inputs, s);
    AlwaysExplained(c, s, steps);
    CleanEnding(t);
    forall r: Row
      ensures multiset(FoldedRows(t.ws))[r] == multiset(GoodsOfAll(inputs))[r]
    {
      InitialQuantities(c, inputs, s, r);
      RowsAreConserved(c, s, steps, r);
      EndingQuantities(t, r);
    }
    assert t.sh.skipped == BadsOfAll(inputs) by {
      InitialQuantities(c, inputs, s, []);
      BadLinesAreConserved(c, s, steps);
      EndingQuantities(t, []);
    }
    SameCounts(FoldedRows(t.ws), GoodsOfAll(inputs));
    CountTotals(t.ws);
  }

  /** Every finished run, whatever its interleaving and its outcome: each batch made is back in
      the pool once. If it reports success, and nobody cancelled it from outside or one reader
      read the whole source, then the rows folded are exactly the good rows of all inputs, the
      row count is their number, and exactly the bad lines were skipped. */
  lemma FinishedRun(c: Config, inputs: seq<seq<Option<Row>>>, s: State, steps: seq<Step>)
    requires Initial(c, inputs, s) && Runs(c, s, steps) && Done(After(c, s, steps))
    ensures var t := After(c, s, steps);
            && (forall b: nat :: t.sh.pool[b] == if b < t.sh.made then 1 else 0)
            && (!t.sh.outside ==> (ReportsSuccess(t) <==> !t.sh.cancelled))
            && (ReportsSuccess(t) && (!t.sh.outside || |inputs| == 1) ==>
                  && multiset(FoldedRows(t.ws)) == multiset(GoodsOfAll(inputs))
                  && Total(t.ws, RowCount()) == |GoodsOfAll(inputs)|
                  && t.sh.skipped == BadsOfAll(inputs))
  {
    hide Total, GoodsOfAll, BadsOfAll, FoldedRows, Enabled, Apply, Owners, Sound, Blamed, Runs, After, ReturnedError;
    var t := After(c, s, steps);
    InitiallyNoBatches(c, inputs, s);
    BatchesHaveOneOwner(c, s, steps);
    forall b: nat
      ensures t.sh.pool[b] == if b < t.sh.made then 1 else 0
    {
      NoBatchIsHeld(t, b);
      assert Owners(t, b) == if b < t.sh.made then 1 else 0;
    }
    InitiallySound(c, inputs, s);
    AlwaysSound(c, s, steps);
    if !t.sh.outside {
      SuccessUncancelled(t);
    }
    if ReportsSuccess(t) && (!t.sh.outside || |inputs| == 1) {
      forall i | 0 <= i < |t.ps|
        ensures !ReturnedError(t.ps[i])
      {
        assert !Reported(t.ps[i], |t.ps| == 1);
      }
      ErrorFreeRun(c, inputs, s, steps);
    }
  }

  lemma {:induction false} SomeLive(sh: Shared, n: nat, r: Row)
    ensures Live(sh, n, r) >= 0
  {
    if n > 0 {
      SomeLive(sh, n - 1, r);
    }
  }

  /** No run, finished or not, folds a row more often than the inputs hold it. */
  lemma NothingFoldedTwice(c: Config, inputs: seq<seq<Option<Row>>>, s: State, steps: seq<Step>)
    requires Initial(c, inputs, s) && Runs(c, s, steps)
    ensures multiset(FoldedRows(After(c, s, steps).ws)) <= multiset(GoodsOfAll(inputs))
  {
    hide Total, Goods, GoodsOfAll, FoldedRows, Enabled, Apply, BadLines, Live;
    var t := After(c, s, steps);
    InitiallyNoBatches(c, inputs, s);
    forall r: Row
      ensures multiset(FoldedRows(t.ws))[r] <= multiset(GoodsOfAll(inputs))[r]
    {
      InitialQuantities(c, inputs, s, r);
      RowsAreConserved(c, s, steps, r);
      FoldedTotals(t.ws, r);
      TotalIsNonNegative(t.ps, UnreadBy(r));
      SomeLive(t.sh, t.sh.made, r);
    }
  }

  lemma SameCounts(p: seq<Row>, q: seq<Row>)
    requires forall r: Row :: multiset(p)[r] == multiset(q)[r]
    ensures multiset(p) == multiset(q) && |p| == |q|
  {
    assert multiset(p) == multiset(q);
    assert |multiset(p)| == |multiset(q)|;
  }
}
