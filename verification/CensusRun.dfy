/** The census workers: `width` goroutines draw points from a shared cursor, ask
    about them, and book the answers, until the points run out, the budget ends
    or one article is definitively missing. */
module CensusRun {
  import opened Basics
  import opened CensusOrder

  // One STAT's outcome (section 6.2.4 of RFC 3977): the article is there, every
  // provider denies it, or the question itself failed.
  datatype Answer = Present | Absent | Failed

  datatype Worker = Idle | Asking(index: nat) | Gone

  // `ended` is the end of the run's context, by the budget or by a miss. `answers`
  // and `abandoned` keep the history the counters only count.
  datatype State = State(planned: nat, workers: seq<Worker>, cursor: nat, ended: bool,
                         checked: nat, transient: nat, missing: nat, unasked: nat, firstMiss: Option<nat>,
                         answers: map<nat, Answer>, abandoned: set<nat>)

  datatype Step =
    | Next(w: nat)
    | Book(w: nat, answer: Answer)
    | BudgetEnds

  predicate Enabled(s: State, step: Step) {
    match step
    case Next(w) => w < |s.workers| && s.workers[w].Idle?
    case Book(w, _) => w < |s.workers| && s.workers[w].Asking?
    case BudgetEnds => true
  }

  function Apply(s: State, step: Step): State
    requires Enabled(s, step)
  {
    match step
    case Next(w) =>
      if s.cursor >= s.planned || s.ended then s.(workers := s.workers[w := Gone])
      else s.(workers := s.workers[w := Asking(s.cursor)], cursor := s.cursor + 1)
    case Book(w, answer) =>
      var i := s.workers[w].index;
      if answer == Failed && s.ended then
        s.(unasked := s.unasked + 1, workers := s.workers[w := Gone], abandoned := s.abandoned + {i})
      else
        var s' := s.(checked := s.checked + 1, workers := s.workers[w := Idle], answers := s.answers[i := answer]);
        (match answer
         case Failed => s'.(transient := s'.transient + 1)
         case Present => s'
         case Absent => s'.(missing := s'.missing + 1, ended := true,
                            firstMiss := if s'.firstMiss.None? then Some(i) else s'.firstMiss))
    case BudgetEnds => s.(ended := true)
  }

  function Begin(planned: nat, width: nat): State {
    State(planned, seq(width, _ => Idle), 0, false, 0, 0, 0, 0, None, map[], {})
  }

  function Run(planned: nat, width: nat, steps: seq<Step>): Option<State> {
    if steps == [] then Some(Begin(planned, width))
    else
      match Run(planned, width, steps[..|steps| - 1])
      case None => None
      case Some(s) => if Enabled(s, steps[|steps| - 1]) then Some(Apply(s, steps[|steps| - 1])) else None
  }

  predicate Finished(s: State) {
    forall w :: 0 <= w < |s.workers| ==> s.workers[w].Gone?
  }

  predicate Complete(s: State) {
    s.missing > 0 || (s.cursor >= s.planned && s.unasked == 0)
  }

  // ---------------------------------------------------------------------------
  // What every step keeps

  function InFlight(workers: seq<Worker>): nat {
    if workers == [] then 0
    else InFlight(workers[..|workers| - 1]) + if workers[|workers| - 1].Asking? then 1 else 0
  }

  function AnswersOf(answers: map<nat, Answer>, a: Answer): set<nat> {
    set i | i in answers && answers[i] == a
  }

  /** The counters count the history. */
  ghost predicate Counted(s: State) {
    && s.cursor == s.checked + s.unasked + InFlight(s.workers)
    && s.checked == |s.answers| && s.unasked == |s.abandoned|
    && s.missing == |AnswersOf(s.answers, Absent)| && s.transient == |AnswersOf(s.answers, Failed)|
  }

  /** Each point handed out is answered, given up, or in exactly one worker's hands. */
  ghost predicate Placed(s: State) {
    && s.cursor <= s.planned
    && (forall i :: i in s.answers ==> i < s.cursor && i !in s.abandoned)
    && (forall i :: i in s.abandoned ==> i < s.cursor)
    && (forall w :: 0 <= w < |s.workers| && s.workers[w].Asking? ==>
          s.workers[w].index < s.cursor && s.workers[w].index !in s.answers && s.workers[w].index !in s.abandoned)
    && (forall v, w :: 0 <= v < w < |s.workers| && s.workers[v].Asking? && s.workers[w].Asking? ==>
          s.workers[v].index != s.workers[w].index)
  }

  ghost predicate Accounted(s: State) {
    Counted(s) && Placed(s)
  }

  ghost predicate MissStops(s: State, width: nat) {
    && |s.workers| == width
    && (s.missing > 0 ==> s.ended && s.missing + InFlight(s.workers) <= width)
    && (s.firstMiss.Some? <==> s.missing > 0)
    && (s.firstMiss.Some? ==> s.firstMiss.value in s.answers && s.answers[s.firstMiss.value] == Absent)
    && (s.unasked > 0 ==> s.ended)
  }

  lemma {:induction false} InFlightBound(workers: seq<Worker>)
    ensures InFlight(workers) <= |workers|
  {
    if workers != [] { InFlightBound(workers[..|workers| - 1]); }
  }

  lemma {:induction false} InFlightUpdate(workers: seq<Worker>, w: nat, x: Worker)
    requires w < |workers|
    ensures InFlight(workers[w := x]) == InFlight(workers) - (if workers[w].Asking? then 1 else 0)
            + (if x.Asking? then 1 else 0)
    ensures workers[w].Asking? ==> InFlight(workers) >= 1
  {
    var n := |workers| - 1;
    if w == n {
      assert workers[w := x][..n] == workers[..n];
    } else {
      assert workers[w := x][..n] == workers[..n][w := x];
      InFlightUpdate(workers[..n], w, x);
    }
  }

  lemma {:induction false} NoneInFlight(workers: seq<Worker>)
    ensures InFlight(workers) == 0 <==> forall w :: 0 <= w < |workers| ==> !workers[w].Asking?
  {
    if workers != [] {
      var n := |workers| - 1;
      NoneInFlight(workers[..n]);
      if forall w :: 0 <= w < n ==> !workers[..n][w].Asking? {
        assert forall w :: 0 <= w < n ==> !workers[w].Asking?;
      } else {
        var w :| 0 <= w < n && workers[..n][w].Asking?;
        assert workers[w].Asking?;
      }
    }
  }

  lemma AnswersGrow(answers: map<nat, Answer>, i: nat, a: Answer, b: Answer)
    requires i !in answers
    ensures |AnswersOf(answers[i := a], b)| == |AnswersOf(answers, b)| + if b == a then 1 else 0
  {
    var before, after := AnswersOf(answers, b), AnswersOf(answers[i := a], b);
    if b == a {
      assert after == before + {i};
    } else {
      assert after == before;
    }
  }

  lemma NextKeepsBooks(s: State, w: nat, width: nat)
    requires Accounted(s) && MissStops(s, width) && Enabled(s, Next(w))
    ensures Accounted(Apply(s, Next(w))) && MissStops(Apply(s, Next(w)), width)
  {
    InFlightUpdate(s.workers, w, Apply(s, Next(w)).workers[w]);
  }

  lemma {:induction false} GivingUpKeepsBooks(s: State, w: nat, width: nat)
    requires Accounted(s) && MissStops(s, width) && Enabled(s, Book(w, Failed)) && s.ended
    ensures Accounted(Apply(s, Book(w, Failed))) && MissStops(Apply(s, Book(w, Failed)), width)
  {
    InFlightUpdate(s.workers, w, Gone);
  }

  lemma AnswerKeepsPlaces(s: State, w: nat, answer: Answer)
    requires Placed(s) && Enabled(s, Book(w, answer))
    requires !(answer == Failed && s.ended)
    ensures Placed(Apply(s, Book(w, answer)))
  {
  }

  lemma AnswerKeepsCount(s: State, w: nat, answer: Answer)
    requires Counted(s) && Placed(s) && Enabled(s, Book(w, answer))
    requires !(answer == Failed && s.ended)
    ensures Counted(Apply(s, Book(w, answer)))
  {
    InFlightUpdate(s.workers, w, Idle);
    AnswersGrow(s.answers, s.workers[w].index, answer, Absent);
    AnswersGrow(s.answers, s.workers[w].index, answer, Failed);
  }

  lemma AnswerKeepsMisses(s: State, w: nat, answer: Answer, width: nat)
    requires Placed(s) && MissStops(s, width) && Enabled(s, Book(w, answer))
    requires !(answer == Failed && s.ended)
    ensures MissStops(Apply(s, Book(w, answer)), width)
  {
    InFlightUpdate(s.workers, w, Idle);
    InFlightBound(s.workers);
  }

  lemma StepKeepsBooks(s: State, step: Step, width: nat)
    requires Accounted(s) && MissStops(s, width) && Enabled(s, step)
    ensures Accounted(Apply(s, step)) && MissStops(Apply(s, step), width)
  {
    match step
    case Next(w) => NextKeepsBooks(s, w, width);
    case Book(w, answer) =>
      if answer == Failed && s.ended {
        GivingUpKeepsBooks(s, w, width);
      } else {
        AnswerKeepsPlaces(s, w, answer);
        AnswerKeepsCount(s, w, answer);
        AnswerKeepsMisses(s, w, answer, width);
      }
    case BudgetEnds =>
  }

  lemma {:induction false} RunKeepsBooks(planned: nat, width: nat, steps: seq<Step>)
    requires Run(planned, width, steps).Some?
    ensures var s := Run(planned, width, steps).value;
            Accounted(s) && MissStops(s, width) && s.planned == planned
  {
    if steps == [] {
      NoneInFlight(Begin(planned, width).workers);
      assert AnswersOf(map[], Absent) == {} == AnswersOf(map[], Failed);
    } else {
      RunKeepsBooks(planned, width, steps[..|steps| - 1]);
      StepKeepsBooks(Run(planned, width, steps[..|steps| - 1]).value, steps[|steps| - 1], width);
    }
  }

  // ---------------------------------------------------------------------------
  // What a census promises

  /** In every state of every run, what was handed out is what was checked, given
      up or still being asked; and misses never outnumber the workers. */
  lemma HandedOutIsAccountedFor(planned: nat, width: nat, steps: seq<Step>)
    requires Run(planned, width, steps).Some?
    ensures var s := Run(planned, width, steps).value;
            s.cursor == s.checked + s.unasked + InFlight(s.workers) && s.missing <= width
  {
    RunKeepsBooks(planned, width, steps);
    InFlightBound(Run(planned, width, steps).value.workers);
  }

  /** After the first definitive miss no further point is handed out. */
  lemma {:induction false} NothingHandedOutAfterAMiss(planned: nat, width: nat, steps: seq<Step>, n: nat)
    requires n <= |steps| && Run(planned, width, steps).Some?
    requires Run(planned, width, steps[..n]).Some? && Run(planned, width, steps[..n]).value.missing > 0
    ensures Run(planned, width, steps).value.cursor == Run(planned, width, steps[..n]).value.cursor
  {
    if n < |steps| {
      var before := steps[..|steps| - 1];
      assert before[..n] == steps[..n];
      EndedStays(planned, width, before, n);
      NothingHandedOutAfterAMiss(planned, width, before, n);
    } else {
      assert steps[..n] == steps;
    }
  }

  lemma {:induction false} EndedStays(planned: nat, width: nat, steps: seq<Step>, n: nat)
    requires n <= |steps| && Run(planned, width, steps).Some?
    requires Run(planned, width, steps[..n]).Some? && Run(planned, width, steps[..n]).value.missing > 0
    ensures Run(planned, width, steps).value.ended
  {
    if n < |steps| {
      var before := steps[..|steps| - 1];
      assert before[..n] == steps[..n];
      EndedStays(planned, width, before, n);
    } else {
      assert steps[..n] == steps;
      RunKeepsBooks(planned, width, steps);
    }
  }

  /** The verdict, at the end of any run: a miss is reported exactly when some
      point was definitively answered missing, so never for a failed question or
      a spent budget; and the census calls itself complete exactly when it found
      a miss or has every planned point's answer. */
  lemma VerdictIsExact(planned: nat, width: nat, steps: seq<Step>)
    requires Run(planned, width, steps).Some? && Finished(Run(planned, width, steps).value)
    ensures var s := Run(planned, width, steps).value;
            && (s.missing > 0 <==> exists i :: i in s.answers && s.answers[i] == Absent)
            && (s.missing > 0 ==>
                  s.firstMiss.Some? && s.firstMiss.value in s.answers && s.answers[s.firstMiss.value] == Absent)
            && (Complete(s) <==> s.missing > 0 || forall i :: 0 <= i < planned ==> i in s.answers)
  {
    RunKeepsBooks(planned, width, steps);
    var s := Run(planned, width, steps).value;
    NoneInFlight(s.workers);
    if i :| i in s.answers && s.answers[i] == Absent {
      assert i in AnswersOf(s.answers, Absent);
    }
    if s.missing > 0 {
      var i :| i in AnswersOf(s.answers, Absent);
      assert i in s.answers && s.answers[i] == Absent;
    }
    CoversAll(s.answers.Keys, planned);
  }

  /** A set of that many points below the bound has them all. */
  lemma {:induction false} CoversAll(points: set<nat>, n: nat)
    requires forall i :: i in points ==> i < n
    ensures |points| <= n
    ensures |points| == n <==> forall i :: 0 <= i < n ==> i in points
  {
    if n == 0 {
      assert points == {};
    } else {
      var rest := points - {n - 1};
      CoversAll(rest, n - 1);
      if n - 1 in points {
        assert |points| == |rest| + 1;
      } else {
        assert rest == points;
      }
      if forall i :: 0 <= i < n ==> i in points {
        assert forall i :: 0 <= i < n - 1 ==> i in rest;
      }
    }
  }

  /** What is left to do. Every worker step spends some of it. */
  function WorkLeft(s: State): int {
    2 * (s.planned - s.cursor) + InFlight(s.workers) + Alive(s.workers)
  }

  function Alive(workers: seq<Worker>): nat {
    if workers == [] then 0
    else Alive(workers[..|workers| - 1]) + if workers[|workers| - 1].Gone? then 0 else 1
  }

  lemma {:induction false} AliveUpdate(workers: seq<Worker>, w: nat, x: Worker)
    requires w < |workers|
    ensures Alive(workers[w := x]) == Alive(workers) - (if workers[w].Gone? then 0 else 1) + (if x.Gone? then 0 else 1)
  {
    var n := |workers| - 1;
    if w == n {
      assert workers[w := x][..n] == workers[..n];
    } else {
      assert workers[w := x][..n] == workers[..n][w := x];
      AliveUpdate(workers[..n], w, x);
    }
  }

  lemma NextSpendsWork(s: State, w: nat)
    requires Accounted(s) && Enabled(s, Next(w))
    ensures 0 <= WorkLeft(Apply(s, Next(w))) < WorkLeft(s)
  {
    var x := Apply(s, Next(w)).workers[w];
    InFlightUpdate(s.workers, w, x);
    AliveUpdate(s.workers, w, x);
  }

  lemma EachStepSpendsWork(s: State, step: Step)
    requires Accounted(s) && Enabled(s, step) && !step.BudgetEnds?
    ensures 0 <= WorkLeft(Apply(s, step)) < WorkLeft(s)
  {
    if step.Next? {
      NextSpendsWork(s, step.w);
    } else {
      var x := Apply(s, step).workers[step.w];
      InFlightUpdate(s.workers, step.w, x);
      AliveUpdate(s.workers, step.w, x);
    }
  }

  lemma SomeWorkerCanMove(s: State)
    requires !Finished(s)
    ensures exists w :: Enabled(s, Next(w)) || Enabled(s, Book(w, Present))
  {
    var v :| 0 <= v < |s.workers| && !s.workers[v].Gone?;
    assert Enabled(s, Next(v)) || Enabled(s, Book(v, Present));
  }

  /** The wait group is always reached: a worker that is not gone can always move,
      and each such move uses up work, of which there is a finite amount. */
  lemma WorkersFinish(s: State, step: Step)
    requires Accounted(s) && Enabled(s, step) && !step.BudgetEnds?
    ensures 0 <= WorkLeft(Apply(s, step)) < WorkLeft(s)
    ensures !Finished(s) ==> exists w :: Enabled(s, Next(w)) || Enabled(s, Book(w, Present))
  {
    EachStepSpendsWork(s, step);
    if !Finished(s) {
      SomeWorkerCanMove(s);
    }
  }

  // The n-th step books a definitive miss.
  predicate MissesAt(steps: seq<Step>, n: nat) {
    n < |steps| && steps[n].Book? && steps[n].answer == Absent
  }

  // The point a worker is asking about after some steps.
  function AskedAfter(planned: nat, width: nat, steps: seq<Step>, w: nat): Option<nat> {
    match Run(planned, width, steps)
    case None => None
    case Some(s) => if w < |s.workers| && s.workers[w].Asking? then Some(s.workers[w].index) else None
  }

  /** The miss that is reported is the first one that was booked. */
  lemma {:induction false} FirstMissIsTheFirst(planned: nat, width: nat, steps: seq<Step>) returns (n: nat)
    requires Run(planned, width, steps).Some?
    ensures var first := Run(planned, width, steps).value.firstMiss;
            && (first.None? ==> forall m: nat :: !MissesAt(steps, m))
            && (first.Some? ==>
                  && MissesAt(steps, n) && first == AskedAfter(planned, width, steps[..n], steps[n].w)
                  && forall m: nat :: m < n ==> !MissesAt(steps, m))
  {
    n := 0;
    if steps != [] {
      var k := |steps| - 1;
      var before := steps[..k];
      n := FirstMissIsTheFirst(planned, width, before);
      assert forall m: nat :: m < k ==> (MissesAt(before, m) <==> MissesAt(steps, m));
      if Run(planned, width, before).value.firstMiss.None? {
        n := k;
      } else {
        assert before[..n] == steps[..n];
      }
    }
  }

  predicate BudgetEnded(steps: seq<Step>) {
    exists i :: 0 <= i < |steps| && steps[i].BudgetEnds?
  }

  lemma {:induction false} BudgetEndedOneMore(steps: seq<Step>)
    requires steps != []
    ensures BudgetEnded(steps) <==> BudgetEnded(steps[..|steps| - 1]) || steps[|steps| - 1].BudgetEnds?
  {
    var k := |steps| - 1;
    if BudgetEnded(steps[..k]) {
      var i :| 0 <= i < k && steps[..k][i].BudgetEnds?;
      assert steps[i].BudgetEnds?;
    }
  }

  // A run ends early, and a worker stops, only for a reason.
  ghost predicate StopsForCause(s: State, budgetEnded: bool) {
    && (s.ended ==> s.missing > 0 || budgetEnded)
    && forall w :: 0 <= w < |s.workers| && s.workers[w].Gone? ==> s.cursor >= s.planned || s.ended
  }

  lemma StepStopsForCause(s: State, step: Step, budgetEnded: bool)
    requires StopsForCause(s, budgetEnded) && Enabled(s, step)
    ensures StopsForCause(Apply(s, step), budgetEnded || step.BudgetEnds?)
  {
  }

  lemma {:induction false} RunStopsForCause(planned: nat, width: nat, steps: seq<Step>)
    requires Run(planned, width, steps).Some?
    ensures StopsForCause(Run(planned, width, steps).value, BudgetEnded(steps))
  {
    if steps != [] {
      var before := steps[..|steps| - 1];
      RunStopsForCause(planned, width, before);
      BudgetEndedOneMore(steps);
      StepStopsForCause(Run(planned, width, before).value, steps[|steps| - 1], BudgetEnded(before));
    }
  }

  /** A census that nobody cuts short and that finds no miss asks about everything: it can
      only end incomplete when its budget ended. */
  lemma UncutCensusIsComplete(planned: nat, width: nat, steps: seq<Step>)
    requires width > 0 && Run(planned, width, steps).Some? && Finished(Run(planned, width, steps).value)
    requires !BudgetEnded(steps)
    ensures var s := Run(planned, width, steps).value;
            Complete(s) && (s.missing == 0 ==> forall i :: 0 <= i < planned ==> i in s.answers)
  {
    RunKeepsBooks(planned, width, steps);
    RunStopsForCause(planned, width, steps);
    VerdictIsExact(planned, width, steps);
    var s := Run(planned, width, steps).value;
    assert s.workers[0].Gone?;
  }

  // ---------------------------------------------------------------------------
  // The census of a selected file

  /** VerifySelectedFileArticles rejects exactly when some segment it had to ask
      about is missing, and an unrejected complete census has an answer for every
      such segment of the file. */
  lemma CensusOfAFile(vols: seq<Volume>, width: nat, steps: seq<Step>)
    requires Run(|FlatOrder(vols)|, width, steps).Some? && Finished(Run(|FlatOrder(vols)|, width, steps).value)
    ensures var s := Run(|FlatOrder(vols)|, width, steps).value;
            var order := FlatOrder(vols);
            && (s.missing > 0 <==> exists i ::
                  0 <= i < |order| && Askable(vols, order[i]) && i in s.answers && s.answers[i] == Absent)
            && (Complete(s) && s.missing == 0 ==>
                  forall f :: Askable(vols, f) ==>
                    exists i :: 0 <= i < |order| && order[i] == f && i in s.answers && s.answers[i] != Absent)
  {
    var order := FlatOrder(vols);
    var s := Run(|order|, width, steps).value;
    VerdictIsExact(|order|, width, steps);
    RunKeepsBooks(|order|, width, steps);
    OrderIsComplete(vols);
    if i :| i in s.answers && s.answers[i] == Absent {
      assert order[i] in order;
    }
    if Complete(s) && s.missing == 0 {
      forall f | Askable(vols, f)
        ensures exists i :: 0 <= i < |order| && order[i] == f && i in s.answers && s.answers[i] != Absent
      {
        assert f in order;
        var i :| 0 <= i < |order| && order[i] == f;
        assert i in s.answers && s.answers[i] != Absent;
      }
    }
  }

  // ---------------------------------------------------------------------------
  // The two lock-held regions of a worker

  class Census {
    const planned: nat
    var cursor: nat
    var ended: bool
    var checked: nat
    var transient: nat
    var missing: nat
    var unasked: nat
    var firstMiss: Option<nat>
    ghost var workers: seq<Worker>
    ghost var answers: map<nat, Answer>
    ghost var abandoned: set<nat>

    ghost function View(): State
      reads this
    {
      State(planned, workers, cursor, ended, checked, transient, missing, unasked, firstMiss, answers, abandoned)
    }

    constructor (planned: nat, width: nat)
      ensures View() == Begin(planned, width)
    {
      this.planned := planned;
      cursor, checked, transient, missing, unasked := 0, 0, 0, 0, 0;
      ended := false;
      firstMiss := None;
      workers := seq(width, _ => Idle);
      answers := map[];
      abandoned := {};
    }

    method Draw(ghost w: nat) returns (index: Option<nat>)
      requires Enabled(View(), Next(w))
      modifies this
      ensures View() == Apply(old(View()), Next(w))
      ensures index == if workers[w].Asking? then Some(workers[w].index) else None
    {
      if cursor >= planned || ended {
        workers := workers[w := Gone];
        return None;
      }
      workers := workers[w := Asking(cursor)];
      index := Some(cursor);
      cursor := cursor + 1;
    }

    method BookAnswer(ghost w: nat, index: nat, answer: Answer) returns (goesOn: bool)
      requires Enabled(View(), Book(w, answer)) && workers[w] == Asking(index)
      modifies this
      ensures View() == Apply(old(View()), Book(w, answer))
      ensures goesOn <==> workers[w].Idle?
    {
      if answer == Failed && ended {
        unasked := unasked + 1;
        workers := workers[w := Gone];
        abandoned := abandoned + {index};
        return false;
      }
      if answer == Failed {
        checked := checked + 1;
        transient := transient + 1;
      } else if answer == Present {
        checked := checked + 1;
      } else {
        checked := checked + 1;
        missing := missing + 1;
        if firstMiss == None {
          firstMiss := Some(index);
        }
        ended := true;
      }
      workers := workers[w := Idle];
      answers := answers[index := answer];
      return true;
    }
  }
}
