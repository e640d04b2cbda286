// Two runs of the same calls on deques that hold the same.
module Agreement {
  import opened Allocation
  import opened Sequences
  import opened Model
  import opened Conservation

  // Capacity, granularity, reallocation and what was dropped before never show in what a deque
  // holds and hands back: with memory granted, two runs of the same calls agree, if neither takes
  // in what memory happens to hold.
  lemma {:induction false} RunsAgree<T>(lay: Layout, s: State<T>, answers: seq<Answer<T>>,
                                        lay': Layout, s': State<T>, answers': seq<Answer<T>>, ops: seq<Op<T>>)
    requires lay.Ok() && lay'.Ok() && s.elems == s'.elems && |answers| == |answers'| == |ops|
    requires AllGranted(answers) && AllGranted(answers')
    requires NeverExposes(lay, s, ops, answers) && NeverExposes(lay', s', ops, answers')
    ensures Run(lay, s, ops, answers).0.elems == Run(lay', s', ops, answers').0.elems
    ensures Run(lay, s, ops, answers).1 == Run(lay', s', ops, answers').1
    decreases |ops|
  {
    if ops != [] {
      hide *;
      RunLast(lay, s, ops, answers);
      RunLast(lay', s', ops, answers');
      AllGrantedBefore(answers);
      AllGrantedBefore(answers');
      CleanBefore(lay, s, ops, answers);
      CleanBefore(lay', s', ops, answers');
      RunsAgree(lay, s, ButLast(answers), lay', s', ButLast(answers'), ButLast(ops));
      StepsAgree(lay, Run(lay, s, ButLast(ops), ButLast(answers)).0, Last(answers),
                 lay', Run(lay', s', ButLast(ops), ButLast(answers')).0, Last(answers'), Last(ops));
    }
  }

  ghost predicate AllGranted<T>(answers: seq<Answer<T>>) {
    forall k | 0 <= k < |answers| :: answers[k].granted
  }

  lemma AllGrantedBefore<T>(answers: seq<Answer<T>>)
    requires answers != [] && AllGranted(answers)
    ensures Last(answers).granted && AllGranted(ButLast(answers))
  {}

  lemma CleanBefore<T>(lay: Layout, s: State<T>, ops: seq<Op<T>>, answers: seq<Answer<T>>)
    requires lay.Ok() && |answers| == |ops| > 0 && NeverExposes(lay, s, ops, answers)
    ensures NeverExposes(lay, s, ButLast(ops), ButLast(answers))
    ensures !Exposes(Run(lay, s, ButLast(ops), ButLast(answers)).0, Last(ops), Last(answers))
  {
    hide StateAt, Exposes;
    PrefixStates(lay, s, ops, answers);
    PrefixCalls(lay, s, ops, answers);
    assert !ExposesAt(lay, s, ops, answers, |ops| - 1);
  }

  lemma StepsAgree<T>(lay: Layout, s: State<T>, ans: Answer<T>, lay': Layout, s': State<T>, ans': Answer<T>, op: Op<T>)
    requires lay.Ok() && lay'.Ok() && s.elems == s'.elems && ans.granted && ans'.granted
    requires !Exposes(s, op, ans) && !Exposes(s', op, ans')
    ensures Step(lay, s, op, ans).0.elems == Step(lay', s', op, ans').0.elems
    ensures Step(lay, s, op, ans).1 == Step(lay', s', op, ans').1
  {
    ExposesWhen(s, op, ans);
    ExposesWhen(s', op, ans');
    hide Step, After, HandedBack, Exposes, LosesTail, Legal;
    StepGranted(lay, s, op, ans);
    StepGranted(lay', s', op, ans');
    if Legal(s.elems, op) {
      StaleIsUnused(s.elems, op, ans.stale, ans'.stale);
    }
  }

  lemma StepGranted<T>(lay: Layout, s: State<T>, op: Op<T>, ans: Answer<T>)
    requires lay.Ok() && ans.granted
    ensures !Legal(s.elems, op) ==> Step(lay, s, op, ans) == (s, NotCalled)
    ensures Legal(s.elems, op) ==>
              && Step(lay, s, op, ans).0.elems == After(s.elems, op, ans.stale, NewTail(s, op, ans))
              && Step(lay, s, op, ans).1 == Done(HandedBack(s.elems, op))
  {
    hide After, HandedBack, Discarded, Twice, GrownBy, Legal, NeedsMemory, NewTail;
  }

  lemma StaleIsUnused<T>(c: seq<T>, op: Op<T>, stale: T, stale': T)
    requires Legal(c, op) && !InFront(c, op)
    ensures After(c, op, stale, None) == After(c, op, stale', None)
  {
    if op.Insert? {
      InsertAsDocumented(c, op.i, op.x, stale);
      InsertAsDocumented(c, op.i, op.x, stale');
    }
    hide InsertOutcome, Inserted, Filter, Dedup, KeepFirst, KeepLast;
  }
}
