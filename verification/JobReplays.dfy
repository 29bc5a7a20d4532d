/** What happens to a job whose functions queue steps and hand back a step_init: they
    are called again for every step defined in them, and queue their steps again. */
module JobReplays {
  import opened Options
  import opened JobPrograms
  import opened JobSpec
  import opened JobTraces
  import opened JobRuns

  const LATER: Code := Code("later", 0, Body([], Return(None)))

  const INNER: Code := Code("step_init", 1, Body([], Return(None)))

  /** Calls next_step(later) and returns a step_init of its own. */
  const QUEUEING: Code := Code("step_init", 0, Body([Queue(Next, LATER)], Return(Some(INNER))))

  /** The engine's loop for at most n steps. */
  function Taken(m: Machine, s: Job, n: nat): Job
    decreases n
  {
    if n == 0 || s.steps == [] then s
    else
      var (t, g) := RunStep(m, s);
      if g.Normal? then Taken(m, t, n - 1) else t
  }

  lemma QueueingRuns(s: Job)
    ensures RunBody(QUEUEING.body, s) == (Apply(s, Next, User(LATER)), Normal)
    ensures RunFrames([QUEUEING], s) == (Apply(s, Next, User(LATER)), Normal)
  {
    var acts := QUEUEING.body.acts;
    assert acts[1..] == [];
    assert RunActs(acts, s) == RunActs(acts[1..], Apply(s, Next, User(LATER)));
    assert [QUEUEING][1..] == [];
  }

  /** A step defined in such a function leaves one more of what it queues. */
  lemma EmptyStepDefinedIn(m: Machine, s: Job, c: Code)
    requires s.steps != [] && s.steps[0] == StepTuple([QUEUEING], User(c)) && s.ancestry == [QUEUEING]
    requires c.body == Body([], Return(None))
    ensures var (t, g) := RunStep(m, s);
            && g.Normal? && t.steps == [StepTuple([QUEUEING], User(LATER))] + s.steps[1..]
            && t.ancestry == [QUEUEING] && t.ran == s.ran + [User(c)]
  {
    QueueingRuns(PopStep(s));
    assert Kept([QUEUEING], User(c)) == [QUEUEING];
    assert RunBody(c.body, Framed(s)) == (Framed(s), Normal);
  }

  lemma FirstStep(m: Machine)
    ensures var (t, g) := RunStep(m, StartJob(Some(QUEUEING)));
            && g.Normal? && t.ancestry == [QUEUEING] && t.ran == [User(QUEUEING)]
            && t.steps == [StepTuple([QUEUEING], User(INNER)), StepTuple([], User(LATER))]
  {
    var s := StartJob(Some(QUEUEING));
    assert s.steps == [StepTuple([], User(QUEUEING))];
    QueueingRuns(PopStep(s));
    assert Framed(s) == PopStep(s);
    assert [] + [QUEUEING] == [QUEUEING];
    var acts := QUEUEING.body.acts;
    assert acts[1..] == [] && ActsOutcome(acts).Normal? && NestedInit(QUEUEING.body) == Some(INNER);
    assert AddStepInit(Apply(Framed(s), Next, User(LATER)), QUEUEING).ancestry == [QUEUEING];
  }

  lemma {:induction false} LaterForever(m: Machine, s: Job, n: nat)
    requires s.steps != [] && s.steps[0] == StepTuple([QUEUEING], User(LATER)) && s.ancestry == [QUEUEING]
    ensures Taken(m, s, n).steps == s.steps && |Taken(m, s, n).ran| == |s.ran| + n
    decreases n
  {
    if n > 0 {
      EmptyStepDefinedIn(m, s, LATER);
      var t := RunStep(m, s).0;
      assert t.steps == s.steps;
      LaterForever(m, t, n - 1);
    }
  }

  /** With next_step alone, the documented steps are step_init, the inner
      step_init and `later`. The code never gets to the end of the list: however
      many steps it takes, two are left. */
  lemma QueueingNeverEnds(m: Machine, n: nat)
    ensures NextOnly(QUEUEING) && Preorder(QUEUEING) == [User(QUEUEING), User(INNER), User(LATER)]
    ensures var s := Taken(m, StartJob(Some(QUEUEING)), n + 2);
            |s.steps| == 2 && |s.ran| == n + 2
  {
    Documented();
    FirstStep(m);
    var s := StartJob(Some(QUEUEING));
    var t := RunStep(m, s).0;
    EmptyStepDefinedIn(m, t, INNER);
    var u := RunStep(m, t).0;
    assert Taken(m, s, n + 2) == Taken(m, t, n + 1) == Taken(m, u, n);
    LaterForever(m, u, n);
  }

  lemma Documented()
    ensures NextOnly(QUEUEING) && Preorder(QUEUEING) == [User(QUEUEING), User(INNER), User(LATER)]
  {
    var acts := QUEUEING.body.acts;
    assert acts[1..] == [];
    assert ActsOutcome(acts).Normal?;
    assert Preorder(LATER) == [User(LATER)] && Preorder(INNER) == [User(INNER)];
    assert ActsPreorder(acts) == Preorder(LATER) + [];
  }
}
