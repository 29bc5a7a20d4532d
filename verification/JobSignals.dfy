/** How tests, groups, try blocks and steps end, and what they write to the log. */
module JobSignals {
  import opened Options
  import opened Sequences
  import opened JobPrograms
  import opened JobSpec

  /** A job in which the group has been begun. */
  function Begun(s: Job, name: string): Job {
    s.(log := s.log + [Entry(Start, Unit(name))], indent := s.indent + 1, marker := Some(name))
  }

  /** A group returns if and only if its function does. A TestError or the loss
      of the process goes through it as it is; a JobError and any other exception
      leave it as a TestError. */
  lemma GroupSignal(s: Job, tag: string, b: Body)
    ensures var (g, r) := (RunBody(b, Begun(s, tag)).1, RunAct(RunGroup(tag, b), s).1);
            && (r.Normal? <==> g.Normal?)
            && (g.TestExc? || g.Continue? || g.Leave? || g.Down? ==> r == g)
            && (g.JobExc? || g.OtherExc? ==> r == TestExc("ERROR"))
  {
    assert OpenGroup(s, tag) == Begun(s, tag);
  }

  /** A group writes its START first and, unless the process is lost, its END
      last; it forgets the mark unless the machine goes down. */
  lemma GroupLog(s: Job, tag: string, b: Body)
    ensures var (inner, g) := RunBody(b, Begun(s, tag));
            var t := RunAct(RunGroup(tag, b), s).0;
            && s.log + [Entry(Start, Unit(tag))] <= inner.log
            && t.steps == inner.steps && t.marker == (if g.Down? then inner.marker else None)
            && match g
               case Normal => t.log == inner.log + [Entry(End("GOOD"), Unit(tag))]
               case TestExc(status) => t.log == inner.log + [Entry(End(status), Unit(tag))]
               case JobExc(_) => t.log == inner.log + [Entry(End("ABORT"), Unit(tag))]
               case OtherExc => t.log == inner.log + [Entry(End("ERROR"), Unit(tag))]
               case _ => t.log == inner.log
  {
    assert OpenGroup(s, tag) == Begun(s, tag);
    BodyLog(b, Begun(s, tag));
  }

  /** A test is reported between its START and END. One that fails returns all
      the same; only a JobError gets out of it. */
  lemma TestLog(s: Job, name: string, t: TestOutcome)
    ensures var (u, g) := RunAct(RunTest(name, t), s);
            var (begin, op) := (Entry(Start, Unit(name)), Unit(name));
            match t
            case Passed =>
              g == Normal && u.marker.None?
              && u.log == s.log + [begin, Entry(Plain("GOOD"), op), Entry(End("GOOD"), op)]
            case Failed(status) =>
              g == Normal && u.marker.None?
              && u.log == s.log + [begin, Entry(Plain(status), op), Entry(End(status), op)]
            case BrokeJob(cmd) =>
              g == JobExc(cmd) && u.marker.None? && u.log == s.log + [begin, Entry(End("ABORT"), op)]
            case Hung =>
              g == Down && u.marker == Some(name) && u.log == s.log + [begin]
  {
    var begin, op := Entry(Start, Unit(name)), Unit(name);
    match t
    case Passed => AppendThree(s.log, begin, Entry(Plain("GOOD"), op), Entry(End("GOOD"), op));
    case Failed(status) => AppendThree(s.log, begin, Entry(Plain(status), op), Entry(End(status), op));
    case BrokeJob(_) => AppendTwo(s.log, begin, Entry(End("ABORT"), op));
    case Hung =>
  }

  /** A try block lets through the loss of the process and nothing else. */
  lemma GuardSignal(s: Job, b: Body)
    ensures var (t, g) := RunBody(b, s);
            RunAct(Guarded(b), s) == (t, if g.Continue? || g.Leave? || g.Down? then g else Normal)
  {
  }

  // --------------------------------------------------- the log is only added to

  lemma {:induction false} BodyLog(b: Body, s: Job)
    ensures s.log <= RunBody(b, s).0.log
    decreases b
  {
    ActsLog(b.acts, s);
  }

  lemma {:induction false} ActsLog(acts: seq<Act>, s: Job)
    ensures s.log <= RunActs(acts, s).0.log
    decreases acts
  {
    if acts != [] {
      ActLog(acts[0], s);
      if RunAct(acts[0], s).1.Normal? {
        ActsLog(acts[1..], RunAct(acts[0], s).0);
      }
    }
  }

  lemma {:induction false} ActLog(a: Act, s: Job)
    ensures s.log <= RunAct(a, s).0.log
    decreases a
  {
    match a
    case Queue(_, _) =>
    case RunTest(_, _) =>
    case RunGroup(tag, body) => BodyLog(body, OpenGroup(s, tag));
    case Guarded(body) => BodyLog(body, s);
  }

  // ------------------------------------------------------- what ends a function

  /** The statement at which a function ends. */
  datatype Statement = AtTest(outcome: TestOutcome) | AtEnding(ending: Ending)

  /** That statement, and whether a group inside the function holds it. */
  datatype Stop = Stop(at: Statement, inGroup: bool)

  predicate Returns(at: Statement) {
    at.AtEnding? && at.ending.Return?
  }

  predicate Loses(at: Statement) {
    || at == AtTest(Hung)
    || (at.AtEnding? && (at.ending.Boot? || at.ending.Quit? || at.ending.Exit? || at.ending.Crash?))
  }

  /** Control goes to the first test or ending that is not passed and that no
      try block around it swallows. */
  function StopOf(b: Body): Stop
    decreases b
  {
    match ActsStop(b.acts)
    case Some(stop) => stop
    case None => Stop(AtEnding(b.ending), false)
  }

  function ActsStop(acts: seq<Act>): Option<Stop>
    decreases acts
  {
    if acts == [] then None
    else
      var stop := ActStop(acts[0]);
      if stop.Some? then stop else ActsStop(acts[1..])
  }

  function ActStop(a: Act): Option<Stop>
    decreases a
  {
    match a
    case Queue(_, _) => None
    case RunTest(_, t) => if t.Passed? || t.Failed? then None else Some(Stop(AtTest(t), false))
    case RunGroup(_, body) =>
      var stop := StopOf(body);
      if Returns(stop.at) then None else Some(stop.(inGroup := true))
    case Guarded(body) =>
      var stop := StopOf(body);
      if Loses(stop.at) then Some(stop) else None
  }

  /** How a body ends, by the statement at which it does. */
  predicate Fits(stop: Stop, g: Signal) {
    && (g.Normal? <==> Returns(stop.at))
    && (g == TestExc(TEST_NA) <==> stop.at == AtEnding(RaiseTest(TEST_NA)))
    && (g.Continue? <==> stop.at.AtEnding? && (stop.at.ending.Boot? || stop.at.ending.Quit?))
    && (g.Leave? <==> stop.at == AtEnding(Exit))
    && (g.Down? <==> stop.at == AtEnding(Crash) || stop.at == AtTest(Hung))
    && (forall cmd :: g == JobExc(cmd) <==>
          !stop.inGroup && (stop.at == AtEnding(RaiseJob(cmd)) || stop.at == AtTest(BrokeJob(cmd))))
    && (g.OtherExc? <==> !stop.inGroup && stop.at == AtEnding(RaiseOther))
    && (stop.at.AtTest? ==> !stop.at.outcome.Passed? && !stop.at.outcome.Failed?)
  }

  lemma {:induction false} BodyStops(b: Body)
    ensures Fits(StopOf(b), Outcome(b))
    decreases b
  {
    ActsStopFits(b.acts);
  }

  lemma {:induction false} ActsStopFits(acts: seq<Act>)
    ensures ActsOutcome(acts).Normal? <==> ActsStop(acts).None?
    ensures ActsStop(acts).Some? ==> Fits(ActsStop(acts).value, ActsOutcome(acts))
    decreases acts
  {
    if acts != [] {
      ActStopFits(acts[0]);
      ActsStopFits(acts[1..]);
    }
  }

  lemma {:induction false} ActStopFits(a: Act)
    ensures ActOutcome(a).Normal? <==> ActStop(a).None?
    ensures ActStop(a).Some? ==> Fits(ActStop(a).value, ActOutcome(a))
    decreases a
  {
    match a
    case Queue(_, _) =>
    case RunTest(_, t) =>
    case RunGroup(_, body) => BodyStops(body);
    case Guarded(body) => BodyStops(body);
  }

  /** A step goes on to the next exactly when control reaches a return or a
      TEST_NA that nothing swallows, and leaves the process exactly at the
      statements that do. Any other exception breaks the job, with its second
      argument if it is a JobError that no group has turned into a TestError. */
  lemma StepEndsExactly(s: Job, code: Code)
    ensures var (g, stop) := (RunUserStep(s, code).1, StopOf(code.body));
            && (g.Normal? <==> Returns(stop.at) || stop.at == AtEnding(RaiseTest(TEST_NA)))
            && (g.Continue? <==> stop.at.AtEnding? && (stop.at.ending.Boot? || stop.at.ending.Quit?))
            && (g.Leave? <==> stop.at == AtEnding(Exit))
            && (g.Down? <==> stop.at == AtEnding(Crash) || stop.at == AtTest(Hung))
            && (g == JobExc(true) <==>
                  !stop.inGroup && (stop.at == AtEnding(RaiseJob(true)) || stop.at == AtTest(BrokeJob(true))))
            && !g.TestExc? && !g.OtherExc?
  {
    BodyEffect(code.body, s);
    BodyStops(code.body);
  }

  /** A step adds one entry to what its function logs if that ends with a
      TEST_NA, and otherwise none. */
  lemma StepLog(s: Job, code: Code)
    ensures RunUserStep(s, code).0.log
            == RunBody(code.body, s).0.log
               + if StopOf(code.body).at != AtEnding(RaiseTest(TEST_NA)) then []
                 else [Entry(Plain(TEST_NA), Unit(code.name))]
  {
    BodyEffect(code.body, s);
    BodyStops(code.body);
    var log := RunBody(code.body, s).0.log;
    assert log + [] == log;
  }
}
