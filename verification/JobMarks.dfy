/** The unexpected_reboot mark, read off the program: which group it names when
    a step function ends, and whether it is touched at all. */
module JobMarks {
  import opened Options
  import opened JobPrograms
  import opened JobSpec

  /** The mark after the acts that are really performed. A group sets it and,
      unless the machine goes down inside, discards it. */
  function ActsMark(acts: seq<Act>, mark: Option<string>): Option<string>
    decreases acts
  {
    if acts == [] then mark
    else
      var next := ActMark(acts[0], mark);
      if ActOutcome(acts[0]).Normal? then ActsMark(acts[1..], next) else next
  }

  function ActMark(a: Act, mark: Option<string>): Option<string>
    decreases a
  {
    match a
    case Queue(_, _) => mark
    case RunTest(name, t) => if t.Hung? then Some(name) else None
    case RunGroup(tag, body) => if Outcome(body).Down? then ActsMark(body.acts, Some(tag)) else None
    case Guarded(body) => ActsMark(body.acts, mark)
  }

  /** Some test or group is performed before the acts end. */
  predicate Opens(acts: seq<Act>)
    decreases acts
  {
    acts != [] && (ActOpens(acts[0]) || (ActOutcome(acts[0]).Normal? && Opens(acts[1..])))
  }

  predicate ActOpens(a: Act)
    decreases a
  {
    match a
    case Queue(_, _) => false
    case Guarded(body) => Opens(body.acts)
    case _ => true
  }

  /** The job's mark is the one read off the program. */
  lemma {:induction false} BodyMark(b: Body, s: Job)
    ensures RunBody(b, s).0.marker == ActsMark(b.acts, s.marker)
    decreases b
  {
    ActsMarked(b.acts, s);
  }

  lemma {:induction false} ActsMarked(acts: seq<Act>, s: Job)
    ensures RunActs(acts, s).0.marker == ActsMark(acts, s.marker)
    decreases acts
  {
    if acts != [] {
      ActMarked(acts[0], s);
      ActEffect(acts[0], s);
      if ActOutcome(acts[0]).Normal? {
        ActsMarked(acts[1..], RunAct(acts[0], s).0);
      }
    }
  }

  lemma {:induction false} ActMarked(a: Act, s: Job)
    ensures RunAct(a, s).0.marker == ActMark(a, s.marker)
    decreases a
  {
    match a
    case Queue(_, _) =>
    case RunTest(_, _) =>
    case RunGroup(tag, body) =>
      BodyMark(body, OpenGroup(s, tag));
      BodyEffect(body, OpenGroup(s, tag));
    case Guarded(body) => BodyMark(body, s);
  }

  /** Acts that perform no test and no group leave the mark; any others forget it. */
  lemma {:induction false} MarkForgotten(acts: seq<Act>, mark: Option<string>, other: Option<string>)
    ensures !Opens(acts) ==> ActsMark(acts, mark) == mark
    ensures Opens(acts) ==> ActsMark(acts, mark) == ActsMark(acts, other)
    decreases acts
  {
    if acts != [] {
      ActMarkForgotten(acts[0], mark, other);
      MarkForgotten(acts[1..], ActMark(acts[0], mark), ActMark(acts[0], other));
    }
  }

  lemma {:induction false} ActMarkForgotten(a: Act, mark: Option<string>, other: Option<string>)
    ensures !ActOpens(a) ==> ActMark(a, mark) == mark
    ensures ActOpens(a) ==> ActMark(a, mark) == ActMark(a, other)
    decreases a
  {
    if a.Guarded? {
      MarkForgotten(a.block.acts, mark, other);
    }
  }

  lemma {:induction false} NothingOpened(acts: seq<Act>)
    requires !Opens(acts)
    ensures ActsLeftInside(acts) == 0
    decreases acts
  {
    if acts != [] {
      ActNothingOpened(acts[0]);
      if ActOutcome(acts[0]).Normal? {
        NothingOpened(acts[1..]);
      }
    }
  }

  lemma {:induction false} ActNothingOpened(a: Act)
    requires !ActOpens(a)
    ensures ActLeftInside(a) == 0
    decreases a
  {
    if a.Guarded? {
      NothingOpened(a.block.acts);
    }
  }

  /** A mark set by the acts names a group that a crash has left open. */
  lemma {:induction false} MarkedInside(acts: seq<Act>, mark: Option<string>)
    requires Opens(acts) && ActsMark(acts, mark).Some?
    ensures ActsOutcome(acts).Down? && ActsLeftInside(acts) > 0
    decreases acts
  {
    if ActOpens(acts[0]) && ActMark(acts[0], mark).Some? {
      ActMarkedInside(acts[0], mark);
    } else if ActOutcome(acts[0]).Normal? {
      MarkForgotten(acts[1..], ActMark(acts[0], mark), None);
      MarkedInside(acts[1..], ActMark(acts[0], mark));
    }
  }

  lemma {:induction false} ActMarkedInside(a: Act, mark: Option<string>)
    requires ActOpens(a) && ActMark(a, mark).Some?
    ensures ActOutcome(a).Down? && ActLeftInside(a) > 0
    decreases a
  {
    if a.Guarded? {
      MarkedInside(a.block.acts, mark);
    }
  }

  /** Losing the process outside of every group leaves no new mark behind. */
  lemma NoMarkOutside(acts: seq<Act>)
    requires ActsLeftInside(acts) == 0
    ensures ActsMark(acts, None).None?
  {
    MarkForgotten(acts, None, None);
    if ActsMark(acts, None).Some? {
      MarkedInside(acts, None);
    }
  }
}
