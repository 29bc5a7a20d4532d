/** The step engine and whole jobs across restarts, and what the step list
    looks like after any interleaving of queueing calls. */
module JobEngine {
  import opened Sequences
  import opened JobPrograms
  import opened JobSpec

  // ------------------------------------------------- the list after a step

  /** The tuples made by the calls of one kind, in call order. */
  function Picked(calls: seq<Call>, how: Queueing, ancestry: seq<Code>): seq<StepTuple> {
    if calls == [] then []
    else (if calls[0].how == how then [StepTuple(ancestry, calls[0].fn)] else [])
         + Picked(calls[1..], how, ancestry)
  }

  function Reverse<T>(s: seq<T>): seq<T> {
    if s == [] then [] else Reverse(s[1..]) + [s[0]]
  }

  function Layout(calls: seq<Call>, ancestry: seq<Code>, rest: seq<StepTuple>): seq<StepTuple> {
    Reverse(Picked(calls, Prepend, ancestry)) + Picked(calls, Next, ancestry)
    + rest + Picked(calls, Append, ancestry)
  }

  /** The list built around `front`, where the next insertion point is, and `back`. */
  function Around(calls: seq<Call>, ancestry: seq<Code>, front: seq<StepTuple>, back: seq<StepTuple>): seq<StepTuple> {
    Reverse(Picked(calls, Prepend, ancestry)) + front + Picked(calls, Next, ancestry)
    + back + Picked(calls, Append, ancestry)
  }

  lemma MoveLeft<T>(before: seq<T>, s: seq<T>, x: T, after: seq<T>)
    ensures before + s + ([x] + after) == before + (s + [x]) + after
  {
  }

  /** One call moves `front` or `back` and leaves the final list the same. */
  lemma AroundStep(calls: seq<Call>, a: seq<Code>, front: seq<StepTuple>, back: seq<StepTuple>)
    requires calls != []
    ensures var x := StepTuple(a, calls[0].fn);
            Around(calls, a, front, back) ==
            match calls[0].how
            case Append => Around(calls[1..], a, front, back + [x])
            case Next => Around(calls[1..], a, front + [x], back)
            case Prepend => Around(calls[1..], a, [x] + front, back)
  {
    var x, rest := StepTuple(a, calls[0].fn), calls[1..];
    var pre, nxt, app := Picked(rest, Prepend, a), Picked(rest, Next, a), Picked(rest, Append, a);
    match calls[0].how {
      case Append =>
        assert Picked(calls, Append, a) == [x] + app;
        assert Picked(calls, Next, a) == nxt && Picked(calls, Prepend, a) == pre;
        MoveLeft(Reverse(pre) + front + nxt, back, x, app);
      case Next =>
        assert Picked(calls, Next, a) == [x] + nxt;
        assert Picked(calls, Append, a) == app && Picked(calls, Prepend, a) == pre;
        MoveLeft(Reverse(pre), front, x, nxt);
      case Prepend =>
        assert Picked(calls, Prepend, a) == [x] + pre && ([x] + pre)[1..] == pre;
        assert Picked(calls, Append, a) == app && Picked(calls, Next, a) == nxt;
        MoveLeft(Reverse(pre), [], x, front);
        assert Reverse(pre) + [] + ([x] + front) == Reverse(pre) + ([x] + front);
        assert [] + [x] == [x];
    }
  }

  lemma {:induction false} CallsLayout(s: Job, calls: seq<Call>, front: seq<StepTuple>, back: seq<StepTuple>)
    requires s.steps == front + back && s.index == |front|
    ensures var t := ApplyAll(s, calls);
            && t.steps == Around(calls, s.ancestry, front, back)
            && t.index == |front| + |Picked(calls, Prepend, s.ancestry)| + |Picked(calls, Next, s.ancestry)|
            && t.ancestry == s.ancestry && t.ran == s.ran
    decreases |calls|
  {
    if calls == [] {
      assert [] + front == front;
    } else {
      var c, x := calls[0], StepTuple(s.ancestry, calls[0].fn);
      var s1 := Apply(s, c.how, c.fn);
      AroundStep(calls, s.ancestry, front, back);
      match c.how {
        case Append =>
          assert s1.steps == front + (back + [x]);
          CallsLayout(s1, calls[1..], front, back + [x]);
        case Next =>
          assert s1.steps == (front + [x]) + back;
          CallsLayout(s1, calls[1..], front + [x], back);
        case Prepend =>
          assert s1.steps == ([x] + front) + back;
          CallsLayout(s1, calls[1..], [x] + front, back);
      }
    }
  }

  /** The ancestry the step at the head of the list runs under. */
  function HeadAncestry(steps: seq<StepTuple>): seq<Code>
    requires steps != []
  {
    FrameAncestry(steps[0])
  }

  function InitTuple(code: Code, ancestry: seq<Code>): seq<StepTuple> {
    match NestedInit(code.body)
    case None => []
    case Some(init) => [StepTuple(ancestry + [code], User(init))]
  }

  /** The step list after its head has been run, whatever the outcome. */
  function StepsAfter(steps: seq<StepTuple>): seq<StepTuple>
    requires steps != []
  {
    match steps[0].fn
    case AfterBoot(_) => steps[1..]
    case User(code) =>
      InitTuple(code, HeadAncestry(steps)) + Layout(Calls(code.body), HeadAncestry(steps), steps[1..])
  }

  function StepSignal(g: Signal): Signal {
    if g.Normal? || LeavesProcess(g) then g
    else if g == TestExc(TEST_NA) then Normal
    else JobExc(g.JobExc? && g.cmd)
  }

  function PostBootSignal(m: Machine, call: PostBoot): Signal {
    var o := m.observe(call);
    if call.EndRebootAndVerify? && WrongKernel(call, o) then JobExc(false)
    else if m.abortOnMismatch && !(o.mountsSame && o.cpusSame) then JobExc(false)
    else Normal
  }

  function StepOutcome(m: Machine, fn: StepFn): Signal {
    match fn
    case User(code) => StepSignal(Outcome(code.body))
    case AfterBoot(call) => PostBootSignal(m, call)
  }

  lemma UserStepSignal(s: Job, code: Code)
    ensures RunUserStep(s, code).1 == StepSignal(Outcome(code.body))
  {
    BodyEffect(code.body, s);
  }

  lemma UserStepLayout(s: Job, code: Code)
    requires s.index == 0
    ensures var (t, g) := RunUserStep(s, code);
            && t.steps == InitTuple(code, s.ancestry) + Layout(Calls(code.body), s.ancestry, s.steps)
            && g == StepSignal(Outcome(code.body))
            && t.ran == s.ran
  {
    BodyEffect(code.body, s);
    CallsLayout(s, Calls(code.body), [], s.steps);
    var pre := Reverse(Picked(Calls(code.body), Prepend, s.ancestry));
    assert pre + [] == pre;
    var all := Layout(Calls(code.body), s.ancestry, s.steps);
    assert [] + all == all;
  }

  /** Where the functions it is defined in queue nothing, every step leaves the
      list in the documented order: a
      nested step_init first, then the prepended steps newest first, the next
      steps in call order, what was queued before, and the appended steps. Each
      new tuple carries the ancestry the step ran under, and the step_init alone
      the one extended afterwards. */
  lemma StepLayout(m: Machine, s: Job)
    requires s.steps != [] && QuietAncestors(s.steps[0].ancestry)
    ensures var (t, g) := RunStep(m, s);
            && t.steps == StepsAfter(s.steps)
            && g == StepOutcome(m, s.steps[0].fn)
            && t.ran == s.ran + [s.steps[0].fn]
  {
    FramedQuietly(m, s);
    if s.steps[0].fn.User? {
      UserStepLayout(Framed(s), s.steps[0].fn.code);
    }
  }

  lemma {:induction false} ApplyAllLonger(s: Job, calls: seq<Call>)
    ensures |ApplyAll(s, calls).steps| == |s.steps| + |calls|
    decreases |calls|
  {
    if calls != [] {
      ApplyAllLonger(Apply(s, calls[0].how, calls[0].fn), calls[1..]);
    }
  }

  lemma InFrameLonger(m: Machine, s: Job, fn: StepFn)
    ensures |RunInFrame(m, s, fn).0.steps|
            == |s.steps| + if fn.User? then |Calls(fn.code.body)| + |InitTuple(fn.code, s.ancestry)| else 0
  {
    if fn.User? {
      BodyEffect(fn.code.body, s);
      ApplyAllLonger(s, Calls(fn.code.body));
    }
  }

  lemma {:induction false} PickedCount(calls: seq<Call>, a: seq<Code>)
    ensures |Picked(calls, Prepend, a)| + |Picked(calls, Next, a)| + |Picked(calls, Append, a)| == |calls|
  {
    if calls != [] {
      PickedCount(calls[1..], a);
    }
  }

  lemma {:induction false} ReverseCount<T>(s: seq<T>)
    ensures |Reverse(s)| == |s|
  {
    if s != [] {
      ReverseCount(s[1..]);
    }
  }

  /** The documented order is kept if and only if the functions that the step is
      defined in, which are called again for it, queue nothing. */
  lemma StepLayoutExactly(m: Machine, s: Job)
    requires s.steps != [] && Replayable(s.steps[0].ancestry)
    ensures RunStep(m, s).0.steps == StepsAfter(s.steps) <==> QuietAncestors(s.steps[0].ancestry)
  {
    QuietFrames(s.steps[0].ancestry);
    var calls := FrameCalls(s.steps[0].ancestry);
    if calls == [] {
      StepLayout(m, s);
    } else {
      FramesEffect(s.steps[0].ancestry, PopStep(s));
      ApplyAllLonger(PopStep(s), calls);
      InFrameLonger(m, Framed(s), s.steps[0].fn);
      StepsAfterCount(s.steps);
    }
  }

  lemma StepsAfterCount(steps: seq<StepTuple>)
    requires steps != []
    ensures |StepsAfter(steps)|
            == |steps| - 1 + match steps[0].fn
                             case AfterBoot(_) => 0
                             case User(code) => |Calls(code.body)| + |InitTuple(code, HeadAncestry(steps))|
  {
    if steps[0].fn.User? {
      var calls, a := Calls(steps[0].fn.code.body), HeadAncestry(steps);
      PickedCount(calls, a);
      ReverseCount(Picked(calls, Prepend, a));
    }
  }

  /** The insertion index while a step runs counts the steps it has put in front. */
  lemma IndexCountsFrontSteps(s: Job, b: Body)
    requires s.index == 0
    ensures RunBody(b, s).0.index
            == |Picked(Calls(b), Prepend, s.ancestry)| + |Picked(Calls(b), Next, s.ancestry)|
  {
    BodyEffect(b, s);
    CallsLayout(s, Calls(b), [], s.steps);
  }

  // ----------------------------------------------------------- termination

  function TupleSize(t: StepTuple): nat { FnSize(t.fn) }

  function Size(steps: seq<StepTuple>): nat { Sum(steps, TupleSize) }

  lemma {:induction false} PickedSize(calls: seq<Call>, ancestry: seq<Code>)
    ensures Size(Picked(calls, Prepend, ancestry)) + Size(Picked(calls, Next, ancestry))
            + Size(Picked(calls, Append, ancestry)) == Sum(calls, CallSize)
  {
    if calls != [] {
      PickedSize(calls[1..], ancestry);
      PickedHeadSize(calls, Prepend, ancestry);
      PickedHeadSize(calls, Next, ancestry);
      PickedHeadSize(calls, Append, ancestry);
    }
  }

  lemma PickedHeadSize(calls: seq<Call>, how: Queueing, ancestry: seq<Code>)
    requires calls != []
    ensures Size(Picked(calls, how, ancestry))
            == Size(Picked(calls[1..], how, ancestry)) + if calls[0].how == how then CallSize(calls[0]) else 0
  {
    var x := StepTuple(ancestry, calls[0].fn);
    if calls[0].how == how {
      SumConcat([x], Picked(calls[1..], how, ancestry), TupleSize);
      SumSingle(x, TupleSize);
    } else {
      assert Picked(calls, how, ancestry) == Picked(calls[1..], how, ancestry);
    }
  }

  lemma {:induction false} SumReverse<T>(s: seq<T>, f: T -> nat)
    ensures Sum(Reverse(s), f) == Sum(s, f)
  {
    if s != [] {
      SumReverse(s[1..], f);
      SumAppend(Reverse(s[1..]), s[0], f);
    }
  }

  lemma StepShrinks(steps: seq<StepTuple>)
    requires steps != []
    ensures Size(StepsAfter(steps)) < Size(steps)
  {
    match steps[0].fn
    case AfterBoot(_) =>
    case User(code) =>
      var a, calls := HeadAncestry(steps), Calls(code.body);
      var pre, nxt, app := Picked(calls, Prepend, a), Picked(calls, Next, a), Picked(calls, Append, a);
      CallsFit(code.body);
      PickedSize(calls, a);
      SumReverse(pre, TupleSize);
      SumConcat(Reverse(pre), nxt, TupleSize);
      SumConcat(Reverse(pre) + nxt, steps[1..], TupleSize);
      SumConcat(Reverse(pre) + nxt + steps[1..], app, TupleSize);
      SumConcat(InitTuple(code, a), Layout(calls, a, steps[1..]), TupleSize);
      assert Size(InitTuple(code, a)) == InitSize(code.body) by {
        match NestedInit(code.body)
        case None =>
        case Some(init) => SumSingle(StepTuple(a + [code], User(init)), TupleSize);
      }
  }
}
