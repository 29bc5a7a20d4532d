/** Properties that every step of a step tree has: a step's list keeps them. */
module JobTrees {
  import opened JobPrograms
  import opened JobSpec
  import opened JobEngine

  /** `p` holds of the body of every step function in the tree under `c`. */
  predicate Throughout(c: Code, p: Body -> bool)
    decreases c
  {
    && p(c.body)
    && ActsThroughout(c.body.acts, p)
    && (c.body.ending.Return? && c.body.ending.init.Some? ==> Throughout(c.body.ending.init.value, p))
  }

  predicate ActsThroughout(acts: seq<Act>, p: Body -> bool)
    decreases acts
  {
    acts == [] || (ActThroughout(acts[0], p) && ActsThroughout(acts[1..], p))
  }

  predicate ActThroughout(a: Act, p: Body -> bool)
    decreases a
  {
    match a
    case Queue(_, code) => Throughout(code, p)
    case RunTest(_, _) => true
    case RunGroup(_, body) => ActsThroughout(body.acts, p)
    case Guarded(body) => ActsThroughout(body.acts, p)
  }

  /** A step with `p` in its tree, or a post-boot step with `q`. */
  predicate FnThroughout(f: StepFn, p: Body -> bool, q: PostBoot -> bool) {
    match f
    case User(code) => Throughout(code, p)
    case AfterBoot(call) => q(call)
  }

  predicate AllSteps(steps: seq<StepTuple>, p: Body -> bool, q: PostBoot -> bool) {
    forall i :: 0 <= i < |steps| ==> FnThroughout(steps[i].fn, p, q)
  }

  predicate AllCalls(calls: seq<Call>, p: Body -> bool, q: PostBoot -> bool) {
    forall i :: 0 <= i < |calls| ==> FnThroughout(calls[i].fn, p, q)
  }

  /** The reboots a body begins have `q`. */
  predicate BootsMeet(calls: seq<Call>, q: PostBoot -> bool) {
    forall i :: 0 <= i < |calls| && calls[i].fn.AfterBoot? ==> q(calls[i].fn.call)
  }

  lemma BootsMeetParts(a: seq<Call>, b: seq<Call>, q: PostBoot -> bool)
    requires BootsMeet(a + b, q)
    ensures BootsMeet(a, q) && BootsMeet(b, q)
  {
    assert forall i :: 0 <= i < |a| ==> (a + b)[i] == a[i];
    assert forall i :: 0 <= i < |b| ==> (a + b)[|a| + i] == b[i];
  }

  lemma {:induction false} BodyCallsThroughout(b: Body, p: Body -> bool, q: PostBoot -> bool)
    requires ActsThroughout(b.acts, p) && BootsMeet(Calls(b), q)
    ensures AllCalls(Calls(b), p, q)
    decreases b
  {
    BootsMeetParts(ActsCalls(b.acts), Calls(b)[|ActsCalls(b.acts)|..], q);
    ActsCallsThroughout(b.acts, p, q);
  }

  lemma {:induction false} ActsCallsThroughout(acts: seq<Act>, p: Body -> bool, q: PostBoot -> bool)
    requires ActsThroughout(acts, p) && BootsMeet(ActsCalls(acts), q)
    ensures AllCalls(ActsCalls(acts), p, q)
    decreases acts
  {
    if acts != [] {
      var more := if ActOutcome(acts[0]).Normal? then ActsCalls(acts[1..]) else [];
      BootsMeetParts(ActCalls(acts[0]), more, q);
      ActCallsThroughout(acts[0], p, q);
      if ActOutcome(acts[0]).Normal? {
        ActsCallsThroughout(acts[1..], p, q);
      }
    }
  }

  lemma {:induction false} ActCallsThroughout(a: Act, p: Body -> bool, q: PostBoot -> bool)
    requires ActThroughout(a, p) && BootsMeet(ActCalls(a), q)
    ensures AllCalls(ActCalls(a), p, q)
    decreases a
  {
    match a
    case Queue(_, _) =>
    case RunTest(_, _) =>
    case RunGroup(_, body) => BodyCallsThroughout(body, p, q);
    case Guarded(body) => BodyCallsThroughout(body, p, q);
  }

  lemma {:induction false} PickedThroughout(calls: seq<Call>, how: Queueing, a: seq<Code>,
                                            p: Body -> bool, q: PostBoot -> bool)
    requires AllCalls(calls, p, q)
    ensures AllSteps(Picked(calls, how, a), p, q)
  {
    if calls != [] {
      PickedThroughout(calls[1..], how, a, p, q);
    }
  }

  lemma {:induction false} ReverseThroughout(steps: seq<StepTuple>, p: Body -> bool, q: PostBoot -> bool)
    requires AllSteps(steps, p, q)
    ensures AllSteps(Reverse(steps), p, q)
  {
    if steps != [] {
      ReverseThroughout(steps[1..], p, q);
    }
  }

  lemma LayoutThroughout(calls: seq<Call>, a: seq<Code>, rest: seq<StepTuple>, p: Body -> bool, q: PostBoot -> bool)
    requires AllCalls(calls, p, q) && AllSteps(rest, p, q)
    ensures AllSteps(Layout(calls, a, rest), p, q)
  {
    var pre, nxt, app := Picked(calls, Prepend, a), Picked(calls, Next, a), Picked(calls, Append, a);
    PickedThroughout(calls, Prepend, a, p, q);
    PickedThroughout(calls, Next, a, p, q);
    PickedThroughout(calls, Append, a, p, q);
    ReverseThroughout(pre, p, q);
  }

  /** Running a step leaves a list of such steps. */
  lemma AllStepsAfter(steps: seq<StepTuple>, p: Body -> bool, q: PostBoot -> bool)
    requires steps != [] && AllSteps(steps, p, q)
    requires steps[0].fn.User? ==> BootsMeet(Calls(steps[0].fn.code.body), q)
    ensures AllSteps(StepsAfter(steps), p, q)
  {
    assert FnThroughout(steps[0].fn, p, q);
    assert AllSteps(steps[1..], p, q);
    if steps[0].fn.User? {
      var c, a := steps[0].fn.code, HeadAncestry(steps);
      BodyCallsThroughout(c.body, p, q);
      LayoutThroughout(Calls(c.body), a, steps[1..], p, q);
    }
  }

  // ------------------------------------------- functions that hand back steps

  /** A function that returns a step_init, and so is called again for each step
      defined in it, queues nothing itself. */
  predicate Quiet(b: Body) {
    NestedInit(b).Some? ==> Calls(b) == []
  }

  predicate AnyBoot(call: PostBoot) { true }

  predicate QuietlyDefined(steps: seq<StepTuple>) {
    forall i :: 0 <= i < |steps| ==> QuietAncestors(steps[i].ancestry)
  }

  predicate QuietSteps(steps: seq<StepTuple>) {
    AllSteps(steps, Quiet, AnyBoot) && QuietlyDefined(steps)
  }

  lemma {:induction false} PickedQuietly(calls: seq<Call>, how: Queueing, a: seq<Code>)
    requires QuietAncestors(a)
    ensures QuietlyDefined(Picked(calls, how, a))
  {
    if calls != [] {
      PickedQuietly(calls[1..], how, a);
    }
  }

  lemma {:induction false} ReverseQuietly(steps: seq<StepTuple>)
    requires QuietlyDefined(steps)
    ensures QuietlyDefined(Reverse(steps))
  {
    if steps != [] {
      ReverseQuietly(steps[1..]);
    }
  }

  lemma LayoutQuietly(calls: seq<Call>, a: seq<Code>, rest: seq<StepTuple>)
    requires QuietAncestors(a) && QuietlyDefined(rest)
    ensures QuietlyDefined(Layout(calls, a, rest))
  {
    PickedQuietly(calls, Prepend, a);
    PickedQuietly(calls, Next, a);
    PickedQuietly(calls, Append, a);
    ReverseQuietly(Picked(calls, Prepend, a));
  }

  lemma InitQuietly(code: Code, a: seq<Code>)
    requires Quiet(code.body) && QuietAncestors(a)
    ensures QuietlyDefined(InitTuple(code, a))
  {
    if NestedInit(code.body).Some? {
      assert QuietAncestors(a + [code]);
    }
  }

  lemma QuietStepsAfter(steps: seq<StepTuple>)
    requires steps != [] && QuietSteps(steps)
    ensures QuietSteps(StepsAfter(steps))
  {
    AllStepsAfter(steps, Quiet, AnyBoot);
    assert FnThroughout(steps[0].fn, Quiet, AnyBoot) && QuietAncestors(steps[0].ancestry);
    if steps[0].fn.User? {
      var code, a := steps[0].fn.code, HeadAncestry(steps);
      FramesPopped(steps[0].ancestry, code);
      LayoutQuietly(Calls(code.body), a, steps[1..]);
      InitQuietly(code, a);
    }
  }
}
