/** The client job as a state and its operations as functions on it: the
    specification that the methods of ClientJob are proved against. */
module JobSpec {
  import opened Options
  import opened Sequences
  import opened JobPrograms

  /** A queued step, and the functions it was defined in, outermost first. */
  datatype StepTuple = StepTuple(ancestry: seq<Code>, fn: StepFn)

  datatype Status = Start | End(code: string) | Plain(code: string)

  /** What a status log entry is about. */
  datatype Operation = WholeJob | Reboot | RebootPhase(phase: string) | Unit(name: string)

  datatype Entry = Entry(status: Status, op: Operation)

  /** steps, indent, marker and log are on disk and survive a reboot; index and
      ancestry live in the process. marker is the persistent `unexpected_reboot`.
      ran and issued are history: the steps taken from the list and the steps
      ever put into it. */
  datatype Job = Job(
    steps: seq<StepTuple>, indent: int, marker: Option<string>, log: seq<Entry>,
    index: nat, ancestry: seq<Code>,
    ran: seq<StepFn>, issued: seq<StepFn>)

  /** What the post-boot checks get to see, and the abort_on_mismatch setting. */
  datatype Observation = Observation(runningId: string, cmdlineWhen: int, mountsSame: bool, cpusSame: bool)
  datatype Machine = Machine(observe: PostBoot -> Observation, abortOnMismatch: bool)

  // ----------------------------------------------------------- the status log

  function Delta(st: Status): int {
    match st
    case Start => 1
    case End(_) => -1
    case Plain(_) => 0
  }

  function Record(s: Job, st: Status, op: Operation): Job {
    s.(log := s.log + [Entry(st, op)], indent := s.indent + Delta(st))
  }

  // ------------------------------------------------------------- queueing calls

  function CreateStepTuple(s: Job, fn: StepFn): StepTuple {
    StepTuple(s.ancestry, fn)
  }

  function Insert<T>(s: seq<T>, i: nat, x: T): seq<T> {
    if i <= |s| then s[..i] + [x] + s[i..] else s + [x]
  }

  function Apply(s: Job, how: Queueing, fn: StepFn): Job {
    var t := CreateStepTuple(s, fn);
    var s := s.(issued := s.issued + [fn]);
    match how
    case Append => s.(steps := s.steps + [t])
    case Next => s.(steps := Insert(s.steps, s.index, t), index := s.index + 1)
    case Prepend => s.(steps := [t] + s.steps, index := s.index + 1)
  }

  // ----------------------------------------------------------------- rebooting

  function StartReboot(s: Job): Job {
    Record(Record(s, Start, Reboot), Plain("GOOD"), RebootPhase("reboot.start"))
  }

  function BootKernel(s: Job, call: PostBoot): Job {
    StartReboot(Apply(s, Prepend, AfterBoot(call)))
  }

  function RecordRebootFailure(s: Job, phase: string): Job {
    Record(Record(s, Plain("ABORT"), RebootPhase(phase)), End("ABORT"), Reboot)
  }

  function CheckPostReboot(s: Job, o: Observation, abort: bool): (Job, Signal) {
    if !o.mountsSame && abort then (RecordRebootFailure(s, "reboot.verify_config"), JobExc(false))
    else if !o.cpusSame && abort then (RecordRebootFailure(s, "reboot.verify_config"), JobExc(false))
    else (s, Normal)
  }

  function FinishReboot(s: Job, o: Observation, abort: bool): (Job, Signal) {
    var (s1, g) := CheckPostReboot(s, o, abort);
    if g.Normal? then (Record(s1, End("GOOD"), Reboot), Normal) else (s1, g)
  }

  predicate HasPrefix(s: string, p: string) {
    p <= s
  }

  /** The identity or the command line mark differs from what was booted. */
  predicate WrongKernel(call: PostBoot, o: Observation)
    requires call.EndRebootAndVerify?
  {
    || (call.kind == Word("src") && call.expectedId != o.runningId)
    || (call.kind == Word("rpm") && !HasPrefix(o.runningId, call.expectedId + "::"))
    || call.when != o.cmdlineWhen
  }

  function RunPostBoot(m: Machine, s: Job, call: PostBoot): (Job, Signal) {
    var o := m.observe(call);
    match call
    case EndReboot(_, _, _) => FinishReboot(s, o, m.abortOnMismatch)
    case EndRebootAndVerify(_, _, _, _) =>
      if WrongKernel(call, o) then (RecordRebootFailure(s, "reboot.verify"), JobExc(false))
      else FinishReboot(Record(s, Plain("GOOD"), RebootPhase("reboot.verify")), o, m.abortOnMismatch)
  }

  // -------------------------------------------------------------------- groups

  function OpenGroup(s: Job, name: string): Job {
    Record(s, Start, Unit(name)).(marker := Some(name))
  }

  /** The except and finally clauses of _rungroup. A crash runs neither. */
  function CloseGroup(s: Job, name: string, g: Signal): Job {
    match g
    case Normal => Record(s, End("GOOD"), Unit(name)).(marker := None)
    case TestExc(status) => Record(s, End(status), Unit(name)).(marker := None)
    case JobExc(_) => Record(s, End("ABORT"), Unit(name)).(marker := None)
    case OtherExc => Record(s, End("ERROR"), Unit(name)).(marker := None)
    case Continue => s.(marker := None)
    case Leave => s.(marker := None)
    case Down => s
  }

  /** What run_test's group function records and how it leaves _rungroup. */
  function TestBody(s: Job, name: string, t: TestOutcome): (Job, Signal) {
    match t
    case Passed => (Record(s, Plain("GOOD"), Unit(name)), Normal)
    case Failed(status) => (Record(s, Plain(status), Unit(name)), TestExc(status))
    case BrokeJob(cmd) => (s, JobExc(cmd))
    case Hung => (s, Down)
  }

  // ------------------------------------------------------------- step functions

  function RunBody(b: Body, s: Job): (Job, Signal)
    decreases b
  {
    var (s1, g) := RunActs(b.acts, s);
    if !g.Normal? then (s1, g)
    else if b.ending.Boot? then (BootKernel(s1, BootCall(b.ending)), Continue)
    else (s1, EndingSignal(b.ending))
  }

  function RunActs(acts: seq<Act>, s: Job): (Job, Signal)
    decreases acts
  {
    if acts == [] then (s, Normal)
    else
      var (s1, g) := RunAct(acts[0], s);
      if g.Normal? then RunActs(acts[1..], s1) else (s1, g)
  }

  function RunAct(a: Act, s: Job): (Job, Signal)
    decreases a
  {
    match a
    case Queue(how, code) => (Apply(s, how, User(code)), Normal)
    case RunTest(name, t) =>
      var (s1, g) := TestBody(OpenGroup(s, name), name, t);
      (CloseGroup(s1, name, g), TestSignal(t))
    case RunGroup(tag, body) =>
      var (s1, g) := RunBody(body, OpenGroup(s, tag));
      (CloseGroup(s1, tag, g), AfterGroup(g))
    case Guarded(body) =>
      var (s1, g) := RunBody(body, s);
      (s1, AfterGuard(g))
  }

  /** Frame k is that of the k-th enclosing function, frame 0 that of the control
      file. A name such as "job.end_reboot" is in no frame. */
  predicate FrameHolds(k: nat, fn: StepFn) {
    fn.User? && fn.code.home <= k
  }

  /** The ancestry left once _create_frame has popped the frames whose function
      the frame below holds too; it never pops the outermost two. */
  function Kept(ancestry: seq<Code>, fn: StepFn): seq<Code>
    decreases |ancestry|
  {
    if |ancestry| >= 2 && FrameHolds(|ancestry| - 1, fn) then Kept(ancestry[..|ancestry| - 1], fn) else ancestry
  }

  /** The ancestry a step runs under. */
  function FrameAncestry(t: StepTuple): seq<Code> {
    Kept(t.ancestry, t.fn)
  }

  /** Which frames a step of the control file keeps: the outermost ones, one at
      least, up to the first that holds its function. */
  lemma {:induction false} FramesPopped(a: seq<Code>, code: Code)
    ensures var r := FrameAncestry(StepTuple(a, User(code)));
            && r <= a && (a != [] ==> r != [])
            && (|r| < |a| ==> code.home <= |r|)
            && (|r| > 1 ==> code.home > |r| - 1)
    decreases |a|
  {
    if |a| >= 2 && code.home <= |a| - 1 {
      FramesPopped(a[..|a| - 1], code);
    }
  }

  /** The head of the list taken off, and the insertion index reset. */
  function PopStep(s: Job): Job
    requires s.steps != []
  {
    s.(steps := s.steps[1..], index := 0, ran := s.ran + [s.steps[0].fn])
  }

  /** _create_frame calls the functions that the step was defined in once more,
      to get at their local functions, and with that they do again all they do.
      One that does not return as it did breaks the job. */
  function RunFrames(ancestors: seq<Code>, s: Job): (Job, Signal)
    decreases |ancestors|
  {
    if ancestors == [] then (s, Normal)
    else
      var (s1, g) := RunBody(ancestors[0].body, s);
      if g.Normal? then RunFrames(ancestors[1..], s1)
      else (s1, if LeavesProcess(g) then g else JobExc(g.JobExc? && g.cmd))
  }

  function AddStepInit(s: Job, code: Code): Job {
    match NestedInit(code.body)
    case None => s
    case Some(init) => Apply(s.(ancestry := s.ancestry + [code]), Prepend, User(init))
  }

  /** _run_step_fn and _add_step_init for a step of the control file. */
  function RunUserStep(s: Job, code: Code): (Job, Signal) {
    var (s1, g) := RunBody(code.body, s);
    if g.Normal? then (AddStepInit(s1, code), Normal)
    else if LeavesProcess(g) then (s1, g)
    else if g == TestExc(TEST_NA) then (Record(s1, Plain(TEST_NA), Unit(code.name)), Normal)
    else (s1, JobExc(g.JobExc? && g.cmd))
  }

  function RunStep(m: Machine, s: Job): (Job, Signal)
    requires s.steps != []
  {
    var (s1, g) := RunFrames(s.steps[0].ancestry, PopStep(s));
    if g.Normal? then RunInFrame(m, s1.(ancestry := FrameAncestry(s.steps[0])), s.steps[0].fn) else (s1, g)
  }

  function RunInFrame(m: Machine, s: Job, fn: StepFn): (Job, Signal) {
    match fn
    case User(code) => RunUserStep(s, code)
    case AfterBoot(call) => RunPostBoot(m, s, call)
  }

  // ------------------------------------------- effect of a body on the list

  function ApplyAll(s: Job, calls: seq<Call>): Job
    decreases |calls|
  {
    if calls == [] then s else ApplyAll(Apply(s, calls[0].how, calls[0].fn), calls[1..])
  }

  lemma {:induction false} ApplyAllConcat(s: Job, a: seq<Call>, b: seq<Call>)
    ensures ApplyAll(s, a + b) == ApplyAll(ApplyAll(s, a), b)
    decreases |a|
  {
    if a == [] {
      assert a + b == b;
    } else {
      assert (a + b)[1..] == a[1..] + b;
      ApplyAllConcat(Apply(s, a[0].how, a[0].fn), a[1..], b);
    }
  }

  /** The two jobs agree on everything the step list depends on. */
  predicate SameQueue(s: Job, t: Job) {
    s.steps == t.steps && s.index == t.index && s.ancestry == t.ancestry && s.ran == t.ran && s.issued == t.issued
  }

  lemma {:induction false} ApplyAllCongruent(s: Job, t: Job, calls: seq<Call>)
    requires SameQueue(s, t)
    ensures SameQueue(ApplyAll(s, calls), ApplyAll(t, calls))
    decreases |calls|
  {
    if calls != [] {
      ApplyAllCongruent(Apply(s, calls[0].how, calls[0].fn), Apply(t, calls[0].how, calls[0].fn), calls[1..]);
    }
  }

  /** Running a body ends as the program says, changes the list only by its
      queueing calls, and moves the indent only by the groups it never closes
      and the reboots it begins. */
  lemma {:induction false} BodyEffect(b: Body, s: Job)
    ensures var (s1, g) := RunBody(b, s);
            g == Outcome(b) && SameQueue(s1, ApplyAll(s, Calls(b)))
            && s1.indent == s.indent + LeftInside(b) + Boots(Calls(b))
    decreases b, 0
  {
    ActsEffect(b.acts, s);
    var (s1, g) := RunActs(b.acts, s);
    if g.Normal? && b.ending.Boot? {
      var call := Call(Prepend, AfterBoot(BootCall(b.ending)));
      ApplyAllConcat(s, ActsCalls(b.acts), [call]);
      ApplyAllCongruent(s1, ApplyAll(s, ActsCalls(b.acts)), [call]);
      assert ApplyAll(s1, [call]) == Apply(s1, Prepend, call.fn);
      SumAppend(ActsCalls(b.acts), call, IsBootCall);
    } else {
      assert Calls(b) == ActsCalls(b.acts);
    }
  }

  lemma {:induction false} ActsEffect(acts: seq<Act>, s: Job)
    ensures var (s1, g) := RunActs(acts, s);
            g == ActsOutcome(acts) && SameQueue(s1, ApplyAll(s, ActsCalls(acts)))
            && s1.indent == s.indent + ActsLeftInside(acts) + Boots(ActsCalls(acts))
    decreases acts
  {
    if acts != [] {
      ActEffect(acts[0], s);
      var (s1, g) := RunAct(acts[0], s);
      if g.Normal? {
        ActsEffect(acts[1..], s1);
        ApplyAllConcat(s, ActCalls(acts[0]), ActsCalls(acts[1..]));
        ApplyAllCongruent(s1, ApplyAll(s, ActCalls(acts[0])), ActsCalls(acts[1..]));
        SumConcat(ActCalls(acts[0]), ActsCalls(acts[1..]), IsBootCall);
      } else {
        assert ActsCalls(acts) == ActCalls(acts[0]);
      }
    }
  }

  lemma {:induction false} ActEffect(a: Act, s: Job)
    ensures var (s1, g) := RunAct(a, s);
            g == ActOutcome(a) && SameQueue(s1, ApplyAll(s, ActCalls(a)))
            && s1.indent == s.indent + (if g.Normal? then 0 else ActLeftInside(a)) + Boots(ActCalls(a))
    decreases a
  {
    match a
    case Queue(how, code) =>
      assert ApplyAll(s, [Call(how, User(code))]) == Apply(s, how, User(code));
      SumSingle(Call(how, User(code)), IsBootCall);
    case RunTest(name, t) => assert ApplyAll(s, []) == s;
    case RunGroup(tag, body) => GroupEffect(tag, body, s);
    case Guarded(body) =>
      BodyEffect(body, s);
      NothingLeftOpen(body);
  }

  lemma {:induction false} GroupEffect(tag: string, body: Body, s: Job)
    ensures var (s1, g) := RunBody(body, OpenGroup(s, tag));
            var s2 := CloseGroup(s1, tag, g);
            g == Outcome(body) && SameQueue(s2, ApplyAll(s, Calls(body)))
            && s2.indent == s.indent + (if LeavesProcess(g) then 1 + LeftInside(body) else 0) + Boots(Calls(body))
    decreases body, 1
  {
    BodyEffect(body, OpenGroup(s, tag));
    ApplyAllCongruent(OpenGroup(s, tag), s, Calls(body));
    NothingLeftOpen(body);
  }

  /** A body that ends without losing the process has closed its groups and
      begun no reboot. */
  lemma {:induction false} NothingLeftOpen(b: Body)
    ensures !LeavesProcess(Outcome(b)) ==> LeftInside(b) == 0 && Boots(Calls(b)) == 0
    decreases b
  {
    ActsNothingLeftOpen(b.acts);
    if !LeavesProcess(Outcome(b)) {
      assert Calls(b) == ActsCalls(b.acts);
    }
  }

  lemma {:induction false} ActsNothingLeftOpen(acts: seq<Act>)
    ensures !LeavesProcess(ActsOutcome(acts)) ==> ActsLeftInside(acts) == 0 && Boots(ActsCalls(acts)) == 0
    decreases acts
  {
    if acts != [] {
      ActNothingLeftOpen(acts[0]);
      ActsNothingLeftOpen(acts[1..]);
      SumConcat(ActCalls(acts[0]), if ActOutcome(acts[0]).Normal? then ActsCalls(acts[1..]) else [], IsBootCall);
    }
  }

  lemma {:induction false} ActNothingLeftOpen(a: Act)
    ensures !LeavesProcess(ActOutcome(a)) ==> Boots(ActCalls(a)) == 0
    ensures !LeavesProcess(ActOutcome(a)) && !ActOutcome(a).Normal? ==> ActLeftInside(a) == 0
    decreases a
  {
    match a
    case Queue(how, code) => SumSingle(Call(how, User(code)), IsBootCall);
    case RunTest(_, _) =>
    case RunGroup(_, body) => NothingLeftOpen(body);
    case Guarded(body) => NothingLeftOpen(body);
  }

  // -------------------------------------------------- effect of the frames

  /** Functions that have returned a step_init, as those a step is defined in have. */
  predicate Replayable(ancestors: seq<Code>) {
    forall i :: 0 <= i < |ancestors| ==> NestedInit(ancestors[i].body).Some?
  }

  function FrameCalls(ancestors: seq<Code>): seq<Call> {
    if ancestors == [] then [] else Calls(ancestors[0].body) + FrameCalls(ancestors[1..])
  }

  /** Building the frames queues once more all that the functions queue, and
      leaves the indent. */
  lemma {:induction false} FramesEffect(ancestors: seq<Code>, s: Job)
    requires Replayable(ancestors)
    ensures var (s1, g) := RunFrames(ancestors, s);
            g.Normal? && SameQueue(s1, ApplyAll(s, FrameCalls(ancestors))) && s1.indent == s.indent
    decreases |ancestors|
  {
    if ancestors != [] {
      var b := ancestors[0].body;
      BodyEffect(b, s);
      NothingLeftOpen(b);
      var s1 := RunBody(b, s).0;
      FramesEffect(ancestors[1..], s1);
      ApplyAllConcat(s, Calls(b), FrameCalls(ancestors[1..]));
      ApplyAllCongruent(s1, ApplyAll(s, Calls(b)), FrameCalls(ancestors[1..]));
    }
  }

  /** No function that a step is defined in queues anything. */
  predicate QuietAncestors(ancestors: seq<Code>) {
    Replayable(ancestors) && forall i :: 0 <= i < |ancestors| ==> Calls(ancestors[i].body) == []
  }

  lemma {:induction false} QuietFrames(ancestors: seq<Code>)
    requires Replayable(ancestors)
    ensures QuietAncestors(ancestors) <==> FrameCalls(ancestors) == []
  {
    if ancestors != [] {
      QuietFrames(ancestors[1..]);
      assert forall i :: 0 < i < |ancestors| ==> ancestors[i] == ancestors[1..][i - 1];
    }
  }

  /** The state in which the first step's function is called. */
  function Framed(s: Job): Job
    requires s.steps != []
  {
    RunFrames(s.steps[0].ancestry, PopStep(s)).0.(ancestry := FrameAncestry(s.steps[0]))
  }

  /** With quiet ancestors the list is as it was left. */
  lemma FramedQuietly(m: Machine, s: Job)
    requires s.steps != [] && QuietAncestors(s.steps[0].ancestry)
    ensures RunStep(m, s) == RunInFrame(m, Framed(s), s.steps[0].fn)
    ensures SameQueue(Framed(s), PopStep(s).(ancestry := FrameAncestry(s.steps[0]))) && Framed(s).indent == s.indent
  {
    QuietFrames(s.steps[0].ancestry);
    FramesEffect(s.steps[0].ancestry, PopStep(s));
  }
}
