/** What a control file makes the client job of client/job.py do.

    A step function is represented by the calls it makes on the job, in order,
    and by how it ends. Because a queued step carries its own behaviour, a
    terminating job is a finite tree of steps. */
module JobPrograms {
  import opened Options
  import opened Sequences

  /** The last argument of _boot_kernel: the applied patches, or a word such as 'rpm'. */
  datatype Notes = Patches(names: seq<string>) | Word(text: string)

  /** The step _boot_kernel queues to run after the reboot. In the verifying
      form the notes land in the parameter that end_reboot_and_verify calls `type`. */
  datatype PostBoot =
    | EndRebootAndVerify(when: int, expectedId: string, subdir: Option<string>, kind: Notes)
    | EndReboot(subdir: Option<string>, kernel: string, patches: Notes)

  datatype Queueing = Next | Append | Prepend

  /** `home` is the number of enclosing functions whose frame still holds this
      function, as _create_frame finds out by popping frames. */
  datatype Code = Code(name: string, home: nat, body: Body)

  datatype Body = Body(acts: seq<Act>, ending: Ending)

  datatype Act =
    | Queue(how: Queueing, code: Code)             // next_step, next_step_append, next_step_prepend
    | RunTest(name: string, outcome: TestOutcome)  // run_test
    | RunGroup(tag: string, group: Body)           // run_group
    | Guarded(block: Body)                         // a try block that swallows Exception

  datatype TestOutcome = Passed | Failed(status: string) | BrokeJob(cmd: bool) | Hung

  datatype Ending =
    | Return(init: Option<Code>)    // `init`: the step_init among the returned locals
    | RaiseTest(status: string)
    | RaiseJob(cmd: bool)           // `cmd`: the JobError carries a second argument
    | RaiseOther
    | Boot(check: bool, when: int, expectedId: string, subdir: Option<string>, notes: Notes)
    | Quit                          // job.quit
    | Exit                          // JobComplete or a plain sys.exit
    | Crash                         // the machine goes down

  /** How a call ends: returning, one of the exception classes that the job
      distinguishes, or losing the process. */
  datatype Signal =
    | Normal
    | TestExc(status: string)
    | JobExc(cmd: bool)
    | OtherExc
    | Continue   // JobContinue: the client exits, to be started again
    | Leave      // any other SystemExit
    | Down       // the machine crashed

  predicate LeavesProcess(g: Signal) {
    g.Continue? || g.Leave? || g.Down?
  }

  datatype StepFn = User(code: Code) | AfterBoot(call: PostBoot)

  datatype Call = Call(how: Queueing, fn: StepFn)

  const TEST_NA := "TEST_NA"

  // ------------------------------------------- reading a program as a whole

  function AfterGroup(g: Signal): Signal {
    match g
    case JobExc(_) => TestExc("ERROR")
    case OtherExc => TestExc("ERROR")
    case _ => g
  }

  function AfterGuard(g: Signal): Signal {
    if LeavesProcess(g) then g else Normal
  }

  function TestSignal(t: TestOutcome): Signal {
    match t
    case Passed => Normal
    case Failed(_) => Normal
    case BrokeJob(cmd) => JobExc(cmd)
    case Hung => Down
  }

  function EndingSignal(e: Ending): Signal {
    match e
    case Return(_) => Normal
    case RaiseTest(status) => TestExc(status)
    case RaiseJob(cmd) => JobExc(cmd)
    case RaiseOther => OtherExc
    case Boot(_, _, _, _, _) => Continue
    case Quit => Continue
    case Exit => Leave
    case Crash => Down
  }

  /** How a body ends, read off the program alone. */
  function Outcome(b: Body): Signal
    decreases b
  {
    var g := ActsOutcome(b.acts);
    if g.Normal? then EndingSignal(b.ending) else g
  }

  function ActsOutcome(acts: seq<Act>): Signal
    decreases acts
  {
    if acts == [] then Normal
    else
      var g := ActOutcome(acts[0]);
      if g.Normal? then ActsOutcome(acts[1..]) else g
  }

  function ActOutcome(a: Act): Signal
    decreases a
  {
    match a
    case Queue(_, _) => Normal
    case RunTest(_, t) => TestSignal(t)
    case RunGroup(_, body) => AfterGroup(Outcome(body))
    case Guarded(body) => AfterGuard(Outcome(body))
  }

  function BootCall(e: Ending): PostBoot
    requires e.Boot?
  {
    if e.check then EndRebootAndVerify(e.when, e.expectedId, e.subdir, e.notes)
    else EndReboot(e.subdir, e.expectedId, e.notes)
  }

  /** The queueing calls a body really makes, in the order it makes them. */
  function Calls(b: Body): seq<Call>
    decreases b
  {
    ActsCalls(b.acts)
    + if ActsOutcome(b.acts).Normal? && b.ending.Boot? then [Call(Prepend, AfterBoot(BootCall(b.ending)))] else []
  }

  function ActsCalls(acts: seq<Act>): seq<Call>
    decreases acts
  {
    if acts == [] then []
    else ActCalls(acts[0]) + if ActOutcome(acts[0]).Normal? then ActsCalls(acts[1..]) else []
  }

  function ActCalls(a: Act): seq<Call>
    decreases a
  {
    match a
    case Queue(how, code) => [Call(how, User(code))]
    case RunTest(_, _) => []
    case RunGroup(_, body) => Calls(body)
    case Guarded(body) => Calls(body)
  }

  /** The groups a body is inside when it loses the process, and so never closes. */
  function LeftInside(b: Body): nat
    decreases b
  {
    ActsLeftInside(b.acts)
  }

  function ActsLeftInside(acts: seq<Act>): nat
    decreases acts
  {
    if acts == [] then 0
    else if ActOutcome(acts[0]).Normal? then ActsLeftInside(acts[1..])
    else ActLeftInside(acts[0])
  }

  function ActLeftInside(a: Act): nat
    decreases a
  {
    match a
    case Queue(_, _) => 0
    case RunTest(_, t) => if t.Hung? then 1 else 0
    case RunGroup(_, body) => if LeavesProcess(Outcome(body)) then 1 + LeftInside(body) else 0
    case Guarded(body) => LeftInside(body)
  }

  function IsBoot(f: StepFn): nat { if f.AfterBoot? then 1 else 0 }

  function IsBootCall(c: Call): nat { IsBoot(c.fn) }

  /** The reboots a body begins. */
  function Boots(calls: seq<Call>): nat { Sum(calls, IsBootCall) }

  /** The step_init a step function hands back, if it returns at all. */
  function NestedInit(b: Body): Option<Code> {
    if Outcome(b).Normal? && b.ending.Return? then b.ending.init else None
  }

  // ------------------------------------------------------------------- size

  function CodeSize(c: Code): nat
    decreases c
  {
    1 + BodySize(c.body)
  }

  function BodySize(b: Body): nat
    decreases b
  {
    ActsSize(b.acts)
    + match b.ending
      case Return(Some(c)) => CodeSize(c)
      case Boot(_, _, _, _, _) => 1
      case _ => 0
  }

  function ActsSize(acts: seq<Act>): nat
    decreases acts
  {
    if acts == [] then 0 else ActSize(acts[0]) + ActsSize(acts[1..])
  }

  function ActSize(a: Act): nat
    decreases a
  {
    match a
    case Queue(_, code) => CodeSize(code)
    case RunTest(_, _) => 0
    case RunGroup(_, body) => BodySize(body)
    case Guarded(body) => BodySize(body)
  }

  function FnSize(f: StepFn): nat {
    match f
    case User(code) => CodeSize(code)
    case AfterBoot(_) => 1
  }

  function CallSize(c: Call): nat { FnSize(c.fn) }

  function InitSize(b: Body): nat {
    match NestedInit(b)
    case Some(c) => CodeSize(c)
    case None => 0
  }

  /** What a body queues fits into the body, so running a step shrinks the tree. */
  lemma {:induction false} CallsFit(b: Body)
    ensures Sum(Calls(b), CallSize) + InitSize(b) <= BodySize(b)
    decreases b
  {
    ActsCallsFit(b.acts);
    if ActsOutcome(b.acts).Normal? && b.ending.Boot? {
      SumAppend(ActsCalls(b.acts), Call(Prepend, AfterBoot(BootCall(b.ending))), CallSize);
    } else {
      assert Calls(b) == ActsCalls(b.acts);
    }
  }

  lemma {:induction false} ActsCallsFit(acts: seq<Act>)
    ensures Sum(ActsCalls(acts), CallSize) <= ActsSize(acts)
    decreases acts
  {
    if acts != [] {
      ActCallsFit(acts[0]);
      ActsCallsFit(acts[1..]);
      SumConcat(ActCalls(acts[0]), if ActOutcome(acts[0]).Normal? then ActsCalls(acts[1..]) else [], CallSize);
    }
  }

  lemma {:induction false} ActCallsFit(a: Act)
    ensures Sum(ActCalls(a), CallSize) <= ActSize(a)
    decreases a
  {
    match a
    case Queue(how, code) => SumSingle(Call(how, User(code)), CallSize);
    case RunTest(_, _) =>
    case RunGroup(_, body) => CallsFit(body);
    case Guarded(body) => CallsFit(body);
  }
}
