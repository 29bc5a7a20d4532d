/** The client job as the object it is: methods that update the persistent step
    list, indent and mark in place, and the loop of the step engine. */
module ClientJob {
  import opened Options
  import opened JobPrograms
  import opened JobSpec
  import opened JobEngine
  import opened JobTrees
  import opened JobRuns
  import opened JobMarks
  import opened JobStatus
  import opened JobIdentity
  import opened JobSignals

  class ClientJob {
    // persistent: the state file and the status log
    var steps: seq<StepTuple>
    var recordIndent: int
    var unexpectedReboot: Option<string>
    var statusLog: seq<Entry>
    // of this process
    var nextStepIndex: nat
    var currentStepAncestry: seq<Code>
    // history
    ghost var ran: seq<StepFn>
    ghost var issued: seq<StepFn>

    ghost function State(): Job
      reads this
    {
      Job(steps, recordIndent, unexpectedReboot, statusLog, nextStepIndex, currentStepAncestry, ran, issued)
    }

    /** The indent equals the STARTs in the log without an END, so that the
        assert of runjob speaks of the log; the insertion index is in the list. */
    ghost predicate Valid()
      reads this
    {
      Sound(State())
    }

    /** A first start: nothing queued, and one START in the log. */
    constructor Start()
      ensures State() == StartJob(None) && Valid()
      ensures steps == [] && unexpectedReboot.None? && Opened(statusLog) == 1
    {
      steps, recordIndent, unexpectedReboot, statusLog := [], 0, None, [];
      nextStepIndex, currentStepAncestry := 0, [];
      ran, issued := [], [];
      new;
      RecordEntry(JobSpec.Start, WholeJob);
    }

    /** A continuation after the process was lost with state `s` on disk. */
    constructor Continued(ghost s: Job, steps: seq<StepTuple>, indent: int, marker: Option<string>, log: seq<Entry>)
      requires steps == s.steps && indent == s.indent && marker == s.marker && log == s.log && Sound(s)
      ensures State() == Resume(s) && Valid()
      ensures this.steps == s.steps && unexpectedReboot == s.marker
      ensures nextStepIndex == 0 && currentStepAncestry == []
      ensures statusLog == s.log + if s.marker.None? then [] else
                [Entry(Plain("FAIL"), Unit(s.marker.value)), Entry(End("FAIL"), Unit(s.marker.value))]
      ensures Opened(statusLog) == Opened(s.log) - if s.marker.Some? then 1 else 0
    {
      this.steps, recordIndent, unexpectedReboot, statusLog := steps, indent, marker, log;
      nextStepIndex, currentStepAncestry := 0, [];
      ran, issued := s.ran, s.issued;
      new;
      if unexpectedReboot.Some? {
        var name := unexpectedReboot.value;
        RecordEntry(Plain("FAIL"), Unit(name));
        RecordEntry(End("FAIL"), Unit(name));
      }
    }

    method RecordEntry(st: Status, op: Operation)
      requires Valid()
      modifies this
      ensures State() == Record(old(State()), st, op) && Valid()
    {
      OpenedMore(statusLog, Entry(st, op));
      statusLog := statusLog + [Entry(st, op)];
      match st {
        case Start => recordIndent := recordIndent + 1;
        case End(_) => recordIndent := recordIndent - 1;
        case Plain(_) =>
      }
    }

    method CreateTuple(fn: StepFn) returns (t: StepTuple)
      ensures t == CreateStepTuple(State(), fn)
    {
      t := StepTuple(currentStepAncestry, fn);
    }

    method NextStepAppend(fn: StepFn)
      requires Valid()
      modifies this
      ensures State() == Apply(old(State()), Append, fn) && Valid()
      ensures steps == old(steps) + [StepTuple(currentStepAncestry, fn)] && nextStepIndex == old(nextStepIndex)
    {
      var t := CreateTuple(fn);
      steps := steps + [t];
      issued := issued + [fn];
    }

    method NextStep(fn: StepFn)
      requires Valid()
      modifies this
      ensures State() == Apply(old(State()), Next, fn) && Valid()
      ensures steps == old(steps[..nextStepIndex]) + [StepTuple(currentStepAncestry, fn)] + old(steps[nextStepIndex..])
      ensures nextStepIndex == old(nextStepIndex) + 1
    {
      var t := CreateTuple(fn);
      steps := Insert(steps, nextStepIndex, t);
      nextStepIndex := nextStepIndex + 1;
      issued := issued + [fn];
    }

    method NextStepPrepend(fn: StepFn)
      requires Valid()
      modifies this
      ensures State() == Apply(old(State()), Prepend, fn) && Valid()
      ensures steps == [StepTuple(currentStepAncestry, fn)] + old(steps)
      ensures steps[nextStepIndex..] == old(steps[nextStepIndex..])
    {
      var t := CreateTuple(fn);
      steps := [t] + steps;
      nextStepIndex := nextStepIndex + 1;
      issued := issued + [fn];
    }

    method StartRebootEntries()
      requires Valid()
      modifies this
      ensures State() == StartReboot(old(State())) && Valid()
      ensures statusLog == old(statusLog)
                           + [Entry(JobSpec.Start, Reboot), Entry(Plain("GOOD"), RebootPhase("reboot.start"))]
      ensures OpenReboots(statusLog) == OpenReboots(old(statusLog)) + 1
      ensures Opened(statusLog) == Opened(old(statusLog)) + 1
    {
      StartOpensReboot(State());
      RecordEntry(JobSpec.Start, Reboot);
      RecordEntry(Plain("GOOD"), RebootPhase("reboot.start"));
    }

    method RecordFailure(phase: string)
      requires Valid()
      modifies this
      ensures State() == RecordRebootFailure(old(State()), phase) && Valid()
      ensures statusLog == old(statusLog) + [Entry(Plain("ABORT"), RebootPhase(phase)), Entry(End("ABORT"), Reboot)]
      ensures ClosesOne(old(State()), State(), End("ABORT"))
    {
      FailureClosesOne(State(), phase);
      RecordEntry(Plain("ABORT"), RebootPhase(phase));
      RecordEntry(End("ABORT"), Reboot);
    }

    method CheckConfiguration(o: Observation, abortOnMismatch: bool) returns (g: Signal)
      requires Valid()
      modifies this
      ensures (State(), g) == CheckPostReboot(old(State()), o, abortOnMismatch) && Valid()
      ensures g.Normal? <==> (abortOnMismatch ==> o.mountsSame && o.cpusSame)
      ensures if g.Normal? then State() == old(State()) else ClosesOne(old(State()), State(), End("ABORT"))
    {
      if !o.mountsSame && abortOnMismatch {
        RecordFailure("reboot.verify_config");
        return JobExc(false);
      }
      if !o.cpusSame && abortOnMismatch {
        RecordFailure("reboot.verify_config");
        return JobExc(false);
      }
      g := Normal;
    }

    method EndRebootEntries(o: Observation, abortOnMismatch: bool) returns (g: Signal)
      requires Valid()
      modifies this
      ensures (State(), g) == FinishReboot(old(State()), o, abortOnMismatch) && Valid()
      ensures g.Normal? <==> (abortOnMismatch ==> o.mountsSame && o.cpusSame)
      ensures ClosesOne(old(State()), State(), if g.Normal? then End("GOOD") else End("ABORT"))
    {
      FinishClosesOne(State(), o, abortOnMismatch);
      g := CheckConfiguration(o, abortOnMismatch);
      if g.Normal? {
        RecordEntry(End("GOOD"), Reboot);
      }
    }

    method PostBootStep(m: Machine, call: PostBoot) returns (g: Signal)
      requires Valid()
      modifies this
      ensures (State(), g) == RunPostBoot(m, old(State()), call) && Valid()
      ensures g == PostBootSignal(m, call) && steps == old(steps)
      ensures g.Normal? <==>
                && (call.EndRebootAndVerify? ==>
                      m.observe(call).cmdlineWhen == call.when && RightIdentity(call, m.observe(call).runningId))
                && (m.abortOnMismatch ==> m.observe(call).mountsSame && m.observe(call).cpusSame)
      ensures ClosesOne(old(State()), State(), if g.Normal? then End("GOOD") else End("ABORT"))
      ensures Opened(statusLog) == Opened(old(statusLog)) - 1
    {
      PostBootClosesOnce(m, State(), call);
      PostBootExactly(m, State(), call);
      PostBootIndent(m, State(), call);
      var o := m.observe(call);
      if call.EndRebootAndVerify? {
        var bad := false;
        if (call.kind == Word("src") && call.expectedId != o.runningId)
           || (call.kind == Word("rpm") && !HasPrefix(o.runningId, call.expectedId + "::")) {
          bad := true;
        }
        if call.when != o.cmdlineWhen {
          bad := true;
        }
        if bad {
          RecordFailure("reboot.verify");
          return JobExc(false);
        }
        RecordEntry(Plain("GOOD"), RebootPhase("reboot.verify"));
      }
      g := EndRebootEntries(o, m.abortOnMismatch);
    }

    /** BootableKernel._boot_kernel: queue the post-boot step, record, reboot. */
    method BootKernelNow(check: bool, when: int, expectedId: string, subdir: Option<string>, notes: Notes)
      returns (g: Signal)
      requires Valid()
      modifies this
      ensures g == Continue && Valid()
      ensures State() == BootKernel(old(State()), BootCall(Boot(check, when, expectedId, subdir, notes)))
      ensures steps != [] && steps[1..] == old(steps)
      ensures steps[0] == StepTuple(currentStepAncestry, AfterBoot(
                if check then EndRebootAndVerify(when, expectedId, subdir, notes)
                else EndReboot(subdir, expectedId, notes)))
      ensures OpenReboots(statusLog) - Pending(steps) == OpenReboots(old(statusLog)) - Pending(old(steps))
    {
      BootKeepsPending(State(), BootCall(Boot(check, when, expectedId, subdir, notes)));
      if check {
        NextStepPrepend(AfterBoot(EndRebootAndVerify(when, expectedId, subdir, notes)));
      } else {
        NextStepPrepend(AfterBoot(EndReboot(subdir, expectedId, notes)));
      }
      StartRebootEntries();
      g := Continue;
    }

    method Open(name: string)
      requires Valid()
      modifies this
      ensures State() == OpenGroup(old(State()), name) && Valid()
      ensures unexpectedReboot == Some(name)
      ensures Opened(statusLog) == Opened(old(statusLog)) + 1 && OpenReboots(statusLog) == OpenReboots(old(statusLog))
    {
      GroupReboots(State(), name, Normal);
      RecordEntry(JobSpec.Start, Unit(name));
      unexpectedReboot := Some(name);
    }

    method Close(name: string, g: Signal)
      requires Valid()
      modifies this
      ensures State() == CloseGroup(old(State()), name, g) && Valid()
      ensures unexpectedReboot == if g.Down? then old(unexpectedReboot) else None
      ensures Opened(statusLog) == Opened(old(statusLog)) - if LeavesProcess(g) then 0 else 1
      ensures OpenReboots(statusLog) == OpenReboots(old(statusLog))
    {
      GroupReboots(State(), name, g);
      if g.Down? {
        return;
      }
      match g {
        case Normal => RecordEntry(End("GOOD"), Unit(name));
        case TestExc(status) => RecordEntry(End(status), Unit(name));
        case JobExc(_) => RecordEntry(End("ABORT"), Unit(name));
        case OtherExc => RecordEntry(End("ERROR"), Unit(name));
        case _ =>
      }
      unexpectedReboot := None;
    }

    method Test(name: string, t: TestOutcome) returns (g: Signal)
      requires Valid()
      modifies this
      ensures (State(), g) == RunAct(RunTest(name, t), old(State())) && Valid()
      ensures steps == old(steps) && OpenReboots(statusLog) == OpenReboots(old(statusLog))
      ensures Opened(statusLog) == Opened(old(statusLog)) + if t.Hung? then 1 else 0
      ensures unexpectedReboot == if t.Hung? then Some(name) else None
    {
      TestReboots(State(), name, t);
      ActEffect(RunTest(name, t), State());
      Open(name);
      match t {
        case Passed => RecordEntry(Plain("GOOD"), Unit(name)); g := Normal;
        case Failed(status) => RecordEntry(Plain(status), Unit(name)); g := TestExc(status);
        case BrokeJob(cmd) => g := JobExc(cmd);
        case Hung => g := Down;
      }
      Close(name, g);
      if g.TestExc? {
        g := Normal;
      }
    }

    /** Runs a function body: its acts in order, then its ending. */
    method Execute(b: Body) returns (g: Signal)
      requires Valid()
      modifies this
      ensures (State(), g) == RunBody(b, old(State())) && Valid()
      ensures g == Outcome(b) && SameQueue(State(), ApplyAll(old(State()), Calls(b)))
      ensures Fits(StopOf(b), g)
      ensures Opened(statusLog) == Opened(old(statusLog)) + LeftInside(b) + Boots(Calls(b))
      ensures unexpectedReboot == ActsMark(b.acts, old(unexpectedReboot))
      decreases b
    {
      BodyEffect(b, State());
      BodyMark(b, State());
      BodyStops(b);
      g := Perform(b.acts);
      if !g.Normal? {
        return;
      }
      match b.ending {
        case Boot(check, when, expectedId, subdir, notes) => g := BootKernelNow(check, when, expectedId, subdir, notes);
        case e => g := EndingSignal(e);
      }
    }

    method Perform(acts: seq<Act>) returns (g: Signal)
      requires Valid()
      modifies this
      ensures (State(), g) == RunActs(acts, old(State())) && Valid()
      ensures g == ActsOutcome(acts) && SameQueue(State(), ApplyAll(old(State()), ActsCalls(acts)))
      ensures Opened(statusLog) == Opened(old(statusLog)) + ActsLeftInside(acts) + Boots(ActsCalls(acts))
      decreases acts
    {
      ActsEffect(acts, State());
      if acts == [] {
        return Normal;
      }
      g := PerformOne(acts[0]);
      if g.Normal? {
        g := Perform(acts[1..]);
      }
    }

    method PerformOne(a: Act) returns (g: Signal)
      requires Valid()
      modifies this
      ensures (State(), g) == RunAct(a, old(State())) && Valid()
      ensures g == ActOutcome(a) && SameQueue(State(), ApplyAll(old(State()), ActCalls(a)))
      ensures a.RunGroup? ==> (g.Normal? <==> Returns(StopOf(a.group).at))
      ensures g.Normal? ==> Opened(statusLog) == Opened(old(statusLog))
      ensures unexpectedReboot == ActMark(a, old(unexpectedReboot))
      decreases a
    {
      ActEffect(a, State());
      ActMarked(a, State());
      ActNothingLeftOpen(a);
      match a {
        case Queue(how, code) =>
          match how {
            case Next => NextStep(User(code));
            case Append => NextStepAppend(User(code));
            case Prepend => NextStepPrepend(User(code));
          }
          g := Normal;
        case RunTest(name, t) => g := Test(name, t);
        case RunGroup(tag, body) =>
          Open(tag);
          g := Execute(body);
          Close(tag, g);
          g := AfterGroup(g);
        case Guarded(body) =>
          g := Execute(body);
          g := AfterGuard(g);
      }
    }

    method AddInit(code: Code)
      requires Valid()
      modifies this
      ensures State() == AddStepInit(old(State()), code) && Valid()
      ensures steps == InitTuple(code, old(currentStepAncestry)) + old(steps)
    {
      var init := NestedInit(code.body);
      if init.Some? {
        currentStepAncestry := currentStepAncestry + [code];
        NextStepPrepend(User(init.value));
      }
    }

    method UserStep(code: Code) returns (g: Signal)
      requires Valid()
      modifies this
      ensures (State(), g) == RunUserStep(old(State()), code) && Valid()
      ensures g == StepSignal(Outcome(code.body))
      ensures g.Normal? <==> Returns(StopOf(code.body).at) || StopOf(code.body).at == AtEnding(RaiseTest(TEST_NA))
      ensures old(nextStepIndex) == 0 ==>
                steps == InitTuple(code, old(currentStepAncestry))
                         + Layout(Calls(code.body), old(currentStepAncestry), old(steps))
    {
      UserStepSignal(State(), code);
      StepEndsExactly(State(), code);
      if nextStepIndex == 0 {
        UserStepLayout(State(), code);
      }
      g := Execute(code.body);
      if g.Normal? {
        AddInit(code);
      } else if g == TestExc(TEST_NA) {
        RecordEntry(Plain(TEST_NA), Unit(code.name));
        g := Normal;
      } else if !LeavesProcess(g) {
        g := JobExc(g.JobExc? && g.cmd);
      }
    }

    /** _create_frame: the functions a step is defined in are called again. */
    method BuildFrames(ancestors: seq<Code>) returns (g: Signal)
      requires Valid()
      modifies this
      ensures (State(), g) == RunFrames(ancestors, old(State())) && Valid()
      ensures Replayable(ancestors) ==>
                g.Normal? && SameQueue(State(), ApplyAll(old(State()), FrameCalls(ancestors)))
                && Opened(statusLog) == Opened(old(statusLog))
    {
      if Replayable(ancestors) {
        FramesEffect(ancestors, State());
      }
      g := Normal;
      var i := 0;
      while i < |ancestors|
        invariant i <= |ancestors| && Valid() && g == Normal
        invariant RunFrames(ancestors[i..], State()) == RunFrames(ancestors, old(State()))
      {
        assert ancestors[i..][0] == ancestors[i] && ancestors[i..][1..] == ancestors[i + 1..];
        g := Execute(ancestors[i].body);
        if !g.Normal? {
          g := if LeavesProcess(g) then g else JobExc(g.JobExc? && g.cmd);
          return;
        }
        i := i + 1;
      }
    }

    /** _create_frame: frames are popped until the one below does not hold the
        function, or two are left. */
    method PopFrames(t: StepTuple) returns (ancestry: seq<Code>)
      ensures ancestry == FrameAncestry(t)
      ensures t.fn.User? ==>
                && ancestry <= t.ancestry && (t.ancestry != [] ==> ancestry != [])
                && (|ancestry| < |t.ancestry| ==> t.fn.code.home <= |ancestry|)
                && (|ancestry| > 1 ==> t.fn.code.home > |ancestry| - 1)
      ensures t.fn.AfterBoot? ==> ancestry == t.ancestry
    {
      if t.fn.User? {
        FramesPopped(t.ancestry, t.fn.code);
      }
      ancestry := t.ancestry;
      while |ancestry| > 1
        invariant Kept(ancestry, t.fn) == Kept(t.ancestry, t.fn)
      {
        if !FrameHolds(|ancestry| - 1, t.fn) {
          break;
        }
        ancestry := ancestry[..|ancestry| - 1];
      }
    }

    /** Takes the first step off the saved list, forgets the insertion index,
        builds the frames, sets up the ancestry and runs the step. */
    method RunFirstStep(m: Machine) returns (g: Signal)
      requires Valid() && steps != []
      modifies this
      ensures (State(), g) == RunStep(m, old(State())) && Valid()
      ensures QuietAncestors(old(steps[0].ancestry)) ==>
                && steps == StepsAfter(old(steps)) && ran == old(ran) + [old(steps[0].fn)]
                && g == StepOutcome(m, old(steps[0].fn))
                && unexpectedReboot == StepMark(old(steps[0]), old(unexpectedReboot))
    {
      if QuietAncestors(steps[0].ancestry) {
        StepLayout(m, State());
        StepMarked(m, State());
      }
      var t := steps[0];
      ran := ran + [t.fn];
      steps := steps[1..];
      nextStepIndex := 0;
      g := BuildFrames(t.ancestry);
      if !g.Normal? {
        return;
      }
      currentStepAncestry := PopFrames(t);
      match t.fn {
        case User(code) => g := UserStep(code);
        case AfterBoot(call) => g := PostBootStep(m, call);
      }
    }

    /** step_engine's loop, until the list is empty or a step leaves it. */
    method StepEngine(m: Machine) returns (g: Signal)
      requires Valid() && QuietSteps(steps)
      modifies this
      ensures (State(), g) == RunLoop(m, old(State())) && Valid()
      ensures g.Normal? ==> steps == []
      ensures BootAtHead(old(steps)) ==>
                Opened(statusLog) - Pending(steps)
                == Opened(old(statusLog)) - Pending(old(steps)) + if LeavesProcess(g) then DepthAtLoss(State()) else 0
    {
      g := Normal;
      if BootAtHead(steps) {
        LoopIndent(m, State());
      }
      while steps != []
        invariant Valid() && QuietSteps(steps) && g == Normal
        invariant RunLoop(m, State()) == RunLoop(m, old(State()))
        decreases Size(steps)
      {
        StepTaken(m, State());
        assert QuietAncestors(steps[0].ancestry);
        g := RunFirstStep(m);
        if !g.Normal? {
          return;
        }
      }
    }

    /** runjob from the step engine on, up to its assert on the indent. */
    method RunToVerdict(m: Machine) returns (v: Verdict)
      requires Valid() && QuietSteps(steps)
      modifies this
      ensures var (t, g) := RunLoop(m, old(State())); (State(), v) == Conclude(t, g)
      ensures QuietSteps(steps)
      ensures Valid() && (v.AtAssert? ==> v.indent == Opened(statusLog))
      ensures v.AtAssert? ==> (EndsGood(statusLog) <==> RunLoop(m, old(State())).1.Normal?)
    {
      ghost var (t, e) := RunLoop(m, State());
      ConcludeEntries(t, e);
      var g := StepEngine(m);
      match g {
        case Normal =>
          RecordEntry(End("GOOD"), WholeJob);
          v := AtAssert(recordIndent);
        case JobExc(cmd) =>
          if cmd {
            RecordEntry(Plain("ABORT"), WholeJob);
          }
          RecordEntry(End("ABORT"), WholeJob);
          v := AtAssert(recordIndent);
        case Leave => v := Gone;
        case Continue => v := Paused;
        case Down => v := Paused;
        case _ =>
          RecordEntry(End("ABORT"), WholeJob);
          v := AtAssert(recordIndent);
      }
    }
  }

  lemma StartOpensReboot(s: Job)
    ensures OpenReboots(StartReboot(s).log) == OpenReboots(s.log) + 1
  {
    RecordReboots(s, JobSpec.Start, Reboot);
    RecordReboots(Record(s, JobSpec.Start, Reboot), Plain("GOOD"), RebootPhase("reboot.start"));
  }

  lemma BootKeepsPending(s: Job, call: PostBoot)
    ensures var t := BootKernel(s, call);
            && t.steps != [] && t.steps[0].fn == AfterBoot(call) && t.steps[1..] == s.steps
            && OpenReboots(t.log) - Pending(t.steps) == OpenReboots(s.log) - Pending(s.steps)
  {
    StartOpensReboot(Apply(s, Prepend, AfterBoot(call)));
    assert BootKernel(s, call).steps[1..] == s.steps;
  }

  /** A job from its first start through up to `restarts` continuations, each a
      new process that finds only the persistent state. The assert holds exactly
      when every START in the log has its END, and that is known from the step
      tree alone. */
  method RunAcrossRestarts(m: Machine, code: Code, restarts: nat) returns (v: Verdict, log: seq<Entry>)
    requires Throughout(code, Quiet)
    ensures (v, log) == (RunJob(m, StartJob(Some(code)), restarts).1, RunJob(m, StartJob(Some(code)), restarts).0.log)
    ensures v.AtAssert? ==> v.indent == Opened(log)
    ensures v.AtAssert? ==> (v.indent == 0 <==> TreeDrift(m, StartJob(Some(code)).steps, None) == 0)
    ensures AtDepthZero(code) && v.AtAssert? ==> v.indent == 0
  {
    var job := new ClientJob.Start();
    job.NextStep(User(code));
    ghost var first := StartJob(Some(code));
    var left: nat := restarts;
    v := job.RunToVerdict(m);
    ghost var s := first;
    while v.Paused? && left > 0
      invariant left <= restarts && job.Valid() && QuietSteps(job.steps) && QuietSteps(s.steps)
      invariant v.AtAssert? ==> v.indent == Opened(job.statusLog)
      invariant RunJob(m, s, left) == RunJob(m, first, restarts)
      invariant (job.State(), v) == Conclude(RunLoop(m, s).0, RunLoop(m, s).1)
      decreases left
    {
      RestartStep(m, s, left);
      s := Resume(job.State());
      job := new ClientJob.Continued(job.State(), job.steps, job.recordIndent, job.unexpectedReboot, job.statusLog);
      left := left - 1;
      v := job.RunToVerdict(m);
    }
    RestartStep(m, s, left);
    log := job.statusLog;
    if v.AtAssert? {
      AssertHoldsExactly(m, Some(code), restarts);
      if AtDepthZero(code) {
        IndentZeroAtAssert(m, code, restarts);
      }
    }
  }
}
