/** What the post-boot step finds out about the kernel that was booted. */
module JobIdentity {
  import opened Sequences
  import opened JobPrograms
  import opened JobSpec
  import opened JobEngine
  import opened JobRuns
  import opened JobTrees

  /** The running identity is the one expected, as far as the notes ask for one. */
  ghost predicate RightIdentity(call: PostBoot, running: string)
    requires call.EndRebootAndVerify?
  {
    && (call.kind == Word("src") ==> running == call.expectedId)
    && (call.kind == Word("rpm") ==> exists release :: running == call.expectedId + "::" + release)
  }

  lemma PrefixExists(s: string, p: string)
    ensures HasPrefix(s, p) <==> exists rest :: s == p + rest
  {
    if HasPrefix(s, p) {
      assert s == p + s[|p|..];
    }
  }

  lemma RightIdentityExactly(call: PostBoot, o: Observation)
    requires call.EndRebootAndVerify?
    ensures WrongKernel(call, o) <==> !(RightIdentity(call, o.runningId) && o.cmdlineWhen == call.when)
  {
    PrefixExists(o.runningId, call.expectedId + "::");
  }

  /** A post-boot step returns if and only if the kernel that runs is the one
      booted, by mark and identity, when that is verified, and mounts and CPUs
      are the same where a mismatch must abort. Otherwise it breaks the job. */
  lemma PostBootExactly(m: Machine, s: Job, call: PostBoot)
    ensures var (o, g) := (m.observe(call), RunPostBoot(m, s, call).1);
            && g == PostBootSignal(m, call) && (g == Normal || g == JobExc(false))
            && (g == Normal <==>
                  && (call.EndRebootAndVerify? ==> o.cmdlineWhen == call.when && RightIdentity(call, o.runningId))
                  && (m.abortOnMismatch ==> o.mountsSame && o.cpusSame))
  {
    if call.EndRebootAndVerify? {
      RightIdentityExactly(call, m.observe(call));
    }
  }

  /** What a post-boot step adds to the log; nothing else changes but the indent. */
  lemma PostBootLog(m: Machine, s: Job, call: PostBoot)
    ensures var (o, t) := (m.observe(call), RunPostBoot(m, s, call).0);
            var verified :=
              if call.EndRebootAndVerify? then [Entry(Plain("GOOD"), RebootPhase("reboot.verify"))] else [];
            var rightKernel := call.EndRebootAndVerify? ==>
                                 o.cmdlineWhen == call.when && RightIdentity(call, o.runningId);
            var entries :=
              if !rightKernel then
                [Entry(Plain("ABORT"), RebootPhase("reboot.verify")), Entry(End("ABORT"), Reboot)]
              else if m.abortOnMismatch && !(o.mountsSame && o.cpusSame) then
                verified + [Entry(Plain("ABORT"), RebootPhase("reboot.verify_config")), Entry(End("ABORT"), Reboot)]
              else verified + [Entry(End("GOOD"), Reboot)];
            t == s.(log := s.log + entries, indent := s.indent - 1)
  {
    var o := m.observe(call);
    var log := s.log;
    if call.EndRebootAndVerify? {
      RightIdentityExactly(call, o);
      if WrongKernel(call, o) {
        AppendTwo(log, Entry(Plain("ABORT"), RebootPhase("reboot.verify")), Entry(End("ABORT"), Reboot));
      } else {
        var verify := Entry(Plain("GOOD"), RebootPhase("reboot.verify"));
        FinishLog(Record(s, verify.status, verify.op), o, m.abortOnMismatch);
        assert forall es: seq<Entry> :: log + [verify] + es == log + ([verify] + es);
      }
    } else {
      FinishLog(s, o, m.abortOnMismatch);
      assert forall es: seq<Entry> :: [] + es == es;
    }
  }

  lemma FinishLog(s: Job, o: Observation, abort: bool)
    ensures FinishReboot(s, o, abort).0
            == s.(log := s.log
                         + (if !(abort && !(o.mountsSame && o.cpusSame)) then [Entry(End("GOOD"), Reboot)]
                            else [Entry(Plain("ABORT"), RebootPhase("reboot.verify_config")),
                                  Entry(End("ABORT"), Reboot)]),
                  indent := s.indent - 1)
  {
    AppendTwo(s.log, Entry(Plain("ABORT"), RebootPhase("reboot.verify_config")), Entry(End("ABORT"), Reboot));
  }

  /** The verdict on the booted kernel never depends on the running identity if
      and only if the notes handed to _boot_kernel are neither 'src' nor 'rpm'. */
  lemma IdentityIgnoredExactly(call: PostBoot)
    requires call.EndRebootAndVerify?
    ensures (forall o: Observation, id :: WrongKernel(call, o) == WrongKernel(call, o.(runningId := id)))
            <==> call.kind != Word("src") && call.kind != Word("rpm")
  {
    var right := Observation(call.expectedId, call.when, true, true);
    if call.kind == Word("src") {
      var other := call.expectedId + "?";
      assert WrongKernel(call, right.(runningId := other)) && !WrongKernel(call, right);
    }
    if call.kind == Word("rpm") {
      var named := call.expectedId + "::";
      assert WrongKernel(call, right) && !WrongKernel(call, right.(runningId := named));
    }
  }

  predicate Unchecked(call: PostBoot) {
    call.EndRebootAndVerify? ==> call.kind != Word("src") && call.kind != Word("rpm")
  }

  /** The reboots that the body begins are of kernels whose identity is not checked. */
  predicate BootsUnchecked(b: Body) {
    BootsMeet(Calls(b), Unchecked)
  }

  /** Two machines that differ in the identities of the running kernels only. */
  ghost predicate SameButIdentity(m: Machine, n: Machine) {
    && m.abortOnMismatch == n.abortOnMismatch
    && forall call :: n.observe(call) == m.observe(call).(runningId := n.observe(call).runningId)
  }

  lemma {:induction false} LoopUnchecked(m: Machine, n: Machine, s: Job)
    requires SameButIdentity(m, n) && AllSteps(s.steps, BootsUnchecked, Unchecked) && QuietSteps(s.steps)
    ensures RunLoop(m, s) == RunLoop(n, s)
    ensures AllSteps(RunLoop(m, s).0.steps, BootsUnchecked, Unchecked)
    decreases Size(s.steps)
  {
    if s.steps != [] {
      assert FnThroughout(s.steps[0].fn, BootsUnchecked, Unchecked);
      StepTaken(m, s);
      AllStepsAfter(s.steps, BootsUnchecked, Unchecked);
      if RunStep(m, s).1.Normal? {
        LoopUnchecked(m, n, RunStep(m, s).0);
      }
    }
  }

  /** A job all of whose checked boots have such notes, as those of kernels built
      from source with their list of patches, runs the same steps, writes the same
      log and ends the same whatever kernels it finds itself running. */
  lemma {:induction false} WrongKernelsUnnoticed(m: Machine, n: Machine, s: Job, restarts: nat)
    requires SameButIdentity(m, n) && AllSteps(s.steps, BootsUnchecked, Unchecked) && QuietSteps(s.steps)
    ensures RunJob(m, s, restarts) == RunJob(n, s, restarts)
    decreases restarts
  {
    LoopUnchecked(m, n, s);
    var (s1, g) := RunLoop(m, s);
    if Restartable(g) && restarts > 0 {
      WrongKernelsUnnoticed(m, n, Resume(s1), restarts - 1);
    }
  }

  /** One such reboot: after it the log and the signal are the same for any two
      running identities. */
  lemma PatchesDisableIdentityCheck(m: Machine, s: Job, boot: Ending, n: Machine)
    requires boot.Boot? && boot.check && boot.notes.Patches? && SameButIdentity(m, n)
    ensures var call := BootCall(boot);
            var (t, u) := (RunPostBoot(m, BootKernel(s, call), call), RunPostBoot(n, BootKernel(s, call), call));
            t.0.log == u.0.log && t.1 == u.1
  {
    var call := BootCall(boot);
    assert n.observe(call) == m.observe(call).(runningId := n.observe(call).runningId);
  }
}
