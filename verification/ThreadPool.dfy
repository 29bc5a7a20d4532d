/** The worker pool of cli/threads.py as a transition system.

    Every step is one queue operation, one thread start, one update of
    `numthreads`, or one decision of the main thread, so a run is an arbitrary
    interleaving of the main thread with all workers. */
module ThreadPool {
  import opened Sequences

  /** One queued item: running the pool's function on it calls
      add_one_thread_post_wait `spawns` times. */
  datatype Work = Work(name: string, spawns: nat)

  datatype Entry = Task(work: Work) | Die

  /** A thread is named by its position in registration order. */
  type Thread = nat

  /** Who is about to call start() on a registered thread. */
  datatype Starter = ByMain | ByWorker(t: Thread)

  datatype Worker =
    | Unstarted(starter: Starter)                      // in the registry, start() not called yet
    | Getting                                          // at self.queue.get()
    | Calling(work: Work, left: nat)                   // inside the function, `left` spawns to go
    | Counted(work: Work, left: nat)                   // numthreads raised, child not registered
    | Registered(work: Work, left: nat, child: Thread) // child registered, not started
    | Started(work: Work, left: nat)                   // child started, its 'die' not put
    | Finished

  datatype Main =
    | Spawning(left: nat)               // constructor: `left` threads to register
    | SpawnedOne(left: nat, child: Thread)
    | Ready                             // between the calls of the pool's owner
    | Posting(left: nat)                // wait: `left` tokens to put
    | Popping(dead: nat)
    | Inspecting(dead: nat, thread: Thread)
    | Joining(dead: nat, thread: Thread)
    | Returned(dead: nat)
    | AssertFailed(dead: nat)

  /** `initial`, `early`, `queued` and `completed` are history: the size asked
      for, the spawns counted before wait looked at numthreads, the work the
      owner queued, and the work whose run has ended. */
  datatype State = State(
    numthreads: nat, registry: seq<Thread>, queue: seq<Entry>, workers: seq<Worker>, main: Main,
    initial: nat, early: nat, queued: multiset<Work>, completed: multiset<Work>)

  datatype Step =
    | MainRegister | MainStart | MainQueue(work: Work) | MainWait | MainPost
    | MainPop | MainInspect | MainJoin | MainTimeout
    | WorkerGet(t: Thread) | WorkerCount(t: Thread) | WorkerRegister(t: Thread)
    | WorkerStart(t: Thread) | WorkerPutDie(t: Thread) | WorkerReturn(t: Thread)

  function Init(n: nat): State {
    State(n, [], [], [], Spawning(n), n, 0, multiset{}, multiset{})
  }

  predicate BeforeWait(m: Main) {
    m.Spawning? || m.SpawnedOne? || m.Ready?
  }

  predicate Enabled(s: State, e: Step) {
    match e
    case MainRegister => s.main.Spawning? && s.main.left > 0
    case MainStart => s.main.SpawnedOne? && s.main.child < |s.workers|
    case MainQueue(_) => s.main.Ready?
    case MainWait => s.main.Ready?
    case MainPost => s.main.Posting? && s.main.left > 0
    case MainPop => s.main.Popping? && s.registry != []
    case MainInspect => s.main.Inspecting? && s.main.thread < |s.workers|
    case MainJoin => s.main.Joining? && s.main.thread < |s.workers| && s.workers[s.main.thread].Finished?
    case MainTimeout => s.main.Popping? && s.registry == []
    case WorkerGet(t) => t < |s.workers| && s.workers[t].Getting? && s.queue != []
    case WorkerCount(t) => t < |s.workers| && s.workers[t].Calling? && s.workers[t].left > 0
    case WorkerRegister(t) => t < |s.workers| && s.workers[t].Counted?
    case WorkerStart(t) => t < |s.workers| && s.workers[t].Registered? && s.workers[t].child < |s.workers|
    case WorkerPutDie(t) => t < |s.workers| && s.workers[t].Started?
    case WorkerReturn(t) => t < |s.workers| && s.workers[t].Calling? && s.workers[t].left == 0
  }

  function AfterRegistering(left: nat): Main {
    if left == 0 then Ready else Spawning(left)
  }

  /** thread.isAlive(): true from start() until the thread's target returns. */
  predicate IsAlive(w: Worker) {
    !w.Unstarted? && !w.Finished?
  }

  function Apply(s: State, e: Step): State
    requires Enabled(s, e)
  {
    match e
    case MainRegister =>
      s.(workers := s.workers + [Unstarted(ByMain)], registry := s.registry + [|s.workers|],
         main := SpawnedOne(s.main.left - 1, |s.workers|))
    case MainStart =>
      s.(workers := s.workers[s.main.child := Getting], main := AfterRegistering(s.main.left))
    case MainQueue(w) =>
      s.(queue := s.queue + [Task(w)], queued := s.queued + multiset{w})
    case MainWait =>
      s.(main := if s.numthreads == 0 then Popping(0) else Posting(s.numthreads))
    case MainPost =>
      s.(queue := s.queue + [Die],
         main := if s.main.left == 1 then Popping(0) else Posting(s.main.left - 1))
    case MainPop =>
      s.(registry := s.registry[1..], main := Inspecting(s.main.dead, s.registry[0]))
    case MainInspect =>
      s.(main := if IsAlive(s.workers[s.main.thread]) then Joining(s.main.dead, s.main.thread)
                 else Popping(s.main.dead + 1))
    case MainJoin => s.(main := Popping(s.main.dead + 1))
    case MainTimeout =>
      s.(main := if s.main.dead == s.numthreads then Returned(s.main.dead) else AssertFailed(s.main.dead))
    case WorkerGet(t) =>
      var data := s.queue[0];
      s.(queue := s.queue[1..],
         workers := s.workers[t := if data.Die? then Finished else Calling(data.work, data.work.spawns)])
    case WorkerCount(t) =>
      s.(numthreads := s.numthreads + 1,
         early := if BeforeWait(s.main) then s.early + 1 else s.early,
         workers := s.workers[t := Counted(s.workers[t].work, s.workers[t].left - 1)])
    case WorkerRegister(t) =>
      s.(registry := s.registry + [|s.workers|],
         workers := s.workers[t := Registered(s.workers[t].work, s.workers[t].left, |s.workers|)]
                    + [Unstarted(ByWorker(t))])
    case WorkerStart(t) =>
      s.(workers := s.workers[s.workers[t].child := Getting]
                             [t := Started(s.workers[t].work, s.workers[t].left)])
    case WorkerPutDie(t) =>
      s.(queue := s.queue + [Die], workers := s.workers[t := Calling(s.workers[t].work, s.workers[t].left)])
    case WorkerReturn(t) =>
      s.(workers := s.workers[t := Getting], completed := s.completed + multiset{s.workers[t].work})
  }

  /** `t` is reached from `s` by taking `steps` in order. */
  ghost predicate Run(s: State, steps: seq<Step>, t: State)
    decreases |steps|
  {
    if steps == [] then s == t
    else Enabled(s, steps[0]) && Run(Apply(s, steps[0]), steps[1..], t)
  }

  ghost predicate Reachable(n: nat, t: State) {
    exists steps :: Run(Init(n), steps, t)
  }

  // ---------------------------------------------------------------- counting

  function IsFinished(w: Worker): nat { if w.Finished? then 1 else 0 }

  /** Spawns that have raised numthreads but not registered their thread. */
  function IsCounted(w: Worker): nat { if w.Counted? then 1 else 0 }

  /** A worker that will put one 'die' for a thread it is adding. */
  function Owes(w: Worker): nat { if w.Counted? || w.Registered? || w.Started? then 1 else 0 }

  function IsDie(e: Entry): nat { if e.Die? then 1 else 0 }

  function Dead(s: State): nat { Sum(s.workers, IsFinished) }

  function Owed(s: State): nat { Sum(s.workers, Owes) }

  function Dies(q: seq<Entry>): nat { Sum(q, IsDie) }

  function ToPost(m: Main): nat { if m.Posting? then m.left else 0 }

  /** Threads the constructor still has to register. */
  function ToRegister(m: Main): nat { if m.Spawning? || m.SpawnedOne? then m.left else 0 }

  /** Counts the workers that have taken `w` and not finished running it. */
  function Holds(w: Work): Worker -> nat {
    (x: Worker) => if (x.Calling? || x.Counted? || x.Registered? || x.Started?) && x.work == w then 1 else 0
  }

  function IsTask(w: Work): Entry -> nat {
    (e: Entry) => if e == Task(w) then 1 else 0
  }

  // -------------------------------------------------------------- invariants

  /** Threads popped and found dead so far. */
  function Joined(s: State): nat {
    if BeforeWait(s.main) || s.main.Posting? then 0 else s.main.dead
  }

  function Popped(s: State): nat {
    Joined(s) + if s.main.Inspecting? || s.main.Joining? then 1 else 0
  }

  /** The registry is the registration order with the popped prefix removed. */
  ghost predicate RegistryInOrder(s: State) {
    && Popped(s) + |s.registry| == |s.workers|
    && (forall i :: 0 <= i < |s.registry| ==> s.registry[i] == Popped(s) + i)
    && (s.main.Inspecting? || s.main.Joining? ==> s.main.thread == s.main.dead)
  }

  ghost predicate HeldBy(s: State, t: Thread, starter: Starter) {
    match starter
    case ByMain => s.main.SpawnedOne? && s.main.child == t
    case ByWorker(p) => p < t && p < |s.workers| && s.workers[p].Registered? && s.workers[p].child == t
  }

  /** Whoever holds an unstarted thread was itself registered before it. */
  ghost predicate UnstartedHeld(s: State) {
    && (forall t :: 0 <= t < |s.workers| && s.workers[t].Unstarted? ==> HeldBy(s, t, s.workers[t].starter))
    && (s.main.SpawnedOne? ==> s.main.child < |s.workers| && s.workers[s.main.child] == Unstarted(ByMain))
    && (forall p :: 0 <= p < |s.workers| && s.workers[p].Registered? ==>
          p < s.workers[p].child < |s.workers| && s.workers[s.workers[p].child] == Unstarted(ByWorker(p)))
  }

  ghost predicate PrefixFinished(s: State) {
    forall t :: 0 <= t < Joined(s) && t < |s.workers| ==> s.workers[t].Finished?
  }

  ghost predicate TokensBalance(s: State) {
    && s.initial > 0
    && s.numthreads == |s.workers| + Sum(s.workers, IsCounted) + ToRegister(s.main)
    && s.numthreads >= s.initial + s.early
    && (if BeforeWait(s.main)
        then s.numthreads == s.initial + s.early && Dies(s.queue) + Owed(s) + Dead(s) == s.early
        else s.main.Posting? || s.main.Popping? || s.main.Inspecting? || s.main.Joining? || s.main.Returned?)
    && (!BeforeWait(s.main) ==> Dies(s.queue) + Owed(s) + ToPost(s.main) + Dead(s) == s.numthreads + s.early)
    && (s.main.Posting? ==> s.main.left > 0)
    && (s.main.Spawning? ==> s.main.left > 0)
  }

  /** No worker dies of a token that overtook work: the tokens that can be
      taken before any queued task are all early ones. */
  ghost predicate TasksFirst(s: State) {
    forall i :: 0 <= i < |s.queue| && s.queue[i].Task? ==> Dead(s) + Dies(s.queue[..i]) <= s.early
  }

  /** Where `w` is: waiting in the queue, in a worker's hands, or completed. */
  function CountOf(s: State, w: Work): nat {
    Sum(s.queue, IsTask(w)) + Sum(s.workers, Holds(w)) + s.completed[w]
  }

  /** Every queued piece of work is waiting, in one worker's hands, or completed. */
  ghost predicate WorkConserved(s: State) {
    forall w :: s.queued[w] == CountOf(s, w)
  }

  ghost predicate AllDoneAtReturn(s: State) {
    s.main.Returned? ==> s.main.dead == s.numthreads == |s.workers|
  }

  ghost predicate Shape(s: State) {
    RegistryInOrder(s) && UnstartedHeld(s) && PrefixFinished(s)
  }

  ghost predicate Tokens(s: State) {
    TokensBalance(s) && TasksFirst(s) && AllDoneAtReturn(s)
  }

  ghost predicate Inv(s: State) {
    Shape(s) && Tokens(s) && WorkConserved(s)
  }

  // ------------------------------------------------------------ preservation

  lemma {:induction false} QueueAppend(q: seq<Entry>, e: Entry, dead: nat, early: nat)
    requires forall i :: 0 <= i < |q| && q[i].Task? ==> dead + Dies(q[..i]) <= early
    requires e.Task? ==> dead + Dies(q) <= early
    ensures forall i :: 0 <= i < |q + [e]| && (q + [e])[i].Task? ==> dead + Dies((q + [e])[..i]) <= early
  {
    forall i | 0 <= i < |q + [e]| && (q + [e])[i].Task? ensures dead + Dies((q + [e])[..i]) <= early {
      assert (q + [e])[..i] == q[..i];
      if i == |q| { assert q[..i] == q; }
    }
  }

  lemma {:induction false} QueueTake(q: seq<Entry>, dead: nat, early: nat)
    requires q != []
    requires forall i :: 0 <= i < |q| && q[i].Task? ==> dead + Dies(q[..i]) <= early
    ensures forall i :: 0 <= i < |q[1..]| && q[1..][i].Task? ==> dead + IsDie(q[0]) + Dies(q[1..][..i]) <= early
  {
    forall i | 0 <= i < |q[1..]| && q[1..][i].Task? ensures dead + IsDie(q[0]) + Dies(q[1..][..i]) <= early {
      assert q[..i + 1][1..] == q[1..][..i];
      assert q[i + 1].Task?;
    }
  }

  lemma CountsAfterUpdate(ws: seq<Worker>, t: nat, w: Worker)
    requires t < |ws|
    ensures Sum(ws[t := w], IsFinished) + IsFinished(ws[t]) == Sum(ws, IsFinished) + IsFinished(w)
    ensures Sum(ws[t := w], IsCounted) + IsCounted(ws[t]) == Sum(ws, IsCounted) + IsCounted(w)
    ensures Sum(ws[t := w], Owes) + Owes(ws[t]) == Sum(ws, Owes) + Owes(w)
  {
    SumUpdate(ws, t, w, IsFinished);
    SumUpdate(ws, t, w, IsCounted);
    SumUpdate(ws, t, w, Owes);
  }

  lemma CountsAfterAppend(ws: seq<Worker>, st: Starter)
    ensures Sum(ws + [Unstarted(st)], IsFinished) == Sum(ws, IsFinished)
    ensures Sum(ws + [Unstarted(st)], IsCounted) == Sum(ws, IsCounted)
    ensures Sum(ws + [Unstarted(st)], Owes) == Sum(ws, Owes)
  {
    SumAppend(ws, Unstarted(st), IsFinished);
    SumAppend(ws, Unstarted(st), IsCounted);
    SumAppend(ws, Unstarted(st), Owes);
  }

  /** The thread popped from the registry is never an unstarted one: whoever
      would still have to start it was registered earlier, so it was joined. */
  lemma PoppedIsStarted(s: State)
    requires Shape(s) && s.main.Inspecting?
    ensures s.main.thread < |s.workers| && !s.workers[s.main.thread].Unstarted?
  {
    var t := s.main.thread;
    var w := s.workers[t];
    assert w.Unstarted? ==> HeldBy(s, t, w.starter);
  }

  /** When the registry is found empty, every thread has been joined. */
  lemma EmptyMeansAllDead(s: State)
    requires Inv(s) && s.main.Popping? && s.registry == []
    ensures s.main.dead == s.numthreads == |s.workers| == Dead(s)
  {
    SumAllEqual(s.workers, IsFinished, 1);
    SumAllEqual(s.workers, IsCounted, 0);
  }

  lemma KeepsHolders(s: State, e: Step, t: Thread)
    requires Shape(s) && Enabled(s, e)
    requires t < |Apply(s, e).workers| && Apply(s, e).workers[t].Unstarted?
    ensures HeldBy(Apply(s, e), t, Apply(s, e).workers[t].starter)
  {
    if t < |s.workers| {
      assert s.workers[t].Unstarted? && HeldBy(s, t, s.workers[t].starter);
    }
  }

  lemma KeepsHeldByWorker(s: State, e: Step, p: Thread)
    requires Shape(s) && Enabled(s, e)
    requires p < |Apply(s, e).workers| && Apply(s, e).workers[p].Registered?
    ensures var s' := Apply(s, e);
            p < s'.workers[p].child < |s'.workers| && s'.workers[s'.workers[p].child] == Unstarted(ByWorker(p))
  {
  }

  lemma KeepsHeldByMain(s: State, e: Step)
    requires Shape(s) && Enabled(s, e) && Apply(s, e).main.SpawnedOne?
    ensures var s' := Apply(s, e);
            s'.main.child < |s'.workers| && s'.workers[s'.main.child] == Unstarted(ByMain)
  {
  }

  predicate ByMainThread(e: Step) {
    e.MainRegister? || e.MainStart? || e.MainQueue? || e.MainWait? || e.MainPost? || e.MainPop? || e.MainInspect?
    || e.MainJoin? || e.MainTimeout?
  }

  lemma OrderAfterMain(s: State, e: Step)
    requires RegistryInOrder(s) && Enabled(s, e) && ByMainThread(e)
    ensures RegistryInOrder(Apply(s, e))
  {
  }

  lemma OrderAfterWorker(s: State, e: Step)
    requires RegistryInOrder(s) && Enabled(s, e) && !ByMainThread(e)
    ensures RegistryInOrder(Apply(s, e))
  {
    assert Popped(Apply(s, e)) == Popped(s);
  }

  /** A finished thread stays finished: nobody holds it to start it. */
  lemma FinishedStays(s: State, e: Step, t: Thread)
    requires UnstartedHeld(s) && Enabled(s, e) && t < |s.workers| && s.workers[t].Finished?
    ensures t < |Apply(s, e).workers| && Apply(s, e).workers[t].Finished?
  {
  }

  lemma KeepsFinished(s: State, e: Step)
    requires Shape(s) && Enabled(s, e)
    ensures PrefixFinished(Apply(s, e))
  {
    var s' := Apply(s, e);
    if e.MainInspect? {
      PoppedIsStarted(s);
    }
    forall t | 0 <= t < Joined(s') && t < |s'.workers| ensures s'.workers[t].Finished? {
      if t < |s.workers| && s.workers[t].Finished? {
        FinishedStays(s, e, t);
      }
    }
  }

  lemma KeepsShape(s: State, e: Step)
    requires Shape(s) && Enabled(s, e)
    ensures Shape(Apply(s, e))
  {
    var s' := Apply(s, e);
    if ByMainThread(e) { OrderAfterMain(s, e); } else { OrderAfterWorker(s, e); }
    KeepsFinished(s, e);
    if s'.main.SpawnedOne? { KeepsHeldByMain(s, e); }
    forall p | 0 <= p < |s'.workers| && s'.workers[p].Registered?
      ensures p < s'.workers[p].child < |s'.workers| && s'.workers[s'.workers[p].child] == Unstarted(ByWorker(p))
    {
      KeepsHeldByWorker(s, e, p);
    }
    forall t | 0 <= t < |s'.workers| && s'.workers[t].Unstarted? ensures HeldBy(s', t, s'.workers[t].starter) {
      KeepsHolders(s, e, t);
    }
  }

  lemma TokensAfterRegister(s: State, e: Step)
    requires Inv(s) && Enabled(s, e) && e.MainRegister?
    ensures Tokens(Apply(s, e))
  {
    CountsAfterAppend(s.workers, ByMain);
  }

  lemma TokensAfterMainStart(s: State, e: Step)
    requires Inv(s) && Enabled(s, e) && e.MainStart?
    ensures Tokens(Apply(s, e))
  {
    CountsAfterUpdate(s.workers, s.main.child, Getting);
  }

  lemma TokensAfterPut(s: State, e: Step)
    requires Inv(s) && Enabled(s, e) && (e.MainQueue? || e.MainPost?)
    ensures Tokens(Apply(s, e))
  {
    var x := if e.MainQueue? then Task(e.work) else Die;
    SumAppend(s.queue, x, IsDie);
    QueueAppend(s.queue, x, Dead(s), s.early);
  }

  lemma TokensAfterWait(s: State, e: Step)
    requires Inv(s) && Enabled(s, e)
    requires e.MainWait? || e.MainPop? || e.MainInspect? || e.MainJoin? || e.MainTimeout?
    ensures Tokens(Apply(s, e))
  {
    if e.MainTimeout? {
      EmptyMeansAllDead(s);
    }
  }

  lemma TokensAfterGet(s: State, e: Step)
    requires Inv(s) && Enabled(s, e) && e.WorkerGet?
    ensures Tokens(Apply(s, e))
  {
    var next := Apply(s, e);
    CountsAfterUpdate(s.workers, e.t, next.workers[e.t]);
    QueueTake(s.queue, Dead(s), s.early);
    assert Dies(s.queue) == IsDie(s.queue[0]) + Dies(next.queue) && Dead(next) == Dead(s) + IsDie(s.queue[0]);
    assert Owed(next) == Owed(s);
  }

  lemma TokensAfterCount(s: State, e: Step)
    requires Inv(s) && Enabled(s, e) && e.WorkerCount?
    ensures Tokens(Apply(s, e))
  {
    CountsAfterUpdate(s.workers, e.t, Counted(s.workers[e.t].work, s.workers[e.t].left - 1));
    SumAtLeast(s.workers, e.t, IsCounted);
  }

  lemma TokensAfterWorkerRegister(s: State, e: Step)
    requires Inv(s) && Enabled(s, e) && e.WorkerRegister?
    ensures Tokens(Apply(s, e))
  {
    var w := Registered(s.workers[e.t].work, s.workers[e.t].left, |s.workers|);
    CountsAfterUpdate(s.workers, e.t, w);
    CountsAfterAppend(s.workers[e.t := w], ByWorker(e.t));
  }

  lemma TokensAfterWorkerStart(s: State, e: Step)
    requires Inv(s) && Enabled(s, e) && e.WorkerStart?
    ensures Tokens(Apply(s, e))
  {
    var w, child := s.workers[e.t], s.workers[e.t].child;
    CountsAfterUpdate(s.workers, child, Getting);
    CountsAfterUpdate(s.workers[child := Getting], e.t, Started(w.work, w.left));
  }

  lemma TokensAfterPutDie(s: State, e: Step)
    requires Inv(s) && Enabled(s, e) && e.WorkerPutDie?
    ensures Tokens(Apply(s, e))
  {
    CountsAfterUpdate(s.workers, e.t, Calling(s.workers[e.t].work, s.workers[e.t].left));
    SumAppend(s.queue, Die, IsDie);
    QueueAppend(s.queue, Die, Dead(s), s.early);
  }

  lemma TokensAfterReturn(s: State, e: Step)
    requires Inv(s) && Enabled(s, e) && e.WorkerReturn?
    ensures Tokens(Apply(s, e))
  {
    CountsAfterUpdate(s.workers, e.t, Getting);
  }

  lemma KeepsTokens(s: State, e: Step)
    requires Inv(s) && Enabled(s, e)
    ensures Tokens(Apply(s, e))
  {
    if e.MainRegister? { TokensAfterRegister(s, e); }
    else if e.MainStart? { TokensAfterMainStart(s, e); }
    else if e.MainQueue? || e.MainPost? { TokensAfterPut(s, e); }
    else if e.WorkerGet? { TokensAfterGet(s, e); }
    else if e.WorkerCount? { TokensAfterCount(s, e); }
    else if e.WorkerRegister? { TokensAfterWorkerRegister(s, e); }
    else if e.WorkerStart? { TokensAfterWorkerStart(s, e); }
    else if e.WorkerPutDie? { TokensAfterPutDie(s, e); }
    else if e.WorkerReturn? { TokensAfterReturn(s, e); }
    else { TokensAfterWait(s, e); }
  }

  lemma KeepsWork(s: State, e: Step)
    requires Shape(s) && WorkConserved(s) && Enabled(s, e)
    ensures WorkConserved(Apply(s, e))
  {
    forall w ensures Apply(s, e).queued[w] == CountOf(Apply(s, e), w) {
      KeepsCountOf(s, e, w);
    }
  }

  lemma KeepsCountSpawning(s: State, e: Step, w: Work)
    requires Shape(s) && Enabled(s, e) && (e.WorkerRegister? || e.WorkerStart?)
    ensures CountOf(Apply(s, e), w) == CountOf(s, w)
  {
    if e.WorkerRegister? {
      var x := Registered(s.workers[e.t].work, s.workers[e.t].left, |s.workers|);
      SumUpdate(s.workers, e.t, x, Holds(w));
      SumAppend(s.workers[e.t := x], Unstarted(ByWorker(e.t)), Holds(w));
    } else {
      SumUpdate(s.workers, s.workers[e.t].child, Getting, Holds(w));
      SumUpdate(s.workers[s.workers[e.t].child := Getting], e.t, Apply(s, e).workers[e.t], Holds(w));
    }
  }

  lemma KeepsCountMain(s: State, e: Step, w: Work)
    requires Shape(s) && Enabled(s, e)
    requires ByMainThread(e)
    ensures CountOf(Apply(s, e), w) - Apply(s, e).queued[w] == CountOf(s, w) - s.queued[w]
  {
    match e
    case MainRegister => SumAppend(s.workers, Unstarted(ByMain), Holds(w));
    case MainStart => SumUpdate(s.workers, s.main.child, Getting, Holds(w));
    case MainQueue(x) => SumAppend(s.queue, Task(x), IsTask(w));
    case MainPost => SumAppend(s.queue, Die, IsTask(w));
    case _ =>
  }

  lemma KeepsCountGet(s: State, e: Step, w: Work)
    requires Enabled(s, e) && (e.WorkerGet? || e.WorkerPutDie?)
    ensures CountOf(Apply(s, e), w) == CountOf(s, w)
  {
    SumUpdate(s.workers, e.t, Apply(s, e).workers[e.t], Holds(w));
    if e.WorkerPutDie? {
      SumAppend(s.queue, Die, IsTask(w));
    }
  }

  lemma KeepsCountCalling(s: State, e: Step, w: Work)
    requires Enabled(s, e) && (e.WorkerCount? || e.WorkerReturn?)
    ensures CountOf(Apply(s, e), w) == CountOf(s, w)
  {
    SumUpdate(s.workers, e.t, Apply(s, e).workers[e.t], Holds(w));
  }

  lemma KeepsCountOf(s: State, e: Step, w: Work)
    requires Shape(s) && Enabled(s, e)
    ensures CountOf(Apply(s, e), w) - Apply(s, e).queued[w] == CountOf(s, w) - s.queued[w]
  {
    if e.WorkerGet? || e.WorkerPutDie? { KeepsCountGet(s, e, w); }
    else if e.WorkerCount? || e.WorkerReturn? { KeepsCountCalling(s, e, w); }
    else if e.WorkerRegister? || e.WorkerStart? { KeepsCountSpawning(s, e, w); }
    else { KeepsCountMain(s, e, w); }
  }

  lemma KeepsInv(s: State, e: Step)
    requires Inv(s) && Enabled(s, e)
    ensures Inv(Apply(s, e))
  {
    KeepsShape(s, e);
    KeepsTokens(s, e);
    KeepsWork(s, e);
  }

  lemma {:induction false} RunKeepsInv(s: State, steps: seq<Step>, t: State)
    requires Inv(s) && Run(s, steps, t)
    ensures Inv(t)
    decreases |steps|
  {
    if steps != [] {
      KeepsInv(s, steps[0]);
      RunKeepsInv(Apply(s, steps[0]), steps[1..], t);
    }
  }

  lemma ReachableInv(n: nat, s: State)
    requires n > 0 && Reachable(n, s)
    ensures Inv(s)
  {
    var steps :| Run(Init(n), steps, s);
    RunKeepsInv(Init(n), steps, s);
  }

  // ------------------------------------------------------------ main results

  /** Registered threads that have not finished. */
  function Live(s: State): int {
    |s.workers| - Dead(s)
  }

  function OwesRegistered(w: Worker): nat {
    if w.Registered? || w.Started? then 1 else 0
  }

  lemma {:induction false} OwedSplits(ws: seq<Worker>)
    ensures Sum(ws, Owes) == Sum(ws, IsCounted) + Sum(ws, OwesRegistered)
  {
    if ws != [] {
      OwedSplits(ws[1..]);
    }
  }

  /** Once wait has looked at numthreads, the tokens in the queue, those wait
      still has to put and those owed for threads already registered are, in
      every interleaving, exactly one for each live thread, and one more for
      each spawn that happened before wait. */
  lemma TokensEqualLiveThreads(n: nat, s: State)
    requires n > 0 && Reachable(n, s) && !BeforeWait(s.main)
    ensures Dies(s.queue) + ToPost(s.main) + Sum(s.workers, OwesRegistered) == Live(s) + s.early
  {
    ReachableInv(n, s);
    OwedSplits(s.workers);
  }

  /** Any thread wait inspects has been started, so "not alive" means finished. */
  lemma NotAliveMeansFinished(n: nat, s: State)
    requires n > 0 && Reachable(n, s) && s.main.Inspecting?
    ensures s.main.thread < |s.workers|
    ensures !IsAlive(s.workers[s.main.thread]) <==> s.workers[s.main.thread].Finished?
  {
    ReachableInv(n, s);
    PoppedIsStarted(s);
  }

  lemma AssertNeverFails(n: nat, s: State)
    requires n > 0 && Reachable(n, s)
    ensures !s.main.AssertFailed?
  {
    ReachableInv(n, s);
  }

  /** When wait returns no worker is live, every piece of work queued before it
      has been run to its end exactly as often as it was queued, and the queue
      holds nothing but the surplus tokens of early spawns. */
  lemma WaitReturnsWithAllWorkDone(n: nat, s: State)
    requires n > 0 && Reachable(n, s) && s.main.Returned?
    ensures forall t :: 0 <= t < |s.workers| ==> s.workers[t].Finished?
    ensures s.main.dead == s.numthreads == |s.workers|
    ensures s.completed == s.queued
    ensures |s.queue| == s.early && forall i :: 0 <= i < |s.queue| ==> s.queue[i].Die?
  {
    ReachableInv(n, s);
    SumAllEqual(s.workers, Owes, 0);
    SumAllEqual(s.workers, IsFinished, 1);
    forall i | 0 <= i < |s.queue| ensures s.queue[i].Die? {
      assert s.queue[i].Task? ==> Dead(s) + Dies(s.queue[..i]) <= s.early;
    }
    SumAllEqual(s.queue, IsDie, 1);
    forall w ensures s.queued[w] == s.completed[w] {
      SumAllEqual(s.queue, IsTask(w), 0);
      SumAllEqual(s.workers, Holds(w), 0);
    }
  }

  // ------------------------------------------------------ counting the threads

  /** The threads that the given work adds in all. */
  ghost function Total(ms: multiset<Work>): nat
    decreases |ms|
  {
    if ms == multiset{} then 0
    else
      var w :| w in ms;
      w.spawns + Total(ms - multiset{w})
  }

  lemma {:induction false} TotalWithout(ms: multiset<Work>, w: Work)
    requires w in ms
    ensures Total(ms) == w.spawns + Total(ms - multiset{w})
    decreases |ms|
  {
    var x :| x in ms && Total(ms) == x.spawns + Total(ms - multiset{x});
    if x != w {
      TotalWithout(ms - multiset{x}, w);
      TotalWithout(ms - multiset{w}, x);
      SameRest(ms, x, w);
    }
  }

  lemma SameRest(ms: multiset<Work>, x: Work, w: Work)
    ensures ms - multiset{x} - multiset{w} == ms - multiset{w} - multiset{x}
  {
  }

  lemma TotalMore(ms: multiset<Work>, w: Work)
    ensures Total(ms + multiset{w}) == Total(ms) + w.spawns
  {
    TotalWithout(ms + multiset{w}, w);
    assert ms + multiset{w} - multiset{w} == ms;
  }

  function SpawnsOf(e: Entry): nat { if e.Task? then e.work.spawns else 0 }

  function LeftToSpawn(w: Worker): nat {
    match w
    case Calling(_, left) => left
    case Counted(_, left) => left
    case Registered(_, left, _) => left
    case Started(_, left) => left
    case _ => 0
  }

  /** The threads counted and those that work still to be done will add. */
  function Promised(s: State): nat {
    s.numthreads + Sum(s.queue, SpawnsOf) + Sum(s.workers, LeftToSpawn)
  }

  lemma PromisedSpawning(s: State, e: Step)
    requires UnstartedHeld(s) && Enabled(s, e) && (e.WorkerRegister? || e.WorkerStart?)
    ensures Promised(Apply(s, e)) == Promised(s)
  {
    if e.WorkerRegister? {
      var x := Registered(s.workers[e.t].work, s.workers[e.t].left, |s.workers|);
      SumUpdate(s.workers, e.t, x, LeftToSpawn);
      SumAppend(s.workers[e.t := x], Unstarted(ByWorker(e.t)), LeftToSpawn);
    } else {
      SumUpdate(s.workers, s.workers[e.t].child, Getting, LeftToSpawn);
      SumUpdate(s.workers[s.workers[e.t].child := Getting], e.t, Apply(s, e).workers[e.t], LeftToSpawn);
    }
  }

  lemma PromisedWorker(s: State, e: Step)
    requires Enabled(s, e) && (e.WorkerGet? || e.WorkerPutDie? || e.WorkerCount? || e.WorkerReturn?)
    ensures Promised(Apply(s, e)) == Promised(s)
  {
    SumUpdate(s.workers, e.t, Apply(s, e).workers[e.t], LeftToSpawn);
    if e.WorkerPutDie? {
      SumAppend(s.queue, Die, SpawnsOf);
    }
  }

  lemma PromisedMain(s: State, e: Step)
    requires UnstartedHeld(s) && Enabled(s, e) && ByMainThread(e)
    ensures Promised(Apply(s, e)) == Promised(s) + if e.MainQueue? then e.work.spawns else 0
  {
    match e
    case MainRegister => SumAppend(s.workers, Unstarted(ByMain), LeftToSpawn);
    case MainStart => SumUpdate(s.workers, s.main.child, Getting, LeftToSpawn);
    case MainQueue(w) => SumAppend(s.queue, Task(w), SpawnsOf);
    case MainPost => SumAppend(s.queue, Die, SpawnsOf);
    case _ =>
  }

  /** A step promises new threads only by queueing work. */
  lemma KeepsPromised(s: State, e: Step)
    requires UnstartedHeld(s) && Enabled(s, e)
    ensures Promised(Apply(s, e)) - Total(Apply(s, e).queued) == Promised(s) - Total(s.queued)
  {
    if e.MainQueue? {
      TotalMore(s.queued, e.work);
    }
    if ByMainThread(e) { PromisedMain(s, e); }
    else if e.WorkerRegister? || e.WorkerStart? { PromisedSpawning(s, e); }
    else { PromisedWorker(s, e); }
  }

  lemma {:induction false} RunKeepsPromised(s: State, steps: seq<Step>, t: State)
    requires Inv(s) && Run(s, steps, t)
    ensures Promised(t) - Total(t.queued) == Promised(s) - Total(s.queued)
    decreases |steps|
  {
    if steps != [] {
      KeepsPromised(s, steps[0]);
      KeepsInv(s, steps[0]);
      RunKeepsPromised(Apply(s, steps[0]), steps[1..], t);
    }
  }

  /** In every interleaving the threads counted, and those still to be added by
      work in the queue and in the hands of workers, are the `n` asked for and
      those that the work queued so far adds. */
  lemma ThreadsPromised(n: nat, s: State)
    requires n > 0 && Reachable(n, s)
    ensures s.numthreads + Sum(s.queue, SpawnsOf) + Sum(s.workers, LeftToSpawn) == n + Total(s.queued)
  {
    var steps :| Run(Init(n), steps, s);
    RunKeepsPromised(Init(n), steps, s);
  }

  /** wait returns after joining the `n` threads asked for and one for each that
      the work has added. */
  lemma WaitJoinsAllThreads(n: nat, s: State)
    requires n > 0 && Reachable(n, s) && s.main.Returned?
    ensures s.main.dead == n + Total(s.queued)
  {
    WaitReturnsWithAllWorkDone(n, s);
    ThreadsPromised(n, s);
    SumAllEqual(s.queue, SpawnsOf, 0);
    SumAllEqual(s.workers, LeftToSpawn, 0);
  }

  // ------------------------------------------------- progress and termination

  /** After wait has looked at numthreads and until it returns, some step is
      always possible: the pool cannot deadlock while wait is blocked. */
  lemma SomeStepEnabled(s: State) returns (e: Step)
    requires Inv(s) && !BeforeWait(s.main) && !s.main.Returned?
    ensures Enabled(s, e)
  {
    match s.main
    case Posting(_) => e := MainPost;
    case Popping(_) => e := if s.registry == [] then MainTimeout else MainPop;
    case Inspecting(_, _) => e := MainInspect;
    case Joining(_, t) =>
      PoppedHasMoved(s);
      if s.workers[t].Finished? {
        e := MainJoin;
      } else if s.workers[t].Getting? {
        e := StepForBlockedWorker(s, t);
      } else {
        e := StepOf(s, t);
      }
  }

  /** The step of a worker that is not waiting for the queue. */
  function StepOf(s: State, t: Thread): (e: Step)
    requires UnstartedHeld(s) && t < |s.workers|
    requires var w := s.workers[t]; w.Calling? || w.Counted? || w.Registered? || w.Started?
    ensures Enabled(s, e)
  {
    match s.workers[t]
    case Calling(_, left) => if left == 0 then WorkerReturn(t) else WorkerCount(t)
    case Counted(_, _) => WorkerRegister(t)
    case Registered(_, _, _) => WorkerStart(t)
    case Started(_, _) => WorkerPutDie(t)
  }

  lemma PoppedHasMoved(s: State)
    requires Shape(s) && s.main.Joining?
    ensures s.main.thread < |s.workers| && !s.workers[s.main.thread].Unstarted?
  {
    var w := s.workers[s.main.thread];
    assert w.Unstarted? ==> HeldBy(s, s.main.thread, w.starter);
  }

  /** A worker blocked at an empty queue is owed a token by some other worker. */
  lemma StepForBlockedWorker(s: State, t: Thread) returns (e: Step)
    requires Inv(s) && s.main.Joining? && t < |s.workers| && s.workers[t].Getting?
    ensures Enabled(s, e)
  {
    if s.queue != [] {
      e := WorkerGet(t);
    } else {
      SumUpdate(s.workers, t, Finished, IsFinished);
      DeadAtMost(s.workers[t := Finished]);
      var p := SumWitness(s.workers, Owes);
      e := StepOf(s, p);
    }
  }

  lemma {:induction false} DeadAtMost(ws: seq<Worker>)
    ensures Sum(ws, IsFinished) <= |ws|
  {
    if ws != [] {
      DeadAtMost(ws[1..]);
    }
  }

  function EntryCost(e: Entry): nat {
    match e
    case Die => 1
    case Task(w) => 2 + 10 * w.spawns
  }

  function WorkerCost(w: Worker): nat {
    match w
    case Unstarted(_) => 2
    case Getting => 1
    case Calling(_, left) => 2 + 10 * left
    case Counted(_, left) => 11 + 10 * left
    case Registered(_, left, _) => 4 + 10 * left
    case Started(_, left) => 4 + 10 * left
    case Finished => 0
  }

  function MainCost(m: Main): nat {
    match m
    case Posting(left) => 1 + 2 * left
    case Popping(_) => 1
    case Inspecting(_, _) => 3
    case Joining(_, _) => 2
    case _ => 0
  }

  /** A bound on the steps the pool can still take once wait has begun. */
  function Remaining(s: State): nat {
    Sum(s.queue, EntryCost) + Sum(s.workers, WorkerCost) + 4 * |s.registry| + MainCost(s.main)
  }

  lemma RemainingDecreasesSpawning(s: State, e: Step)
    requires Shape(s) && Enabled(s, e) && (e.WorkerRegister? || e.WorkerStart?)
    ensures Remaining(Apply(s, e)) < Remaining(s)
  {
    if e.WorkerRegister? {
      var x := Registered(s.workers[e.t].work, s.workers[e.t].left, |s.workers|);
      SumUpdate(s.workers, e.t, x, WorkerCost);
      SumAppend(s.workers[e.t := x], Unstarted(ByWorker(e.t)), WorkerCost);
    } else {
      SumUpdate(s.workers, s.workers[e.t].child, Getting, WorkerCost);
      SumUpdate(s.workers[s.workers[e.t].child := Getting], e.t, Apply(s, e).workers[e.t], WorkerCost);
    }
  }

  lemma RemainingDecreasesMain(s: State, e: Step)
    requires Inv(s) && Enabled(s, e) && !BeforeWait(s.main)
    requires e.MainPost? || e.MainPop? || e.MainInspect? || e.MainJoin? || e.MainTimeout?
    ensures Remaining(Apply(s, e)) < Remaining(s)
  {
    if e.MainPost? {
      SumAppend(s.queue, Die, EntryCost);
    }
  }

  lemma RemainingDecreasesQueue(s: State, e: Step)
    requires Enabled(s, e) && (e.WorkerGet? || e.WorkerPutDie?)
    ensures Remaining(Apply(s, e)) < Remaining(s)
  {
    SumUpdate(s.workers, e.t, Apply(s, e).workers[e.t], WorkerCost);
    if e.WorkerPutDie? {
      SumAppend(s.queue, Die, EntryCost);
    }
  }

  lemma RemainingDecreasesCalling(s: State, e: Step)
    requires Enabled(s, e) && (e.WorkerCount? || e.WorkerReturn?)
    ensures Remaining(Apply(s, e)) < Remaining(s)
  {
    SumUpdate(s.workers, e.t, Apply(s, e).workers[e.t], WorkerCost);
  }

  lemma RemainingDecreases(s: State, e: Step)
    requires Inv(s) && Enabled(s, e) && !BeforeWait(s.main)
    ensures Remaining(Apply(s, e)) < Remaining(s) && !BeforeWait(Apply(s, e).main)
  {
    if e.WorkerGet? || e.WorkerPutDie? { RemainingDecreasesQueue(s, e); }
    else if e.WorkerCount? || e.WorkerReturn? { RemainingDecreasesCalling(s, e); }
    else if e.WorkerRegister? || e.WorkerStart? { RemainingDecreasesSpawning(s, e); }
    else { RemainingDecreasesMain(s, e); }
  }

  lemma {:induction false} RunShrinks(s: State, steps: seq<Step>, t: State)
    requires Inv(s) && !BeforeWait(s.main) && Run(s, steps, t)
    ensures |steps| + Remaining(t) <= Remaining(s) && !BeforeWait(t.main)
    decreases |steps|
  {
    if steps != [] {
      KeepsInv(s, steps[0]);
      RemainingDecreases(s, steps[0]);
      RunShrinks(Apply(s, steps[0]), steps[1..], t);
    }
  }

  /** wait terminates under every schedule: from any reachable state inside it,
      no run is longer than the bound of that state, and a run that cannot be
      continued has wait returned with no live worker and all work done. */
  lemma WaitAlwaysReturns(n: nat, s: State, steps: seq<Step>, t: State)
    requires n > 0 && Reachable(n, s) && !BeforeWait(s.main) && Run(s, steps, t)
    ensures |steps| <= Remaining(s)
    ensures (forall e :: !Enabled(t, e)) ==> t.main.Returned? && t.completed == t.queued && Live(t) == 0
  {
    ReachableInv(n, s);
    RunShrinks(s, steps, t);
    if forall e :: !Enabled(t, e) {
      RunKeepsInv(s, steps, t);
      if !t.main.Returned? {
        var e := SomeStepEnabled(t);
      }
      ReachableExtends(n, s, steps, t);
      WaitReturnsWithAllWorkDone(n, t);
      SumAllEqual(t.workers, IsFinished, 1);
    }
  }

  lemma ReachableExtends(n: nat, s: State, steps: seq<Step>, t: State)
    requires Reachable(n, s) && Run(s, steps, t)
    ensures Reachable(n, t)
  {
    var before :| Run(Init(n), before, s);
    RunConcat(Init(n), before, s, steps, t);
  }

  lemma {:induction false} RunConcat(r: State, before: seq<Step>, s: State, steps: seq<Step>, t: State)
    requires Run(r, before, s) && Run(s, steps, t)
    ensures Run(r, before + steps, t)
    decreases |before|
  {
    if before == [] {
      assert before + steps == steps;
    } else {
      assert (before + steps)[1..] == before[1..] + steps;
      RunConcat(Apply(r, before[0]), before[1..], s, steps, t);
    }
  }
}
