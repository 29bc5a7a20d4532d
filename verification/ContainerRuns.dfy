/** Releases of containers with plain and with other names, and whole runs of
    creations and releases. */
module ContainerRuns {
  import opened Globbing
  import opened Containers
  import opened ContainerRelease

  // ------------------------------------------------------------- plain names

  /** A container inside the nest, other than the nest, has a hidden name. */
  ghost predicate HiddenBelow(t: Tree, nest: Path) {
    exists c :: c in t.mems && Inside(c, nest) && c != nest && HiddenPath(c)
  }

  ghost predicate PlainBelow(t: Tree, nest: Path) {
    forall c :: c in t.mems && Inside(c, nest) ==> Plain(c)
  }

  lemma {:induction false} BadIsMagic(pat: string)
    requires BadPattern(pat)
    ensures Magic(pat)
    decreases |pat|
  {
    if pat[0] != '[' {
      BadIsMagic(pat[1..]);
    }
  }

  lemma PlainReads(t: Tree, p: Path)
    requires Plain(p)
    ensures !PatternFails(t, p)
  {
    forall i | 0 <= i < |p| ensures !BadPattern(p[i]) {
      if BadPattern(p[i]) {
        BadIsMagic(p[i]);
      }
    }
  }

  /** The release of a plain nest stays inside the nest. */
  lemma {:induction false} PlainStaysInside(t: Tree, nest: Path, c: Path)
    requires Plain(nest) && Reached(t, nest, c)
    ensures Inside(c, nest)
    decreases |c|
  {
    if c != nest {
      var d :| d in t.mems && |d| < |c| && FoundBy(d, c) && Reached(t, nest, d);
      PlainStaysInside(t, nest, d);
      assert d[..|nest|] == nest;
    }
  }

  /** A clean release gets to everything inside the nest. */
  lemma {:induction false} CleanGetsTo(t: Tree, nest: Path, c: Path)
    requires WellFormed(t) && Clean(t, nest) && nest in t.mems && c in t.mems && Inside(c, nest)
    ensures Reached(t, nest, c)
    decreases |c|
  {
    if c != nest {
      assert |c| > |nest|;
      assert Parent(c)[..|nest|] == nest;
      CleanGetsTo(t, nest, Parent(c));
      assert c in Children(t, Parent(c)) && ChildrenFound(t, Parent(c));
      ReachedNext(t, nest, Parent(c), c);
    }
  }

  /** Among plain names a release finishes, in whatever order things are listed,
      if and only if nothing inside the nest is hidden. */
  lemma PlainCleanExactly(t: Tree, nest: Path)
    requires WellFormed(t) && nest in t.mems && PlainBelow(t, nest)
    ensures Clean(t, nest) <==> !HiddenBelow(t, nest)
    ensures Clean(t, nest) ==> Reach(t, nest) == Subtree(t, nest)
  {
    if Clean(t, nest) {
      forall c | c in t.mems && Inside(c, nest) && c != nest ensures !HiddenPath(c) {
        NotHidden(t, nest, c);
      }
      forall c | c in t.mems ensures c in Reach(t, nest) <==> c in Subtree(t, nest) {
        if Inside(c, nest) {
          CleanGetsTo(t, nest, c);
        } else if Reached(t, nest, c) {
          PlainStaysInside(t, nest, c);
        }
      }
    }
    if !HiddenBelow(t, nest) {
      forall c | Reached(t, nest, c) ensures ChildrenFound(t, c) {
        PlainStaysInside(t, nest, c);
        PlainReads(t, c);
        forall h | h in Children(t, c) ensures h in Found(t, c) {
          PlainFinds(c, h);
          assert Inside(h, nest) && h != nest;
        }
      }
    }
  }

  lemma NotHidden(t: Tree, nest: Path, c: Path)
    requires WellFormed(t) && Clean(t, nest) && nest in t.mems && c in t.mems && Inside(c, nest) && c != nest
    ensures !HiddenPath(c)
  {
    assert |c| > |nest|;
    assert Parent(c)[..|nest|] == nest;
    CleanGetsTo(t, nest, Parent(c));
    assert c in Children(t, Parent(c)) && ChildrenFound(t, Parent(c));
  }

  lemma {:induction false} LandsAbove(t: Tree, nest: Path, p: Path)
    requires WellFormed(t) && nest != [] && p in t.mems && Inside(p, nest)
    ensures Landing(p, Subtree(t, nest)) == Parent(nest)
    decreases |p|
  {
    if p == nest {
      assert !Inside(Parent(nest), nest);
    } else {
      assert |p| > |nest|;
      assert Parent(p)[..|nest|] == nest;
      LandsAbove(t, nest, Parent(p));
    }
  }

  /** After the release of a plain nest each of its living tasks is in its parent,
      and every other where it was. */
  lemma ReleaseKeepsTasks(t: Tree, nest: Path, alive: set<Task>, order: Listing, k: Task)
    requires WellFormed(t) && IsListing(order) && nest in t.mems && PlainBelow(t, nest)
    requires k in t.home && k in alive
    ensures var (t1, ok) := Release(t, nest, alive, order);
            ok ==> k in t1.home && t1.home[k] == if Inside(t.home[k], nest) then Parent(nest) else t.home[k]
  {
    var (t1, ok) := Release(t, nest, alive, order);
    if ok {
      FinishedRelease(t, nest, alive, order);
      FinishedIsClean(t, nest, alive, order);
      PlainCleanExactly(t, nest);
      if Inside(t.home[k], nest) {
        LandsAbove(t, nest, t.home[k]);
      }
    }
  }

  /** Among plain names only clean releases finish, so that no order helps. */
  lemma FinishedIsClean(t: Tree, nest: Path, alive: set<Task>, order: Listing)
    requires WellFormed(t) && IsListing(order) && nest in t.mems && PlainBelow(t, nest)
    ensures Release(t, nest, alive, order).1 ==> nest != [] && Clean(t, nest)
  {
    FinishedRelease(t, nest, alive, order);
    PlainCleanExactly(t, nest);
    if nest == [] {
      RootRaises(t, alive, order);
    }
    if Release(t, nest, alive, order).1 && HiddenBelow(t, nest) {
      var c :| c in t.mems && Inside(c, nest) && c != nest && HiddenPath(c);
      EverythingGone(t, nest, c);
    }
  }

  /** What is closed below and has the nest has everything inside it. */
  lemma {:induction false} EverythingGone(t: Tree, nest: Path, c: Path)
    requires WellFormed(t) && nest in t.mems && ClosedBelow(t, Reach(t, nest)) && c in t.mems && Inside(c, nest)
    ensures c in Reach(t, nest)
    decreases |c|
  {
    if c != nest {
      assert |c| > |nest|;
      assert Parent(c)[..|nest|] == nest;
      EverythingGone(t, nest, Parent(c));
    }
  }

  // ------------------------------------------------- names that are patterns

  /** Releasing a container called c* releases the children of another one. */
  lemma StarReachesOthers(t: Tree, x: string, alive: set<Task>, order: Listing)
    requires WellFormed(t) && IsListing(order) && !Hidden(x)
    requires ["c*"] in t.mems && ["cd"] in t.mems && ["cd", x] in t.mems
    ensures var (t1, ok) := Release(t, ["c*"], alive, order);
            ok ==> ["cd"] in t1.mems && ["cd", x] !in t1.mems
  {
    var nest, other, child := ["c*"], ["cd"], ["cd", x];
    assert child[..1] == other;
    assert FoundBy(nest, child);
    ReachedNext(t, nest, nest, child);
    FinishedRelease(t, nest, alive, order);
    if Reached(t, nest, other) {
      ReachedFromNest(t, nest, other);
    }
  }

  /** Releasing a container called a[b] raises if it has a child of any name. */
  lemma BracketsRaise(t: Tree, x: string, alive: set<Task>, order: Listing)
    requires WellFormed(t) && IsListing(order) && ["a[b]"] in t.mems && ["a[b]", x] in t.mems
    ensures !Release(t, ["a[b]"], alive, order).1
  {
    var nest, child := ["a[b]"], ["a[b]", x];
    ClassIsNotItself();
    assert child[..1] == nest;
    assert child in Children(t, nest);
    assert nest[0] == "a[b]" && child[..1][0] == "a[b]" && !Component(nest[0], child[..1][0]);
    assert !FoundBy(nest, child);
    UnfoundRaises(t, nest, alive, order);
  }

  // ------------------------------------------------------------------- any run

  datatype Op =
    | CreateOp(name: Path, mbytes: int, cpus: Cpus, root: Path)
    | ReleaseOp(nest: Path, alive: set<Task>)

  ghost function Perform(t: Tree, nodeMbytes: nat, op: Op, order: Listing): Tree
    requires IsListing(order)
  {
    match op
    case CreateOp(name, mbytes, cpus, root) => Create(t, nodeMbytes, name, mbytes, cpus, root).0
    case ReleaseOp(nest, alive) => Release(t, nest, alive, order).0
  }

  ghost function PerformAll(t: Tree, nodeMbytes: nat, ops: seq<Op>, order: Listing): Tree
    requires IsListing(order)
    decreases |ops|
  {
    if ops == [] then t else PerformAll(Perform(t, nodeMbytes, ops[0], order), nodeMbytes, ops[1..], order)
  }

  /** New containers have visible names, and parents whose paths hold no pattern. */
  predicate RegularOp(op: Op) {
    op.CreateOp? ==> Regular(op.root + op.name)
  }

  /** In every state reached by such creations and by any releases, finished or
      not, children's nodes lie inside their parent's and siblings share none. */
  lemma {:induction false} ReachableExclusive(t: Tree, nodeMbytes: nat, ops: seq<Op>, order: Listing)
    requires Exclusive(t) && IsListing(order) && forall i :: 0 <= i < |ops| ==> RegularOp(ops[i])
    ensures Exclusive(PerformAll(t, nodeMbytes, ops, order))
    decreases |ops|
  {
    if ops != [] {
      match ops[0] {
        case CreateOp(name, mbytes, cpus, root) => CreateKeepsExclusive(t, nodeMbytes, name, mbytes, cpus, root);
        case ReleaseOp(nest, alive) =>
          ReleaseConfined(t, nest, alive, order);
          ExclusiveStays(t, Release(t, nest, alive, order).0, Reach(t, nest), alive);
      }
      ReachableExclusive(Perform(t, nodeMbytes, ops[0], order), nodeMbytes, ops[1..], order);
    }
  }
}
