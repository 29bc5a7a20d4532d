/** The functions of client/cpuset.py as methods on the cgroup file system they
    change in place. */
module ContainerManager {
  import opened Containers
  import opened ContainerRelease
  import RangeLists

  class CgroupFs {
    const nodeMbytes: nat
    var mems: map<Path, set<nat>>
    var cpus: map<Path, set<nat>>
    var home: map<Task, Path>
    var alive: set<Task>   // the processes that have not exited

    constructor (nodeMbytes: nat, nodes: set<nat>, cores: set<nat>)
      ensures this.nodeMbytes == nodeMbytes && alive == {}
      ensures State() == Tree(map[[] := nodes], map[[] := cores], map[]) && Exclusive(State())
    {
      this.nodeMbytes := nodeMbytes;
      mems, cpus, home, alive := map[[] := nodes], map[[] := cores], map[], {};
    }

    ghost function State(): Tree
      reads this
    {
      Tree(mems, cpus, home)
    }

    // -------------------------------------------------------------- allocation

    /** sorted(list(nodes)) */
    method SortedNodes(nodes: set<nat>) returns (s: seq<nat>)
      ensures RangeLists.StrictlyAscending(s) && (forall n :: n in s <==> n in nodes)
      ensures |s| == |nodes|
    {
      var list, rest := [], nodes;
      while rest != {}
        invariant rest <= nodes && |list| + |rest| == |nodes|
        invariant forall n :: n in nodes <==> n in list || n in rest
        invariant forall i :: 0 <= i < |list| ==> list[i] !in rest
        invariant forall i, j :: 0 <= i < j < |list| ==> list[i] != list[j]
      {
        var n :| n in rest;
        list := list + [n];
        rest := rest - {n};
      }
      s := RangeLists.Ascending(list);
      RangeLists.AscendingStrictly(list);
      RangeLists.Sorting.SortElements(list, RangeLists.AtMost());
      RangeLists.Sorting.SortPermutes(list, RangeLists.AtMost());
    }

    /** The allocator's loop: one node after the other, from the highest down,
        until the request is met or the nodes are used up. */
    method CountNodes(neededKbytes: int, nodes: seq<nat>) returns (nodecnt: nat, kbytes: nat)
      ensures nodecnt <= |nodes| && kbytes == nodecnt * (nodeMbytes * 1024)
      ensures nodecnt > 0 ==> (nodecnt - 1) * (nodeMbytes * 1024) < neededKbytes
      ensures kbytes < neededKbytes ==> nodecnt == |nodes|
    {
      kbytes, nodecnt := 0, 0;
      while kbytes < neededKbytes && nodecnt < |nodes|
        invariant nodecnt <= |nodes| && kbytes == nodecnt * (nodeMbytes * 1024)
        invariant nodecnt > 0 ==> (nodecnt - 1) * (nodeMbytes * 1024) < neededKbytes
      {
        assert (nodecnt + 1) * (nodeMbytes * 1024) == nodecnt * (nodeMbytes * 1024) + nodeMbytes * 1024;
        nodecnt := nodecnt + 1;
        kbytes := kbytes + nodeMbytes * 1024;
      }
    }

    method PickNodes(parent: Path, mbytes: int) returns (g: Grant)
      ensures g == Request(State(), nodeMbytes, parent, mbytes)
    {
      var t := Tree(mems, cpus, home);
      var free := FreeNodes(t, parent);
      var parentMbytes := NodesMbytes(MemNodes(t, parent), nodeMbytes);
      var nodes := SortedNodes(free);
      var nodecnt, kbytes := CountNodes(mbytes * 1024, nodes);
      InKbytes(nodecnt, nodeMbytes, mbytes);
      if kbytes < mbytes * 1024 {
        if mbytes > parentMbytes {
          return ExceedsParent(mbytes, parentMbytes);
        }
        return SiblingsHold((mbytes * 1024 - kbytes) / 1024);
      }
      // nodes[-nodecnt:], which is the whole list when nodecnt is 0
      var picked := if nodecnt == 0 then nodes else nodes[|nodes| - nodecnt..];
      g := Granted(RangeLists.Elements(picked));
      PickedIsHighest(nodes, free, parentMbytes, nodecnt, nodeMbytes, mbytes);
    }

    method CreateContainer(name: Path, mbytes: int, cpuList: Cpus, root: Path) returns (o: Outcome)
      modifies this
      ensures (State(), o) == Create(old(State()), nodeMbytes, name, mbytes, cpuList, root)
      ensures alive == old(alive) && home == old(home)
      ensures !o.Done? ==> mems == old(mems) && cpus == old(cpus)
      ensures o.Done? ==>
                && root + name in mems && mems == old(mems)[root + name := mems[root + name]]
                && root + name in cpus && cpus == old(cpus)[root + name := cpus[root + name]]
                && cpus[root + name] == if cpuList.TheseCpus? then cpuList.cpus else CpusOf(old(State()), root)
    {
      if root !in mems {
        return NoParent(root);
      }
      var use := if cpuList.DefaultCpus? then CpusOf(Tree(mems, cpus, home), root) else cpuList.cpus;
      if use == {} {
        return NoCpus;
      }
      var path := root + name;
      if path in mems {
        return AlreadyExists(path);
      }
      if PatternFails(Tree(mems, cpus, home), Parent(path)) {
        return PatternError(path);
      }
      var g := PickNodes(Parent(path), mbytes);
      if !g.Granted? {
        return Refused(g);
      }
      if Parent(path) !in mems {
        return NoSuchDirectory(path);
      }
      mems := mems[path := g.mems];
      cpus := cpus[path := use];
      o := Done;
    }

    // ----------------------------------------------------------------- release

    method GetTasks(path: Path) returns (tasks: set<Task>)
      ensures tasks == TasksAt(home, path)
      ensures WellFormed(State()) && path !in mems ==> tasks == {}
    {
      tasks := set k | k in home && home[k] == path;
    }

    /** Writes each task to the container's tasks file. A write fails for a task
        that is gone, and that failure is ignored. */
    method MoveTasks(path: Path, tasks: set<Task>)
      modifies this`home
      ensures home == Moved(old(home), tasks * alive, path)
    {
      var rest := tasks;
      while rest != {}
        invariant rest <= tasks && home == Moved(old(home), (tasks - rest) * alive, path)
      {
        var k :| k in rest;
        if k in alive {
          home := home[k := path];
        }
        rest := rest - {k};
      }
    }

    /** os.rmdir: only a container without children and tasks can be removed. */
    method Rmdir(path: Path) returns (ok: bool)
      modifies this`mems, this`cpus, this`home
      ensures ok <==> path != [] && Childless(old(State()), path) && TasksAt(old(home), path) * alive == {}
      ensures State() == if ok then Drop(old(State()), {path}, alive) else old(State())
    {
      var children := set c | c in mems && IsChild(c, path);
      var tasks := GetTasks(path);
      ok := path != [] && children == {} && tasks * alive == {};
      assert Childless(State(), path) <==> children == {} by {
        assert forall c :: c in mems && IsChild(c, path) ==> c in children;
      }
      if ok {
        DropOne(State(), path, alive);
        mems := map c | c in mems && c != path :: mems[c];
        cpus := map c | c in cpus && c != path :: cpus[c];
        home := map k | k in home && home[k] != path :: home[k];
      }
    }

    /** A release as its callers see it. */
    method ReleaseContainer(nest: Path, order: Listing) returns (ok: bool)
      requires WellFormed(State()) && IsListing(order)
      modifies this`mems, this`cpus, this`home
      ensures ok ==> State() == Drop(old(State()), Reach(old(State()), nest), alive)
      ensures nest !in old(mems) || (nest != [] && Clean(old(State()), nest)) ==> ok
      ensures Confined(old(State()), State(), Reach(old(State()), nest), alive)
      ensures Exclusive(old(State())) ==> Exclusive(State())
    {
      ReleaseFacts(State(), nest, alive, order);
      ok := ReleaseNest(nest, order);
    }

    /** _release_container_nest: bottom-up, each container after those that its
        pattern finds, each when its tasks have been moved out. */
    method ReleaseNest(nest: Path, order: Listing) returns (ok: bool)
      requires WellFormed(State()) && IsListing(order)
      modifies this`mems, this`cpus, this`home
      ensures (State(), ok) == Release(old(State()), nest, alive, order)
      decreases |Deep(State(), |nest|)|, 0
    {
      ghost var t0 := State();
      if nest !in mems {
        return true;
      }
      if PatternFails(Tree(mems, cpus, home), nest) {
        return false;
      }
      DeeperIsLess(t0, nest);
      var list := order(Tree(mems, cpus, home), nest);
      ok := ReleaseListed(list, |nest| + 1, order);
      if ok {
        NestThere(t0, nest, alive, order);
        ok := RemoveNest(nest);
      }
    }

    /** The loop over what the pattern has found, up to the first that raises. */
    method ReleaseListed(list: seq<Path>, ghost depth: nat, order: Listing) returns (ok: bool)
      requires WellFormed(State()) && IsListing(order) && forall c :: c in list ==> |c| == depth
      modifies this`mems, this`cpus, this`home
      ensures (State(), ok) == ReleaseEach(old(State()), list, depth, alive, order)
      decreases |Deep(State(), depth)|, 2
    {
      ghost var t0 := State();
      assert list[0..] == list;
      var i := 0;
      while i < |list|
        invariant i <= |list| && Going(State(), t0, list, i, depth, alive, order)
      {
        ok := ReleaseNext(t0, list, i, depth, order);
        if !ok {
          return;
        }
        i := i + 1;
      }
      ok := true;
    }

    /** One round of the loop, which started in `t0`. */
    method ReleaseNext(ghost t0: Tree, list: seq<Path>, i: nat, ghost depth: nat, order: Listing) returns (ok: bool)
      requires IsListing(order) && i < |list| && forall c :: c in list ==> |c| == depth
      requires Going(State(), t0, list, i, depth, alive, order)
      modifies this`mems, this`cpus, this`home
      ensures if ok then Going(State(), t0, list, i + 1, depth, alive, order)
              else (State(), false) == ReleaseEach(t0, list, depth, alive, order)
      decreases |Deep(t0, depth)|, 1
    {
      EachNext(State(), t0, list, i, depth, alive, order);
      ok := ReleaseNest(list[i], order);
    }

    /** The end of _release_container_nest: the survivors move to the parent and
        the container is removed, if that is possible. */
    method RemoveNest(nest: Path) returns (ok: bool)
      requires nest in mems
      modifies this`mems, this`cpus, this`home
      ensures (State(), ok) == Finish(old(State()), nest, alive)
    {
      NestEmptied(State(), nest, alive);
      var tasks := GetTasks(nest);
      MoveTasks(Parent(nest), tasks);
      ok := true;
      if nest in mems {
        ok := Rmdir(nest);
      }
    }
  }

  lemma ReleaseFacts(t: Tree, nest: Path, alive: set<Task>, order: Listing)
    requires WellFormed(t) && IsListing(order)
    ensures var (t1, ok) := Release(t, nest, alive, order);
            && (ok ==> t1 == Drop(t, Reach(t, nest), alive))
            && (nest !in t.mems || (nest != [] && Clean(t, nest)) ==> ok)
            && Confined(t, t1, Reach(t, nest), alive)
            && (Exclusive(t) ==> Exclusive(t1))
  {
    FinishedRelease(t, nest, alive, order);
    if nest != [] && Clean(t, nest) {
      CleanFinishes(t, nest, alive, order);
    }
    ReleaseConfined(t, nest, alive, order);
    ExclusiveStays(t, Release(t, nest, alive, order).0, Reach(t, nest), alive);
  }

  /** What is left of the list has the effect that is left. */
  ghost predicate Going(t: Tree, t0: Tree, list: seq<Path>, i: nat, depth: nat, alive: set<Task>, order: Listing)
    requires IsListing(order) && i <= |list| && forall c :: c in list ==> |c| == depth
  {
    && WellFormed(t) && Within(t, t0)
    && ReleaseEach(t, list[i..], depth, alive, order) == ReleaseEach(t0, list, depth, alive, order)
  }

  lemma EachNext(t: Tree, t0: Tree, list: seq<Path>, i: nat, depth: nat, alive: set<Task>, order: Listing)
    requires WellFormed(t) && Within(t, t0)
    requires IsListing(order) && i < |list| && forall c :: c in list ==> |c| == depth
    ensures var (t1, ok) := Release(t, list[i], alive, order);
            && WellFormed(t1) && Within(t1, t0)
            && ReleaseEach(t, list[i..], depth, alive, order)
               == if ok then ReleaseEach(t1, list[i + 1..], depth, alive, order) else (t1, false)
    ensures |Deep(t, depth)| <= |Deep(t0, depth)|
  {
    assert list[i..][0] == list[i] && list[i..][1..] == list[i + 1..];
    DeepWithin(t, t0, depth);
    FinishedRelease(t, list[i], alive, order);
  }

  /** The nest is still there when what is below it has been released. */
  lemma NestThere(t: Tree, nest: Path, alive: set<Task>, order: Listing)
    requires WellFormed(t) && IsListing(order) && nest in t.mems
    ensures var (t1, ok) := ReleaseEach(t, order(t, nest), |nest| + 1, alive, order);
            ok ==> nest in t1.mems
  {
    FinishedEach(t, order(t, nest), |nest| + 1, alive, order);
    NestKept(t, nest, order(t, nest));
  }

  /** Removing one container in which no task lives. */
  lemma DropOne(t: Tree, path: Path, alive: set<Task>)
    requires path != [] && TasksAt(t.home, path) * alive == {}
    ensures var r := Drop(t, {path}, alive);
            && r.mems == (map c | c in t.mems && c != path :: t.mems[c])
            && r.cpus == (map c | c in t.cpus && c != path :: t.cpus[c])
            && r.home == (map k | k in t.home && t.home[k] != path :: t.home[k])
  {
    LandingOne(path);
    forall k | k in t.home && t.home[k] == path ensures k !in alive {
      assert k in alive ==> k in TasksAt(t.home, path) * alive;
    }
  }

  /** After the survivors have moved, no task lives in a container that can go. */
  lemma NestEmptied(t: Tree, nest: Path, alive: set<Task>)
    ensures nest != [] ==> TasksAt(Moved(t.home, TasksAt(t.home, nest) * alive, Parent(nest)), nest) * alive == {}
    ensures forall h :: Childless(t.(home := h), nest) <==> Childless(t, nest)
  {
    assert nest != [] ==> Parent(nest) != nest;
  }

  lemma InKbytes(k: nat, nodeMbytes: nat, mbytes: int)
    ensures k * (nodeMbytes * 1024) == (k * nodeMbytes) * 1024
    ensures (mbytes * 1024 - k * (nodeMbytes * 1024)) / 1024 == mbytes - k * nodeMbytes
  {
    assert mbytes * 1024 - (k * nodeMbytes) * 1024 == (mbytes - k * nodeMbytes) * 1024;
  }

  lemma PickedIsHighest(nodes: seq<nat>, free: set<nat>, parentMbytes: nat, k: nat, nodeMbytes: nat, mbytes: int)
    requires RangeLists.StrictlyAscending(nodes) && |nodes| == |free| && (forall n :: n in nodes <==> n in free)
    requires k <= |nodes| && mbytes * 1024 <= k * (nodeMbytes * 1024)
    requires k > 0 ==> (k - 1) * (nodeMbytes * 1024) < mbytes * 1024
    ensures Allocate(free, parentMbytes, nodeMbytes, mbytes)
            == Granted(RangeLists.Elements(if k == 0 then nodes else nodes[|nodes| - k..]))
  {
    if k == 0 {
      assert RangeLists.Elements(nodes) == free;
    } else {
      LoopCount(k, nodeMbytes, mbytes);
      LastAreHighest(nodes, free, k);
      InKbytes(k, nodeMbytes, mbytes);
      MulMonotone(k, |nodes|, nodeMbytes);
    }
  }

  /** The number of nodes the loop stops at is the request rounded up. */
  lemma LoopCount(k: nat, nodeMbytes: nat, mbytes: int)
    requires k > 0
    requires (k - 1) * (nodeMbytes * 1024) < mbytes * 1024 <= k * (nodeMbytes * 1024)
    ensures nodeMbytes > 0 && mbytes > 0 && CeilDiv(mbytes, nodeMbytes) == k
  {
    assert k * (nodeMbytes * 1024) == (k * nodeMbytes) * 1024;
    assert (k - 1) * (nodeMbytes * 1024) == ((k - 1) * nodeMbytes) * 1024;
    assert (k - 1) * nodeMbytes >= 0;
    CeilDivLeast(mbytes, nodeMbytes, k);
    CeilDivLeast(mbytes, nodeMbytes, k - 1);
  }

  /** The last k of the ascending free nodes are the k highest. */
  lemma LastAreHighest(nodes: seq<nat>, free: set<nat>, k: nat)
    requires RangeLists.StrictlyAscending(nodes) && |nodes| == |free| && (forall n :: n in nodes <==> n in free)
    requires k <= |nodes|
    ensures RangeLists.Elements(nodes[|nodes| - k..]) == Highest(free, k)
  {
    forall i | 0 <= i < |nodes| ensures |Above(free, nodes[i])| == |nodes| - 1 - i {
      AboveCount(nodes, free, i);
    }
    forall n | n in free ensures n in nodes[|nodes| - k..] <==> n in Highest(free, k) {
      var i :| 0 <= i < |nodes| && nodes[i] == n;
      if i >= |nodes| - k {
        assert nodes[|nodes| - k..][i - (|nodes| - k)] == n;
      } else {
        forall j | |nodes| - k <= j < |nodes| ensures nodes[j] != n {
        }
      }
    }
  }

  lemma {:induction false} AboveCount(nodes: seq<nat>, free: set<nat>, i: nat)
    requires RangeLists.StrictlyAscending(nodes) && (forall n :: n in nodes <==> n in free) && i < |nodes|
    ensures |Above(free, nodes[i])| == |nodes| - 1 - i
    decreases |nodes| - i
  {
    if i == |nodes| - 1 {
      assert Above(free, nodes[i]) == {};
    } else {
      AboveCount(nodes, free, i + 1);
      var x := nodes[i + 1];
      forall m | m in Above(free, nodes[i]) ensures m == x || m in Above(free, x) {
        var j :| 0 <= j < |nodes| && nodes[j] == m;
        assert j > i;
      }
      assert Above(free, nodes[i]) == Above(free, x) + {x};
    }
  }
}
