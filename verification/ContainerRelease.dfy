/** Releasing a nest of containers: what a release gets to, when it finishes, and
    what it changes if it does not. */
module ContainerRelease {
  import opened Globbing
  import opened Sets
  import opened Containers

  /** The order in which a pattern's finds are listed. */
  type Listing = (Tree, Path) -> seq<Path>

  ghost predicate IsListing(order: Listing) {
    forall t: Tree, p: Path, c: Path :: c in order(t, p) <==> c in Found(t, p)
  }

  function TasksAt(home: map<Task, Path>, path: Path): set<Task> {
    set k | k in home && home[k] == path
  }

  /** The tasks `ks` put into `path`, out of wherever they were. */
  function Moved(home: map<Task, Path>, ks: set<Task>, path: Path): map<Task, Path> {
    map k | k in home.Keys + ks :: if k in ks then path else home[k]
  }

  ghost predicate Childless(t: Tree, path: Path) {
    forall c :: c in t.mems ==> !IsChild(c, path)
  }

  // --------------------------------------------------------- the effect wanted

  /** The nearest ancestor that is not in `gone`. */
  function Landing(p: Path, gone: set<Path>): Path
    decreases |p|
  {
    if p in gone && p != [] then Landing(Parent(p), gone) else p
  }

  /** The tree without the containers in `gone`: their living tasks are in the
      nearest ancestors that are left, their dead ones are forgotten. */
  function Drop(t: Tree, gone: set<Path>, alive: set<Task>): Tree {
    Tree(map c | c in t.mems && c !in gone :: t.mems[c],
         map c | c in t.cpus && c !in gone :: t.cpus[c],
         map k | k in t.home && (t.home[k] !in gone || k in alive) :: Landing(t.home[k], gone))
  }

  /** With a container goes all that is below it. */
  ghost predicate ClosedBelow(t: Tree, gone: set<Path>) {
    forall c :: c in t.mems && c != [] && Parent(c) in gone ==> c in gone
  }

  lemma {:induction false} LandingMore(t: Tree, p: Path, a: set<Path>, b: set<Path>)
    requires WellFormed(t) && ClosedBelow(t, a) && p in t.mems
    ensures Landing(Landing(p, a), b) == Landing(p, a + b)
    decreases |p|
  {
    if p != [] && p in a + b {
      LandingMore(t, Parent(p), a, b);
      if p !in a {
        assert Parent(p) !in a;
      }
    }
  }

  lemma DropMore(t: Tree, a: set<Path>, b: set<Path>, alive: set<Task>)
    requires WellFormed(t) && ClosedBelow(t, a) && [] !in a && [] !in b
    ensures Drop(Drop(t, a, alive), b, alive) == Drop(t, a + b, alive)
  {
    forall k | k in t.home ensures Landing(Landing(t.home[k], a), b) == Landing(t.home[k], a + b) {
      LandingMore(t, t.home[k], a, b);
    }
    forall k | k in t.home && t.home[k] !in a ensures Landing(t.home[k], a) == t.home[k] {
    }
    var l, r := Drop(Drop(t, a, alive), b, alive), Drop(t, a + b, alive);
    forall k ensures k in l.home <==> k in r.home {
      if k in t.home && k !in alive && t.home[k] !in a {
        assert Landing(t.home[k], a) == t.home[k];
      }
    }
    assert l.home == r.home;
  }

  // --------------------------------------------------------- what is got to

  /** The release of the nest gets to c: it is found by its own or by another
      path that is got to. */
  ghost predicate Reached(t: Tree, nest: Path, c: Path)
    decreases |c|
  {
    c in t.mems
    && (c == nest
        || (|c| > |nest| && exists d :: d in t.mems && |d| < |c| && FoundBy(d, c) && Reached(t, nest, d)))
  }

  ghost function Reach(t: Tree, nest: Path): set<Path> {
    set c | c in t.mems && Reached(t, nest, c)
  }

  ghost function ReachAll(t: Tree, list: seq<Path>): set<Path> {
    set c | c in t.mems && exists d :: d in list && Reached(t, d, c)
  }

  ghost predicate Within(t1: Tree, t: Tree) {
    t1.mems.Keys <= t.mems.Keys
  }

  lemma {:induction false} ReachedFromNest(t: Tree, nest: Path, c: Path)
    requires Reached(t, nest, c)
    ensures nest in t.mems && |c| >= |nest| && (|c| == |nest| ==> c == nest)
    decreases |c|
  {
    if c != nest {
      var d :| d in t.mems && |d| < |c| && FoundBy(d, c) && Reached(t, nest, d);
      ReachedFromNest(t, nest, d);
    }
  }

  lemma ReachedNext(t: Tree, nest: Path, d: Path, c: Path)
    requires Reached(t, nest, d) && FoundBy(d, c) && c in t.mems
    ensures Reached(t, nest, c)
  {
    ReachedFromNest(t, nest, d);
  }

  lemma {:induction false} ReachedVia(t: Tree, nest: Path, d: Path, c: Path)
    requires Reached(t, nest, d) && Reached(t, d, c)
    ensures Reached(t, nest, c)
    decreases |c|
  {
    if c != d {
      var e :| e in t.mems && |e| < |c| && FoundBy(e, c) && Reached(t, d, e);
      ReachedVia(t, nest, d, e);
      ReachedNext(t, nest, e, c);
    }
  }

  lemma {:induction false} ReachedInLarger(t1: Tree, t: Tree, nest: Path, c: Path)
    requires Within(t1, t) && Reached(t1, nest, c)
    ensures Reached(t, nest, c)
    decreases |c|
  {
    if c != nest {
      var d :| d in t1.mems && |d| < |c| && FoundBy(d, c) && Reached(t1, nest, d);
      ReachedInLarger(t1, t, nest, d);
    }
  }

  /** The first step from the nest to what it gets to. */
  lemma {:induction false} ReachedThrough(t: Tree, nest: Path, c: Path) returns (d: Path)
    requires Reached(t, nest, c) && c != nest
    ensures d in Found(t, nest) && Reached(t, d, c)
    decreases |c|
  {
    var e :| e in t.mems && |e| < |c| && FoundBy(e, c) && Reached(t, nest, e);
    if e == nest {
      d := c;
    } else {
      d := ReachedThrough(t, nest, e);
      ReachedFromNest(t, d, e);
    }
  }

  lemma ReachSplits(t: Tree, nest: Path, list: seq<Path>)
    requires nest in t.mems && forall c :: c in list <==> c in Found(t, nest)
    ensures Reach(t, nest) == ReachAll(t, list) + {nest}
  {
    forall c | c in Reach(t, nest) ensures c in ReachAll(t, list) + {nest} {
      if c != nest {
        var d := ReachedThrough(t, nest, c);
      }
    }
    forall c | c in ReachAll(t, list) ensures c in Reach(t, nest) {
      var d :| d in list && Reached(t, d, c);
      ReachedNext(t, nest, nest, d);
      ReachedVia(t, nest, d, c);
    }
  }

  /** What was got to from a root is closed: from outside it, nothing in it is missing. */
  lemma {:induction false} ReachedOutside(t: Tree, t1: Tree, n: Path, d: Path, c: Path)
    requires t1.mems.Keys == t.mems.Keys - Reach(t, n)
    requires Reached(t, d, c) && c !in Reach(t, n)
    ensures Reached(t1, d, c)
    decreases |c|
  {
    if c != d {
      var e :| e in t.mems && |e| < |c| && FoundBy(e, c) && Reached(t, d, e);
      if e in Reach(t, n) {
        ReachedNext(t, n, e, c);
      }
      ReachedOutside(t, t1, n, d, e);
    }
  }

  lemma ReachAllSplits(t: Tree, t1: Tree, list: seq<Path>)
    requires list != [] && t1.mems.Keys == t.mems.Keys - Reach(t, list[0])
    ensures ReachAll(t, list) == Reach(t, list[0]) + ReachAll(t1, list[1..])
  {
    forall c | c in ReachAll(t, list) ensures c in Reach(t, list[0]) + ReachAll(t1, list[1..]) {
      var d :| d in list && Reached(t, d, c);
      if c !in Reach(t, list[0]) {
        assert d in list[1..];
        ReachedOutside(t, t1, list[0], d, c);
      }
    }
    forall c | c in ReachAll(t1, list[1..]) ensures c in ReachAll(t, list) {
      var d :| d in list[1..] && Reached(t1, d, c);
      ReachedInLarger(t1, t, d, c);
    }
  }

  // ------------------------------------------------- _release_container_nest

  function Deep(t: Tree, depth: nat): set<Path> {
    set c | c in t.mems && |c| >= depth
  }

  lemma DeeperIsLess(t: Tree, nest: Path)
    requires nest in t.mems
    ensures |Deep(t, |nest| + 1)| < |Deep(t, |nest|)|
  {
    ProperSubset(Deep(t, |nest| + 1), Deep(t, |nest|), nest);
  }

  lemma DeepWithin(t1: Tree, t: Tree, depth: nat)
    requires Within(t1, t)
    ensures |Deep(t1, depth)| <= |Deep(t, depth)|
  {
    var a, b := Deep(t1, depth), Deep(t, depth);
    assert b == a + (b - a);
  }

  /** The end of a release: the survivors move to the parent, and the container
      is removed if that is possible. */
  ghost function Finish(t: Tree, nest: Path, alive: set<Task>): (r: (Tree, bool))
    ensures Within(r.0, t)
  {
    var moved := t.(home := Moved(t.home, TasksAt(t.home, nest) * alive, Parent(nest)));
    if nest != [] && Childless(t, nest) then (Drop(moved, {nest}, alive), true) else (moved, false)
  }

  /** The release of a nest, and whether it does not raise. */
  ghost function Release(t: Tree, nest: Path, alive: set<Task>, order: Listing): (r: (Tree, bool))
    requires IsListing(order)
    ensures Within(r.0, t)
    decreases |Deep(t, |nest|)|, 0
  {
    if nest !in t.mems then (t, true)
    else if PatternFails(t, nest) then (t, false)
    else
      DeeperIsLess(t, nest);
      var (t1, ok) := ReleaseEach(t, order(t, nest), |nest| + 1, alive, order);
      if ok then Finish(t1, nest, alive) else (t1, false)
  }

  /** One after the other, up to the first that raises. */
  ghost function ReleaseEach(t: Tree, list: seq<Path>, depth: nat, alive: set<Task>, order: Listing): (r: (Tree, bool))
    requires IsListing(order) && forall c :: c in list ==> |c| == depth
    ensures Within(r.0, t)
    decreases |Deep(t, depth)|, |list|
  {
    if list == [] then (t, true)
    else
      var (t1, ok) := Release(t, list[0], alive, order);
      DeepWithin(t1, t, depth);
      if ok then ReleaseEach(t1, list[1..], depth, alive, order) else (t1, false)
  }

  // ------------------------------------------------------ when it does finish

  lemma FinishDrops(t: Tree, nest: Path, alive: set<Task>)
    requires WellFormed(t) && nest in t.mems
    ensures WellFormed(Finish(t, nest, alive).0)
    ensures Finish(t, nest, alive).1 ==> nest != [] && Finish(t, nest, alive).0 == Drop(t, {nest}, alive)
  {
    var moved := t.(home := Moved(t.home, TasksAt(t.home, nest) * alive, Parent(nest)));
    assert WellFormed(moved);
    if nest != [] && Childless(t, nest) {
      OneDropped(t, nest, alive);
    }
  }

  lemma OneDropped(t: Tree, nest: Path, alive: set<Task>)
    requires WellFormed(t) && nest in t.mems && nest != [] && Childless(t, nest)
    ensures var moved := t.(home := Moved(t.home, TasksAt(t.home, nest) * alive, Parent(nest)));
            Drop(moved, {nest}, alive) == Drop(t, {nest}, alive) && WellFormed(Drop(t, {nest}, alive))
  {
    SurvivorsDropped(t, nest, alive);
    DroppedWellFormed(t, nest, alive);
  }

  lemma SurvivorsDropped(t: Tree, nest: Path, alive: set<Task>)
    requires nest != []
    ensures var moved := t.(home := Moved(t.home, TasksAt(t.home, nest) * alive, Parent(nest)));
            Drop(moved, {nest}, alive) == Drop(t, {nest}, alive)
  {
    LandingOne(nest);
    var moved := t.(home := Moved(t.home, TasksAt(t.home, nest) * alive, Parent(nest)));
    assert Drop(moved, {nest}, alive).home == Drop(t, {nest}, alive).home;
  }

  lemma DroppedWellFormed(t: Tree, nest: Path, alive: set<Task>)
    requires WellFormed(t) && nest in t.mems && nest != [] && Childless(t, nest)
    ensures WellFormed(Drop(t, {nest}, alive))
  {
    LandingOne(nest);
    forall c | c in t.mems && c != [] && c != nest ensures Parent(c) != nest {
      assert !IsChild(c, nest);
    }
  }

  lemma LandingOne(nest: Path)
    requires nest != []
    ensures forall p :: Landing(p, {nest}) == if p == nest then Parent(nest) else p
  {
    assert Parent(nest) != nest;
    assert Landing(Parent(nest), {nest}) == Parent(nest);
  }

  /** A release that finishes has removed exactly what it gets to. */
  lemma {:induction false} FinishedRelease(t: Tree, nest: Path, alive: set<Task>, order: Listing)
    requires WellFormed(t) && IsListing(order)
    ensures var (t1, ok) := Release(t, nest, alive, order);
            WellFormed(t1)
            && (ok ==> [] !in Reach(t, nest) && ClosedBelow(t, Reach(t, nest)) && t1 == Drop(t, Reach(t, nest), alive))
    decreases |Deep(t, |nest|)|, 0
  {
    if nest !in t.mems {
      NothingReached(t, nest);
    } else if !PatternFails(t, nest) {
      DeeperIsLess(t, nest);
      var list := order(t, nest);
      FinishedEach(t, list, |nest| + 1, alive, order);
      var (t2, ok) := ReleaseEach(t, list, |nest| + 1, alive, order);
      if ok {
        NestKept(t, nest, list);
        FinishDrops(t2, nest, alive);
        if Finish(t2, nest, alive).1 {
          ReachSplits(t, nest, list);
          DropMore(t, ReachAll(t, list), {nest}, alive);
          DroppedIsClosed(t, Reach(t, nest), alive);
        }
      }
    }
  }

  lemma NothingReached(t: Tree, nest: Path)
    requires nest !in t.mems
    ensures Reach(t, nest) == {}
  {
    forall c | c in t.mems && Reached(t, nest, c) ensures false {
      ReachedFromNest(t, nest, c);
    }
  }

  /** Deeper releases leave the nest. */
  lemma NestKept(t: Tree, nest: Path, list: seq<Path>)
    requires forall c :: c in list ==> |c| == |nest| + 1
    ensures nest !in ReachAll(t, list)
  {
    forall d | d in list && Reached(t, d, nest) ensures false {
      ReachedFromNest(t, d, nest);
    }
  }

  lemma DroppedIsClosed(t: Tree, gone: set<Path>, alive: set<Task>)
    requires WellFormed(Drop(t, gone, alive))
    ensures ClosedBelow(t, gone)
  {
    var t1 := Drop(t, gone, alive);
    forall c | c in t.mems && c != [] && Parent(c) in gone ensures c in gone {
      assert c !in gone ==> c in t1.mems && Parent(c) in t1.mems;
    }
  }

  lemma {:induction false} FinishedEach(t: Tree, list: seq<Path>, depth: nat, alive: set<Task>, order: Listing)
    requires WellFormed(t) && IsListing(order) && forall c :: c in list ==> |c| == depth
    ensures var (t1, ok) := ReleaseEach(t, list, depth, alive, order);
            WellFormed(t1)
            && (ok ==> [] !in ReachAll(t, list) && ClosedBelow(t, ReachAll(t, list))
                       && t1 == Drop(t, ReachAll(t, list), alive))
    decreases |Deep(t, depth)|, |list|
  {
    if list == [] {
      assert ReachAll(t, list) == {};
    } else {
      FinishedRelease(t, list[0], alive, order);
      var (t1, ok) := Release(t, list[0], alive, order);
      DeepWithin(t1, t, depth);
      if ok {
        FinishedEach(t1, list[1..], depth, alive, order);
        var (t2, ok2) := ReleaseEach(t1, list[1..], depth, alive, order);
        if ok2 {
          ReachAllSplits(t, t1, list);
          DropMore(t, Reach(t, list[0]), ReachAll(t1, list[1..]), alive);
          DroppedIsClosed(t, ReachAll(t, list), alive);
        }
      }
    }
  }

  // ------------------------------------------------- and whether it does finish

  /** Whatever the release gets to has only children that its own pattern finds,
      and patterns that can be read. */
  ghost predicate Clean(t: Tree, nest: Path) {
    forall c :: Reached(t, nest, c) ==> ChildrenFound(t, c)
  }

  ghost predicate ChildrenFound(t: Tree, c: Path) {
    !PatternFails(t, c) && Children(t, c) <= Found(t, c)
  }

  lemma ChildrenFoundInSmaller(t1: Tree, t: Tree, c: Path)
    requires Within(t1, t) && ChildrenFound(t, c)
    ensures ChildrenFound(t1, c)
  {
    forall h | h in Children(t1, c) ensures h in Found(t1, c) {
      assert h in Children(t, c);
    }
    assert PatternFails(t1, c) ==> PatternFails(t, c);
  }

  lemma CleanInSmaller(t1: Tree, t: Tree, nest: Path)
    requires Within(t1, t) && Clean(t, nest)
    ensures Clean(t1, nest)
  {
    forall c | Reached(t1, nest, c) ensures ChildrenFound(t1, c) {
      ReachedInLarger(t1, t, nest, c);
      ChildrenFoundInSmaller(t1, t, c);
    }
  }

  lemma CleanNext(t: Tree, nest: Path, d: Path)
    requires nest in t.mems && Clean(t, nest) && d in Found(t, nest)
    ensures Clean(t, d)
  {
    ReachedNext(t, nest, nest, d);
    forall c | Reached(t, d, c) ensures ChildrenFound(t, c) {
      ReachedVia(t, nest, d, c);
    }
  }

  lemma {:induction false} CleanFinishes(t: Tree, nest: Path, alive: set<Task>, order: Listing)
    requires WellFormed(t) && IsListing(order) && Clean(t, nest) && nest != []
    ensures Release(t, nest, alive, order).1
    decreases |Deep(t, |nest|)|, 0
  {
    if nest in t.mems {
      assert Reached(t, nest, nest) && ChildrenFound(t, nest);
      DeeperIsLess(t, nest);
      var list := order(t, nest);
      forall d | d in list ensures Clean(t, d) {
        CleanNext(t, nest, d);
      }
      CleanEach(t, list, |nest| + 1, alive, order);
      FinishedEach(t, list, |nest| + 1, alive, order);
      var t2 := ReleaseEach(t, list, |nest| + 1, alive, order).0;
      forall c | c in t2.mems ensures !IsChild(c, nest) {
        assert c in Children(t, nest) ==> c in list && Reached(t, c, c);
      }
    }
  }

  lemma {:induction false} CleanEach(t: Tree, list: seq<Path>, depth: nat, alive: set<Task>, order: Listing)
    requires WellFormed(t) && IsListing(order) && depth > 0
    requires forall c :: c in list ==> |c| == depth && Clean(t, c)
    ensures ReleaseEach(t, list, depth, alive, order).1
    decreases |Deep(t, depth)|, |list|
  {
    if list != [] {
      CleanFinishes(t, list[0], alive, order);
      FinishedRelease(t, list[0], alive, order);
      var t1 := Release(t, list[0], alive, order).0;
      DeepWithin(t1, t, depth);
      forall c | c in list[1..] ensures Clean(t1, c) {
        CleanInSmaller(t1, t, c);
      }
      CleanEach(t1, list[1..], depth, alive, order);
    }
  }

  // --------------------------------- a listing under which anything else raises

  /** From the nest to what it gets to, each path found by the one before it. */
  ghost predicate Trail(t: Tree, trail: seq<Path>) {
    && trail != [] && (forall i :: 0 <= i < |trail| ==> trail[i] in t.mems && |trail[i]| == |trail[0]| + i)
    && (forall i :: 0 <= i < |trail| - 1 ==> trail[i + 1] in Found(t, trail[i]))
  }

  lemma {:induction false} TrailTo(t: Tree, nest: Path, c: Path) returns (trail: seq<Path>)
    requires Reached(t, nest, c)
    ensures Trail(t, trail) && trail[0] == nest && trail[|trail| - 1] == c
    decreases |c|
  {
    if c == nest {
      trail := [nest];
    } else {
      var d :| d in t.mems && |d| < |c| && FoundBy(d, c) && Reached(t, nest, d);
      var before := TrailTo(t, nest, d);
      trail := before + [c];
      forall i | 0 <= i < |trail| - 1 ensures trail[i + 1] in Found(t, trail[i]) {
        assert i < |before| - 1 ==> trail[i + 1] == before[i + 1];
      }
    }
  }

  ghost function ListOf(s: set<Path>): (list: seq<Path>)
    ensures forall c :: c in list <==> c in s
  {
    if s == {} then []
    else
      var c :| c in s;
      [c] + ListOf(s - {c})
  }

  /** Lists what is on the trail first. */
  ghost function Along(trail: seq<Path>): Listing
    requires trail != []
  {
    (t: Tree, p: Path) =>
      var i := |p| - |trail[0]| + 1;
      if 0 < i < |trail| && trail[i - 1] == p && trail[i] in Found(t, p) then [trail[i]] + ListOf(Found(t, p))
      else ListOf(Found(t, p))
  }

  /** A child that its parent's pattern does not find is in the way of the
      parent's release, in whatever order things are listed. */
  lemma UnfoundRaises(t: Tree, nest: Path, alive: set<Task>, order: Listing)
    requires WellFormed(t) && IsListing(order) && nest in t.mems && !ChildrenFound(t, nest)
    ensures !Release(t, nest, alive, order).1
  {
    if !PatternFails(t, nest) {
      var list := order(t, nest);
      var h :| h in Children(t, nest) && h !in Found(t, nest);
      FinishedEach(t, list, |nest| + 1, alive, order);
      NotFoundStays(t, nest, list, h);
      assert IsChild(h, nest);
    }
  }

  lemma {:induction false} TrailRaises(t: Tree, trail: seq<Path>, i: nat, alive: set<Task>)
    requires WellFormed(t) && Trail(t, trail) && i < |trail| && !ChildrenFound(t, trail[|trail| - 1])
    requires IsListing(Along(trail))
    ensures !Release(t, trail[i], alive, Along(trail)).1
    decreases |trail| - i
  {
    if i == |trail| - 1 {
      UnfoundRaises(t, trail[i], alive, Along(trail));
    } else {
      assert Along(trail)(t, trail[i])[0] == trail[i + 1];
      TrailRaises(t, trail, i + 1, alive);
    }
  }

  lemma NotFoundStays(t: Tree, nest: Path, list: seq<Path>, h: Path)
    requires IsChild(h, nest) && h !in list && forall c :: c in list ==> |c| == |nest| + 1
    ensures h !in ReachAll(t, list)
  {
    forall d | d in list && Reached(t, d, h) ensures false {
      ReachedFromNest(t, d, h);
    }
  }

  lemma RootRaises(t: Tree, alive: set<Task>, order: Listing)
    requires WellFormed(t) && IsListing(order)
    ensures !Release(t, [], alive, order).1
  {
  }

  ghost predicate AlwaysFinishes(t: Tree, nest: Path, alive: set<Task>) {
    forall order: Listing :: IsListing(order) ==> Release(t, nest, alive, order).1
  }

  /** A release finishes in whatever order things are listed if and only if there
      is nothing to release, or the nest is not the super root and all that the
      release gets to has only children that its own pattern finds. */
  lemma ReleaseFinishesExactly(t: Tree, nest: Path, alive: set<Task>)
    requires WellFormed(t)
    ensures AlwaysFinishes(t, nest, alive) <==> nest !in t.mems || (nest != [] && Clean(t, nest))
  {
    if nest in t.mems && !Clean(t, nest) {
      var c :| Reached(t, nest, c) && !ChildrenFound(t, c);
      var trail := TrailTo(t, nest, c);
      assert IsListing(Along(trail));
      TrailRaises(t, trail, 0, alive);
    }
    if nest == [] {
      assert IsListing(Along([[]]));
      RootRaises(t, alive, Along([[]]));
    }
    if nest != [] && Clean(t, nest) {
      forall order: Listing | IsListing(order) ensures Release(t, nest, alive, order).1 {
        CleanFinishes(t, nest, alive, order);
      }
    }
  }

  // -------------------------------------------- what changes, finished or not

  /** Containers are only removed, and only some of `reach`. */
  ghost predicate OnlyRemoved(m0: map<Path, set<nat>>, m: map<Path, set<nat>>, reach: set<Path>) {
    && (forall c :: c in m ==> c in m0 && m[c] == m0[c])
    && (forall c :: c in m0 && c !in reach ==> c in m)
  }

  /** From p up to q, all that is left behind is in `reach`. */
  ghost predicate WayWithin(p: Path, q: Path, reach: set<Path>) {
    q <= p && forall r :: r <= p && |r| > |q| ==> r in reach
  }

  /** Tasks only leave containers of `reach`, upwards, and only living ones; only
      dead ones may be forgotten. */
  ghost predicate TasksGoUp(h0: map<Task, Path>, h: map<Task, Path>, reach: set<Path>, alive: set<Task>) {
    && (forall k :: k in h ==> k in h0 && WayWithin(h0[k], h[k], reach) && (k in alive || h[k] == h0[k]))
    && (forall k :: k in h0 && (k in alive || h0[k] !in reach) ==> k in h)
  }

  ghost predicate Confined(t0: Tree, t: Tree, reach: set<Path>, alive: set<Task>) {
    && WellFormed(t)
    && OnlyRemoved(t0.mems, t.mems, reach) && OnlyRemoved(t0.cpus, t.cpus, reach)
    && TasksGoUp(t0.home, t.home, reach, alive)
  }

  lemma ConfinedTwice(t0: Tree, t1: Tree, t2: Tree, a: set<Path>, b: set<Path>, alive: set<Task>)
    requires Confined(t0, t1, a, alive) && Confined(t1, t2, b, alive)
    ensures Confined(t0, t2, a + b, alive)
  {
  }

  lemma FinishTasks(t: Tree, nest: Path, alive: set<Task>)
    ensures var h := Finish(t, nest, alive).0.home;
            && (forall k :: k in h ==> k in t.home)
            && (forall k :: k in t.home && (k in alive || t.home[k] != nest) ==> k in h)
            && (forall k :: k in h ==> h[k] == if k in alive && t.home[k] == nest then Parent(nest) else t.home[k])
  {
    if nest != [] {
      LandingOne(nest);
    }
  }

  lemma FinishConfined(t: Tree, nest: Path, alive: set<Task>)
    requires WellFormed(t) && nest in t.mems
    ensures Confined(t, Finish(t, nest, alive).0, {nest}, alive)
  {
    FinishDrops(t, nest, alive);
    FinishTasks(t, nest, alive);
    OneStep(nest);
    forall p: Path ensures WayWithin(p, p, {nest}) {
    }
  }

  lemma OneStep(nest: Path)
    ensures WayWithin(nest, Parent(nest), {nest})
  {
    forall r | r <= nest && |r| > |Parent(nest)| ensures r in {nest} {
      assert r == nest[..|r|] && nest[..|nest|] == nest;
    }
  }

  /** Whether it finishes or not, a release changes nothing but what it gets to,
      and loses no living task. */
  lemma {:induction false} ReleaseConfined(t: Tree, nest: Path, alive: set<Task>, order: Listing)
    requires WellFormed(t) && IsListing(order)
    ensures Confined(t, Release(t, nest, alive, order).0, Reach(t, nest), alive)
    decreases |Deep(t, |nest|)|, 0
  {
    if nest in t.mems && !PatternFails(t, nest) {
      DeeperIsLess(t, nest);
      var list := order(t, nest);
      EachConfined(t, list, |nest| + 1, alive, order);
      ReachSplits(t, nest, list);
      var (t2, ok) := ReleaseEach(t, list, |nest| + 1, alive, order);
      if ok {
        NestKept(t, nest, list);
        FinishConfined(t2, nest, alive);
        ConfinedTwice(t, t2, Finish(t2, nest, alive).0, ReachAll(t, list), {nest}, alive);
      }
    }
  }

  lemma {:induction false} EachConfined(t: Tree, list: seq<Path>, depth: nat, alive: set<Task>, order: Listing)
    requires WellFormed(t) && IsListing(order) && forall c :: c in list ==> |c| == depth
    ensures Confined(t, ReleaseEach(t, list, depth, alive, order).0, ReachAll(t, list), alive)
    decreases |Deep(t, depth)|, |list|
  {
    if list != [] {
      ReleaseConfined(t, list[0], alive, order);
      var (t1, ok) := Release(t, list[0], alive, order);
      assert Reach(t, list[0]) <= ReachAll(t, list);
      if ok {
        DeepWithin(t1, t, depth);
        EachConfined(t1, list[1..], depth, alive, order);
        ReachAllShrinks(t, t1, list);
        var t2 := ReleaseEach(t1, list[1..], depth, alive, order).0;
        ConfinedTwice(t, t1, t2, Reach(t, list[0]), ReachAll(t1, list[1..]), alive);
      }
    }
  }

  lemma ReachAllShrinks(t: Tree, t1: Tree, list: seq<Path>)
    requires list != [] && Within(t1, t)
    ensures ReachAll(t1, list[1..]) <= ReachAll(t, list)
  {
    forall c | c in ReachAll(t1, list[1..]) ensures c in ReachAll(t, list) {
      var d :| d in list[1..] && Reached(t1, d, c);
      ReachedInLarger(t1, t, d, c);
    }
  }

  /** Removing containers keeps nodes exclusive. */
  lemma ExclusiveStays(t0: Tree, t: Tree, reach: set<Path>, alive: set<Task>)
    requires Confined(t0, t, reach, alive)
    ensures Exclusive(t0) ==> Exclusive(t)
    ensures SiblingsDisjoint(t0) ==> SiblingsDisjoint(t)
  {
  }
}
