/** The tree of fake-NUMA containers that client/cpuset.py keeps in the cgroup
    file system, its allocator and its release, as functions on the tree. */
module Containers {
  import opened Globbing

  /** A container's name below the super root, which is the empty path. */
  type Path = seq<string>
  type Task = nat

  datatype Tree = Tree(mems: map<Path, set<nat>>, cpus: map<Path, set<nat>>, home: map<Task, Path>)

  function Parent(p: Path): Path {
    if p == [] then [] else p[..|p| - 1]
  }

  predicate HiddenPath(p: Path) {
    p != [] && Hidden(p[|p| - 1])
  }

  predicate IsChild(c: Path, p: Path) {
    c != [] && Parent(c) == p
  }

  /** What the pattern made of a container's path finds. It is meant to be the
      container's children. */
  function Found(t: Tree, p: Path): set<Path> {
    set c | c in t.mems && FoundBy(p, c)
  }

  function Children(t: Tree, p: Path): set<Path> {
    set c | c in t.mems && IsChild(c, p)
  }

  /** Reading the pattern raises: a component that cannot be compiled is put to
      the names in some directory. */
  predicate PatternFails(t: Tree, p: Path) {
    exists d :: d in t.mems && |d| < |p| && Components(p[..|d|], d) && BadPattern(p[|d|])
  }

  function MemNodes(t: Tree, p: Path): set<nat> {
    if p in t.mems then t.mems[p] else {}
  }

  function NodesOf(t: Tree, cs: set<Path>): set<nat> {
    set c, n | c in cs && c in t.mems && n in t.mems[c] :: n
  }

  function BusyNodes(t: Tree, p: Path): set<nat> {
    NodesOf(t, Found(t, p))
  }

  function FreeNodes(t: Tree, p: Path): set<nat> {
    MemNodes(t, p) - BusyNodes(t, p)
  }

  // -------------------------------------------------------------- invariants

  ghost predicate WellFormed(t: Tree) {
    && [] in t.mems
    && (forall c :: c in t.mems && c != [] ==> Parent(c) in t.mems)
    && (forall k :: k in t.home ==> t.home[k] in t.mems)
  }

  /** Each container can be found: its name is not hidden, and its parent's path
      holds no pattern. */
  ghost predicate AllRegular(t: Tree) {
    forall c :: c in t.mems && c != [] ==> Regular(c)
  }

  predicate Regular(c: Path) {
    !HiddenPath(c) && Plain(Parent(c))
  }

  ghost predicate Nested(t: Tree) {
    forall c :: c in t.mems && c != [] && Parent(c) in t.mems ==> t.mems[c] <= t.mems[Parent(c)]
  }

  ghost predicate SiblingsDisjoint(t: Tree) {
    forall c, d :: c in t.mems && d in t.mems && c != [] && d != [] && c != d && Parent(c) == Parent(d)
      ==> t.mems[c] !! t.mems[d]
  }

  ghost predicate Exclusive(t: Tree) {
    WellFormed(t) && AllRegular(t) && Nested(t) && SiblingsDisjoint(t)
  }

  /** A prefix of a container's path is a container. */
  lemma {:induction false} AncestorIn(t: Tree, c: Path, k: nat)
    requires WellFormed(t) && c in t.mems && k <= |c|
    ensures c[..k] in t.mems
    decreases |c|
  {
    if k == |c| {
      assert c[..k] == c;
    } else {
      AncestorIn(t, Parent(c), k);
      assert Parent(c)[..k] == c[..k];
    }
  }

  /** A prefix of a container's path is a container that holds its nodes. */
  lemma {:induction false} AncestorHolds(t: Tree, c: Path, k: nat)
    requires Exclusive(t) && c in t.mems && k <= |c|
    ensures c[..k] in t.mems && t.mems[c] <= t.mems[c[..k]]
    decreases |c|
  {
    if k == |c| {
      assert c[..k] == c;
    } else {
      AncestorHolds(t, Parent(c), k);
      assert Parent(c)[..k] == c[..k];
    }
  }

  lemma {:induction false} FirstDifference(c: Path, d: Path) returns (k: nat)
    requires !(c <= d) && !(d <= c)
    ensures k < |c| && k < |d| && c[..k] == d[..k] && c[k] != d[k]
  {
    k := 0;
    while k < |c| && k < |d| && c[k] == d[k]
      invariant k <= |c| && k <= |d| && c[..k] == d[..k]
    {
      k := k + 1;
    }
  }

  lemma Siblings(c: Path, d: Path, k: nat)
    requires k < |c| && k < |d| && c[..k] == d[..k] && c[k] != d[k]
    ensures c[..k + 1] != d[..k + 1] && Parent(c[..k + 1]) == Parent(d[..k + 1]) == c[..k]
  {
    assert c[..k + 1][k] == c[k] && d[..k + 1][k] == d[k];
    assert c[..k + 1][..k] == c[..k] && d[..k + 1][..k] == d[..k];
  }

  /** Containers of which neither is inside the other have no node in common. */
  lemma {:induction false} UnrelatedShareNothing(t: Tree, c: Path, d: Path)
    requires Exclusive(t)
    ensures c in t.mems && d in t.mems && !(c <= d) && !(d <= c) ==> t.mems[c] !! t.mems[d]
  {
    if c in t.mems && d in t.mems && !(c <= d) && !(d <= c) {
      var k := FirstDifference(c, d);
      AncestorHolds(t, c, k + 1);
      AncestorHolds(t, d, k + 1);
      Siblings(c, d, k);
    }
  }

  // ------------------------------------------------------------- node accounts

  ghost function Held(t: Tree, cs: set<Path>): nat
    requires forall c :: c in cs ==> c in t.mems
  {
    if cs == {} then 0
    else
      var c :| c in cs;
      |t.mems[c]| + Held(t, cs - {c})
  }

  lemma NodesOfOne(t: Tree, cs: set<Path>, c: Path)
    requires c in cs && c in t.mems
    ensures NodesOf(t, cs) == t.mems[c] + NodesOf(t, cs - {c})
  {
    forall n | n in NodesOf(t, cs) ensures n in t.mems[c] + NodesOf(t, cs - {c}) {
      var d :| d in cs && d in t.mems && n in t.mems[d];
      assert d == c || d in cs - {c};
    }
  }

  lemma OthersDisjoint(t: Tree, p: Path, cs: set<Path>, c: Path)
    requires SiblingsDisjoint(t) && cs <= Children(t, p) && c in cs
    ensures t.mems[c] !! NodesOf(t, cs - {c})
  {
    forall n | n in NodesOf(t, cs - {c}) ensures n !in t.mems[c] {
      var d :| d in cs - {c} && d in t.mems && n in t.mems[d];
      assert Parent(c) == Parent(d);
    }
  }

  lemma {:induction false} HeldIsUnion(t: Tree, p: Path, cs: set<Path>)
    requires SiblingsDisjoint(t) && cs <= Children(t, p)
    ensures Held(t, cs) == |NodesOf(t, cs)|
    decreases cs
  {
    if cs == {} {
      assert NodesOf(t, cs) == {};
    } else {
      var c :| c in cs && Held(t, cs) == |t.mems[c]| + Held(t, cs - {c});
      HeldIsUnion(t, p, cs - {c});
      NodesOfOne(t, cs, c);
      OthersDisjoint(t, p, cs, c);
    }
  }

  /** A plain path finds its children: all of them, and only them. */
  lemma PlainFound(t: Tree, p: Path)
    requires AllRegular(t) && Plain(p)
    ensures Found(t, p) == Children(t, p)
  {
    forall c | c in t.mems ensures c in Found(t, p) <==> c in Children(t, p) {
      PlainFinds(p, c);
    }
  }

  /** The free nodes of a container and the nodes of its children always count
      to its total. */
  lemma NodesConserved(t: Tree, p: Path)
    requires Exclusive(t) && p in t.mems && Plain(p)
    ensures |FreeNodes(t, p)| + Held(t, Children(t, p)) == |t.mems[p]|
  {
    PlainFound(t, p);
    assert BusyNodes(t, p) <= t.mems[p];
    assert t.mems[p] == FreeNodes(t, p) + BusyNodes(t, p);
    HeldIsUnion(t, p, Children(t, p));
  }

  // ----------------------------------------------------------------- allocator

  function Above(free: set<nat>, n: nat): set<nat> {
    set m | m in free && m > n
  }

  /** The k highest-numbered nodes. */
  function Highest(free: set<nat>, k: nat): set<nat> {
    set n | n in free && |Above(free, n)| < k
  }

  function CeilDiv(a: nat, b: nat): nat
    requires b > 0
  {
    (a + b - 1) / b
  }

  datatype Grant =
    | Granted(mems: set<nat>)
    | ExceedsParent(mbytes: int, parentMbytes: nat)
    | SiblingsHold(shortfall: int)

  /** What a request for mbytes gets out of the free nodes. A request for nothing
      takes every free node. */
  function Allocate(free: set<nat>, parentMbytes: nat, nodeMbytes: nat, mbytes: int): Grant {
    if mbytes <= 0 then Granted(free)
    else if |free| * nodeMbytes < mbytes then
      if mbytes > parentMbytes then ExceedsParent(mbytes, parentMbytes)
      else SiblingsHold(mbytes - |free| * nodeMbytes)
    else if nodeMbytes == 0 then Granted({})
    else Granted(Highest(free, CeilDiv(mbytes, nodeMbytes)))
  }

  /** nodes_avail_mbytes and container_mbytes for nodes of the one size. */
  function NodesMbytes(nodes: set<nat>, nodeMbytes: nat): nat {
    |nodes| * (nodeMbytes * 1024) / 1024
  }

  function AvailMbytes(free: set<nat>, nodeMbytes: nat): nat {
    var mbytes: int := NodesMbytes(free, nodeMbytes) - nodeMbytes / 2;
    if mbytes > 0 then mbytes else 0
  }

  lemma NodesMbytesExact(nodes: set<nat>, nodeMbytes: nat)
    ensures NodesMbytes(nodes, nodeMbytes) == |nodes| * nodeMbytes
  {
    assert |nodes| * (nodeMbytes * 1024) == (|nodes| * nodeMbytes) * 1024;
  }

  lemma CeilDivBounds(a: nat, b: nat)
    requires a > 0 && b > 0
    ensures CeilDiv(a, b) > 0 && (CeilDiv(a, b) - 1) * b < a <= CeilDiv(a, b) * b
  {
    var q, r := (a + b - 1) / b, (a + b - 1) % b;
    assert a + b - 1 == q * b + r;
    assert (q - 1) * b == q * b - b;
  }

  lemma {:induction false} CeilDivLeast(a: nat, b: nat, k: nat)
    requires a > 0 && b > 0
    ensures CeilDiv(a, b) <= k <==> a <= k * b
  {
    CeilDivBounds(a, b);
    var c := CeilDiv(a, b);
    if c <= k {
      assert c * b <= k * b by { MulMonotone(c, k, b); }
    } else {
      MulMonotone(k, c - 1, b);
    }
  }

  lemma MulMonotone(x: nat, y: nat, b: nat)
    requires x <= y
    ensures x * b <= y * b
  {
    assert (y - x) * b >= 0;
    assert y * b == x * b + (y - x) * b;
  }

  lemma {:induction false} LargestOf(s: set<nat>) returns (m: nat)
    requires s != {}
    ensures m in s && Above(s, m) == {}
    decreases s
  {
    m :| m in s;
    if Above(s, m) != {} {
      var k := LargestOf(Above(s, m));
      assert Above(Above(s, m), k) == Above(s, k);
      m := k;
    }
  }

  lemma AboveWithLargest(free: set<nat>, m: nat, n: nat)
    requires m in free && Above(free, m) == {} && n in free - {m}
    ensures |Above(free, n)| == |Above(free - {m}, n)| + 1
  {
    assert n > m ==> n in Above(free, m);
    assert Above(free, n) == Above(free - {m}, n) + {m};
  }

  lemma HighestWithLargest(free: set<nat>, m: nat, k: nat)
    requires m in free && Above(free, m) == {} && k > 0
    ensures Highest(free, k) == Highest(free - {m}, k - 1) + {m}
  {
    forall n | n in free - {m} ensures n in Highest(free, k) <==> n in Highest(free - {m}, k - 1) {
      AboveWithLargest(free, m, n);
    }
  }

  /** Highest has the size it is asked for, if there are that many nodes. */
  lemma {:induction false} HighestCount(free: set<nat>, k: nat)
    requires k <= |free|
    ensures |Highest(free, k)| == k
    decreases k
  {
    if k == 0 {
      NoneHighest(free);
    } else {
      var m := LargestOf(free);
      var rest := free - {m};
      AddNew(rest, m);
      assert rest + {m} == free;
      HighestCount(rest, k - 1);
      HighestWithLargest(free, m, k);
      AddNew(Highest(rest, k - 1), m);
    }
  }

  lemma NoneHighest(free: set<nat>)
    ensures Highest(free, 0) == {}
  {
  }

  lemma AddNew(s: set<nat>, m: nat)
    requires m !in s
    ensures |s + {m}| == |s| + 1
  {
  }

  lemma HighestAreHigher(free: set<nat>, k: nat, x: nat, y: nat)
    requires x in Highest(free, k) && y in free && y !in Highest(free, k)
    ensures y < x
  {
    if y > x {
      assert Above(free, y) <= Above(free, x);
      SubsetCount(Above(free, y), Above(free, x));
    }
  }

  lemma {:induction false} SubsetCount(a: set<nat>, b: set<nat>)
    requires a <= b
    ensures |a| <= |b|
  {
    assert b == a + (b - a);
  }

  /** A positive request succeeds exactly when the nodes it needs, rounded up,
      are free; it then takes exactly that many, the highest-numbered, and one
      node less would not have been enough. */
  lemma AllocatorExact(free: set<nat>, parentMbytes: nat, nodeMbytes: nat, mbytes: int)
    requires mbytes > 0 && nodeMbytes > 0
    ensures var g, k := Allocate(free, parentMbytes, nodeMbytes, mbytes), CeilDiv(mbytes, nodeMbytes);
            && (g.Granted? <==> k <= |free|)
            && (g.Granted? ==> g.mems <= free && |g.mems| == k && (k - 1) * nodeMbytes < mbytes <= k * nodeMbytes)
            && (g.Granted? ==> forall x, y :: x in g.mems && y in free - g.mems ==> y < x)
  {
    var k := CeilDiv(mbytes, nodeMbytes);
    CeilDivBounds(mbytes, nodeMbytes);
    CeilDivLeast(mbytes, nodeMbytes, |free|);
    if k <= |free| {
      HighestCount(free, k);
      forall x, y | x in Highest(free, k) && y in free - Highest(free, k) ensures y < x {
        HighestAreHigher(free, k, x, y);
      }
    }
  }

  /** The fewest nodes that hold a request. */
  function Needed(mbytes: int, nodeMbytes: nat): nat
    requires nodeMbytes > 0
  {
    if mbytes <= 0 then 0 else CeilDiv(mbytes, nodeMbytes)
  }

  /** A granted request takes no more than it needs if and only if it is for some
      memory, or there is nothing to take. */
  lemma GrantIsNeededExactly(free: set<nat>, parentMbytes: nat, nodeMbytes: nat, mbytes: int)
    requires nodeMbytes > 0
    ensures var g := Allocate(free, parentMbytes, nodeMbytes, mbytes);
            g.Granted? ==> (|g.mems| == Needed(mbytes, nodeMbytes) <==> mbytes > 0 || free == {})
  {
    if mbytes > 0 {
      AllocatorExact(free, parentMbytes, nodeMbytes, mbytes);
    }
  }

  /** Whatever avail_mbytes reports can be had. */
  lemma AvailableCanBeHad(free: set<nat>, parentMbytes: nat, nodeMbytes: nat, mbytes: int)
    requires 0 < mbytes <= AvailMbytes(free, nodeMbytes)
    ensures Allocate(free, parentMbytes, nodeMbytes, mbytes).Granted?
  {
    NodesMbytesExact(free, nodeMbytes);
  }

  /** avail_mbytes keeps back at most half a node of what is free. */
  lemma AvailableIsAlmostAll(free: set<nat>, nodeMbytes: nat)
    ensures var all := |free| * nodeMbytes;
            all - nodeMbytes / 2 <= AvailMbytes(free, nodeMbytes) <= all
  {
    NodesMbytesExact(free, nodeMbytes);
  }

  lemma Shortfall(free: set<nat>, total: nat, held: nat, nodeMbytes: nat, mbytes: int)
    requires total == |free| + held
    ensures var g := Allocate(free, total * nodeMbytes, nodeMbytes, mbytes);
            g.SiblingsHold? ==> 0 < g.shortfall <= held * nodeMbytes
  {
    assert total * nodeMbytes == |free| * nodeMbytes + held * nodeMbytes;
  }

  /** When the siblings are blamed, they do hold at least the shortfall. */
  lemma {:induction false} BlamedSiblingsHoldIt(t: Tree, p: Path, nodeMbytes: nat, mbytes: int)
    requires Exclusive(t) && p in t.mems && Plain(p)
    ensures var g := Allocate(FreeNodes(t, p), NodesMbytes(t.mems[p], nodeMbytes), nodeMbytes, mbytes);
            g.SiblingsHold? ==> 0 < g.shortfall <= Held(t, Children(t, p)) * nodeMbytes
  {
    NodesMbytesExact(t.mems[p], nodeMbytes);
    NodesConserved(t, p);
    Shortfall(FreeNodes(t, p), |t.mems[p]|, Held(t, Children(t, p)), nodeMbytes, mbytes);
  }

  // ----------------------------------------------------------- create and release

  datatype Outcome =
    | Done
    | NoParent(root: Path)
    | NoCpus
    | AlreadyExists(path: Path)
    | PatternError(path: Path)
    | Refused(why: Grant)
    | NoSuchDirectory(path: Path)

  function AddContainer(t: Tree, path: Path, mems: set<nat>, cpus: set<nat>): Tree {
    t.(mems := t.mems[path := mems], cpus := t.cpus[path := cpus])
  }

  function CpusOf(t: Tree, p: Path): set<nat> {
    if p in t.cpus then t.cpus[p] else {}
  }

  datatype Cpus = DefaultCpus | TheseCpus(cpus: set<nat>)

  /** create_container_with_mbytes_and_specific_cpus without the move. The name
      may itself be a path, and then its last part is the new container. */
  function Create(t: Tree, nodeMbytes: nat, name: Path, mbytes: int, cpus: Cpus, root: Path): (Tree, Outcome) {
    var use := if cpus.DefaultCpus? then CpusOf(t, root) else cpus.cpus;
    var path := root + name;
    var parent := Parent(path);
    if root !in t.mems then (t, NoParent(root))
    else if use == {} then (t, NoCpus)
    else if path in t.mems then (t, AlreadyExists(path))
    else if PatternFails(t, parent) then (t, PatternError(path))
    else
      var g := Request(t, nodeMbytes, parent, mbytes);
      if !g.Granted? then (t, Refused(g))
      else if parent !in t.mems then (t, NoSuchDirectory(path))
      else (AddContainer(t, path, g.mems, use), Done)
  }

  /** The nodes that a new container in `parent` would get now. */
  function Request(t: Tree, nodeMbytes: nat, parent: Path, mbytes: int): Grant {
    Allocate(FreeNodes(t, parent), NodesMbytes(MemNodes(t, parent), nodeMbytes), nodeMbytes, mbytes)
  }

  /** A creation succeeds if and only if the root is there, CPUs are left, the path
      is not taken, the parent is there with a pattern that can be read, and the
      allocator grants the request. */
  lemma CreateExactly(t: Tree, nodeMbytes: nat, name: Path, mbytes: int, cpus: Cpus, root: Path)
    ensures var (t', o) := Create(t, nodeMbytes, name, mbytes, cpus, root);
            var path := root + name;
            var noCpus := if cpus.TheseCpus? then cpus.cpus == {} else root in t.cpus ==> t.cpus[root] == {};
            && (o.Done? <==>
                  && root in t.mems && !noCpus && path !in t.mems && Parent(path) in t.mems
                  && !PatternFails(t, Parent(path)) && Request(t, nodeMbytes, Parent(path), mbytes).Granted?)
            && (o.NoParent? <==> root !in t.mems)
            && (o.NoCpus? <==> root in t.mems && noCpus)
            && (o.AlreadyExists? <==> root in t.mems && !noCpus && path in t.mems)
  {
  }

  /** The new container has the nodes granted, and the CPUs asked for or else those
      of the root; no other container and no task changes. A creation that does not
      succeed changes nothing. */
  lemma CreateEffect(t: Tree, nodeMbytes: nat, name: Path, mbytes: int, cpus: Cpus, root: Path)
    ensures var (t', o) := Create(t, nodeMbytes, name, mbytes, cpus, root);
            var path := root + name;
            if o.Done? then
              && t' == Tree(t.mems[path := t'.mems[path]], t.cpus[path := t'.cpus[path]], t.home)
              && t'.mems[path] == Request(t, nodeMbytes, Parent(path), mbytes).mems
              && (cpus.TheseCpus? ==> t'.cpus[path] == cpus.cpus)
              && (cpus.DefaultCpus? ==> root in t.cpus && t'.cpus[path] == t.cpus[root])
              && t'.cpus[path] != {}
            else t' == t
  {
  }

  /** A refusal tells whether the request would have been too large for the
      parent without other containers, and otherwise how much is missing. */
  lemma RefusalExactly(t: Tree, p: Path, nodeMbytes: nat, mbytes: int)
    requires p in t.mems && mbytes > 0
    ensures var g := Request(t, nodeMbytes, p, mbytes);
            var (free, all) := (|FreeNodes(t, p)| * nodeMbytes, |t.mems[p]| * nodeMbytes);
            && (g.Granted? <==> mbytes <= free)
            && (g.ExceedsParent? <==> mbytes > all)
            && (g.SiblingsHold? <==> free < mbytes <= all)
            && (g.SiblingsHold? ==> g.shortfall == mbytes - free)
  {
    NodesMbytesExact(t.mems[p], nodeMbytes);
    SubsetCount(FreeNodes(t, p), t.mems[p]);
    MoreNodesMore(|FreeNodes(t, p)|, |t.mems[p]|, nodeMbytes);
  }

  lemma MoreNodesMore(a: nat, b: nat, nodeMbytes: nat)
    requires a <= b
    ensures a * nodeMbytes <= b * nodeMbytes
  {
  }

  lemma GrantWithin(free: set<nat>, parentMbytes: nat, nodeMbytes: nat, mbytes: int)
    ensures var g := Allocate(free, parentMbytes, nodeMbytes, mbytes); g.Granted? ==> g.mems <= free
  {
  }

  lemma AddKeepsExclusive(t: Tree, path: Path, mems: set<nat>, cpus: set<nat>)
    requires Exclusive(t) && path != [] && path !in t.mems && Parent(path) in t.mems && Regular(path)
    requires mems <= FreeNodes(t, Parent(path))
    ensures Exclusive(AddContainer(t, path, mems, cpus))
  {
    var t' := AddContainer(t, path, mems, cpus);
    PlainFound(t, Parent(path));
    forall c | c in t.mems && c != [] && Parent(c) == Parent(path) ensures mems !! t.mems[c] {
      assert c in Found(t, Parent(path));
    }
    assert WellFormed(t') && AllRegular(t') && Nested(t') && SiblingsDisjoint(t');
  }

  /** Creating a container keeps nodes exclusive, whatever the outcome, as long
      as the new container can be found by its parent's pattern. */
  lemma {:induction false} CreateKeepsExclusive(t: Tree, nodeMbytes: nat, name: Path, mbytes: int, cpus: Cpus,
                                                root: Path)
    requires Exclusive(t) && Regular(root + name)
    ensures Exclusive(Create(t, nodeMbytes, name, mbytes, cpus, root).0)
  {
    var path, use := root + name, if cpus.DefaultCpus? then CpusOf(t, root) else cpus.cpus;
    CreateCases(t, nodeMbytes, name, mbytes, cpus, root);
    if Create(t, nodeMbytes, name, mbytes, cpus, root).1.Done? {
      AddKeepsExclusive(t, path, Request(t, nodeMbytes, Parent(path), mbytes).mems, use);
    }
  }

  lemma CreateCases(t: Tree, nodeMbytes: nat, name: Path, mbytes: int, cpus: Cpus, root: Path)
    requires [] in t.mems
    ensures var (t', o) := Create(t, nodeMbytes, name, mbytes, cpus, root);
            var path, use := root + name, if cpus.DefaultCpus? then CpusOf(t, root) else cpus.cpus;
            var g := Request(t, nodeMbytes, Parent(path), mbytes);
            if o.Done?
            then path != [] && path !in t.mems && Parent(path) in t.mems
                 && g.Granted? && g.mems <= FreeNodes(t, Parent(path)) && t' == AddContainer(t, path, g.mems, use)
            else t' == t
  {
    var parent := Parent(root + name);
    GrantWithin(FreeNodes(t, parent), NodesMbytes(MemNodes(t, parent), nodeMbytes), nodeMbytes, mbytes);
  }

  // ------------------------------------------------- containers that are not found

  /** The children that the container's pattern does not find. */
  function Unfound(t: Tree, p: Path): set<Path> {
    Children(t, p) - Found(t, p)
  }

  lemma FreeOfFound(t: Tree, p: Path, mems: set<nat>, c: Path)
    requires mems <= FreeNodes(t, p) && c in t.mems && c in Found(t, p)
    ensures mems !! t.mems[c]
  {
  }

  /** Whatever the names: giving free nodes to a new container keeps siblings
      apart if and only if none of these nodes belongs to a sibling that the
      parent's pattern does not find. */
  lemma {:induction false} DisjointExactly(t: Tree, path: Path, mems: set<nat>, cpus: set<nat>)
    requires path != [] && path !in t.mems && SiblingsDisjoint(t) && mems <= FreeNodes(t, Parent(path))
    ensures SiblingsDisjoint(AddContainer(t, path, mems, cpus)) <==> mems !! NodesOf(t, Unfound(t, Parent(path)))
  {
    var t', unfound := AddContainer(t, path, mems, cpus), Unfound(t, Parent(path));
    if mems !! NodesOf(t, unfound) {
      forall c | c in t.mems && c != [] && Parent(c) == Parent(path) ensures mems !! t.mems[c] {
        if c in unfound {
          assert forall n :: n in t.mems[c] ==> n in NodesOf(t, unfound);
        } else {
          FreeOfFound(t, Parent(path), mems, c);
        }
      }
    } else {
      var n, c :| n in mems && c in unfound && c in t.mems && n in t.mems[c];
      assert c in t'.mems && path in t'.mems && t'.mems[c] == t.mems[c];
    }
  }

  /** A container that is created keeps siblings apart if and only if the nodes
      that it is about to get belong to no sibling the pattern does not find. */
  lemma {:induction false} CreateKeepsDisjointExactly(t: Tree, nodeMbytes: nat, name: Path, mbytes: int, cpus: Cpus,
                                                      root: Path)
    requires SiblingsDisjoint(t)
    ensures var (t', o) := Create(t, nodeMbytes, name, mbytes, cpus, root);
            var parent := Parent(root + name);
            var g := Request(t, nodeMbytes, parent, mbytes);
            o.Done? ==> g.Granted? && (SiblingsDisjoint(t') <==> g.mems !! NodesOf(t, Unfound(t, parent)))
  {
    var path := root + name;
    var free, parentMbytes := FreeNodes(t, Parent(path)), NodesMbytes(MemNodes(t, Parent(path)), nodeMbytes);
    if Create(t, nodeMbytes, name, mbytes, cpus, root).1.Done? {
      GrantWithin(free, parentMbytes, nodeMbytes, mbytes);
      DisjointExactly(t, path, Allocate(free, parentMbytes, nodeMbytes, mbytes).mems,
                      if cpus.DefaultCpus? then CpusOf(t, root) else cpus.cpus);
    }
  }

  lemma UnfoundIsNotBusy(t: Tree, path: Path, mems: set<nat>, cpus: set<nat>)
    requires path != [] && path !in t.mems && !FoundBy(Parent(path), path)
    ensures var t' := AddContainer(t, path, mems, cpus);
            FreeNodes(t', Parent(path)) == FreeNodes(t, Parent(path))
            && (PatternFails(t', Parent(path)) <==> PatternFails(t, Parent(path)))
  {
    var t' := AddContainer(t, path, mems, cpus);
    assert Found(t', Parent(path)) == Found(t, Parent(path));
    assert |Parent(path)| < |path|;
    assert forall d :: d in t'.mems && |d| < |Parent(path)| ==> d in t.mems;
  }

  lemma CreateIn(t: Tree, nodeMbytes: nat, name: string, mbytes: int, root: Path)
    requires root in t.mems && CpusOf(t, root) != {} && root + [name] !in t.mems && !PatternFails(t, root)
    ensures var g := Request(t, nodeMbytes, root, mbytes);
            Create(t, nodeMbytes, [name], mbytes, DefaultCpus, root)
            == if g.Granted? then (AddContainer(t, root + [name], g.mems, CpusOf(t, root)), Done) else (t, Refused(g))
  {
    assert Parent(root + [name]) == root;
  }

  /** The next container that asks for as much is given the very same nodes. */
  ghost predicate SharesNodes(t: Tree, nodeMbytes: nat, a: string, b: string, mbytes: int, root: Path) {
    var (t1, o1) := Create(t, nodeMbytes, [a], mbytes, DefaultCpus, root);
    var (t2, o2) := Create(t1, nodeMbytes, [b], mbytes, DefaultCpus, root);
    o1.Done? ==>
      o2.Done? && root + [a] in t2.mems && root + [b] in t2.mems
      && t2.mems[root + [a]] == t2.mems[root + [b]] != {}
  }

  /** A container that its parent's pattern does not find is not seen as busy. */
  lemma {:induction false} UnfoundSharesNodes(t: Tree, nodeMbytes: nat, a: string, b: string, mbytes: int, root: Path)
    requires nodeMbytes > 0 && mbytes > 0 && !FoundBy(root, root + [a])
    requires a != b && root + [b] !in t.mems
    ensures SharesNodes(t, nodeMbytes, a, b, mbytes, root)
  {
    if Create(t, nodeMbytes, [a], mbytes, DefaultCpus, root).1.Done? {
      var pa, pb := root + [a], root + [b];
      assert pa[|root|] == a && pb[|root|] == b && pa != root;
      assert Parent(pa) == root;
      CreateIn(t, nodeMbytes, a, mbytes, root);
      var g := Request(t, nodeMbytes, root, mbytes);
      var t1 := AddContainer(t, pa, g.mems, CpusOf(t, root));
      UnfoundIsNotBusy(t, pa, g.mems, CpusOf(t, root));
      CreateIn(t1, nodeMbytes, b, mbytes, root);
      AllocatorExact(FreeNodes(t, root), NodesMbytes(t.mems[root], nodeMbytes), nodeMbytes, mbytes);
      CeilDivBounds(mbytes, nodeMbytes);
      assert |g.mems| > 0;
    }
  }

  /** So it is for a name that starts with a dot. */
  lemma {:induction false} HiddenNameSharesNodes(t: Tree, nodeMbytes: nat, a: string, b: string, mbytes: int,
                                                 root: Path)
    requires nodeMbytes > 0 && mbytes > 0 && Hidden(a)
    requires a != b && root + [b] !in t.mems
    ensures SharesNodes(t, nodeMbytes, a, b, mbytes, root)
  {
    assert (root + [a])[|root|] == a;
    UnfoundSharesNodes(t, nodeMbytes, a, b, mbytes, root);
  }

  /** And so it is for any names below a container called a[b], since the pattern
      made of that name does not match the name. */
  lemma {:induction false} BracketsShareNodes(t: Tree, nodeMbytes: nat, a: string, b: string, mbytes: int,
                                              above: Path)
    requires nodeMbytes > 0 && mbytes > 0
    requires a != b && above + ["a[b]"] + [b] !in t.mems
    ensures SharesNodes(t, nodeMbytes, a, b, mbytes, above + ["a[b]"])
  {
    var root := above + ["a[b]"];
    ClassIsNotItself();
    assert root[|above|] == "a[b]" && (root + [a])[..|root|] == root;
    UnfoundSharesNodes(t, nodeMbytes, a, b, mbytes, root);
  }

  lemma SeenIsBusy(t: Tree, path: Path, mems: set<nat>, cpus: set<nat>)
    requires path != [] && path !in t.mems && FoundBy(Parent(path), path) && Parent(path) in t.mems
    requires mems == FreeNodes(t, Parent(path))
    ensures FreeNodes(AddContainer(t, path, mems, cpus), Parent(path)) == {}
  {
    var t' := AddContainer(t, path, mems, cpus);
    assert |Parent(path)| < |path|;
    assert path in Found(t', Parent(path));
    forall n | n in t.mems[Parent(path)] ensures n in BusyNodes(t', Parent(path)) {
      if n !in mems {
        var c :| c in Found(t, Parent(path)) && c in t.mems && n in t.mems[c];
        assert c in Found(t', Parent(path));
      }
    }
  }

  /** A request for nothing gets everything: if the new container can be found,
      the parent has no node left afterwards, and no request for any memory at
      all succeeds beside it. */
  lemma {:induction false} EmptyRequestStarves(t: Tree, nodeMbytes: nat, a: string, nothing: int, b: string,
                                               mbytes: int, root: Path)
    requires FoundBy(root, root + [a]) && nothing <= 0 < mbytes
    ensures var (t1, o) := Create(t, nodeMbytes, [a], nothing, DefaultCpus, root);
            o.Done? ==>
              && root + [a] in t1.mems && t1.mems[root + [a]] == FreeNodes(t, root)
              && FreeNodes(t1, root) == {}
              && !Create(t1, nodeMbytes, [b], mbytes, DefaultCpus, root).1.Done?
  {
    if Create(t, nodeMbytes, [a], nothing, DefaultCpus, root).1.Done? {
      var pa := root + [a];
      assert Parent(pa) == root && pa[|root|] == a && pa != root;
      CreateIn(t, nodeMbytes, a, nothing, root);
      var t1 := AddContainer(t, pa, FreeNodes(t, root), CpusOf(t, root));
      SeenIsBusy(t, pa, FreeNodes(t, root), CpusOf(t, root));
      if root + [b] !in t1.mems && !PatternFails(t1, root) {
        CreateIn(t1, nodeMbytes, b, mbytes, root);
      }
    }
  }

  // The subtree of a container is everything with its path as a prefix.

  predicate Inside(p: Path, nest: Path) { nest <= p }

  function Subtree(t: Tree, nest: Path): set<Path> {
    set c | c in t.mems && Inside(c, nest)
  }
}
