/** Following symbolic links, client/local_host.py. */
module LocalHost {

  /** The path strings that exist, and the text of those that are links. A link
      may lead to a path that does not exist, or round in a circle. */
  datatype FileSystem = FileSystem(existing: set<string>, links: map<string, string>)

  // ---------------------------------------------------------- path arithmetic

  predicate Slashes(s: string) { forall i :: 0 <= i < |s| ==> s[i] == '/' }

  /** p[:p.rfind('/') + 1] */
  function Head(p: string): string {
    if p == [] || p[|p| - 1] == '/' then p else Head(p[..|p| - 1])
  }

  function StripSlashes(s: string): string {
    if s != [] && s[|s| - 1] == '/' then StripSlashes(s[..|s| - 1]) else s
  }

  /** os.path.dirname */
  function DirName(p: string): string {
    if Slashes(Head(p)) then Head(p) else StripSlashes(Head(p))
  }

  /** os.path.join */
  function JoinPath(a: string, b: string): string {
    if b != [] && b[0] == '/' then b
    else if a == [] || a[|a| - 1] == '/' then a + b
    else a + "/" + b
  }

  /** The path a link's text stands for: relative to the link's own directory. */
  function LinkTo(fs: FileSystem, p: string): string
    requires p in fs.links
  {
    JoinPath(DirName(p), fs.links[p])
  }

  // ------------------------------------------------------------- reachability

  lemma {:induction false} HeadEndsName(h: string, n: string)
    requires '/' !in n && (h != [] ==> h[|h| - 1] == '/')
    ensures Head(h + n) == h
    decreases |n|
  {
    if n == [] {
      assert h + n == h;
    } else {
      assert (h + n)[|h + n| - 1] == n[|n| - 1];
      assert (h + n)[..|h + n| - 1] == h + n[..|n| - 1];
      HeadEndsName(h, n[..|n| - 1]);
    }
  }

  lemma {:induction false} SlashesStrip(d: string, slashes: string)
    requires Slashes(slashes) && (d != [] ==> d[|d| - 1] != '/')
    ensures StripSlashes(d + slashes) == d
    decreases |slashes|
  {
    if slashes == [] {
      assert d + slashes == d;
    } else {
      assert (d + slashes)[..|d + slashes| - 1] == d + slashes[..|slashes| - 1];
      SlashesStrip(d, slashes[..|slashes| - 1]);
    }
  }

  /** The directory of a path without the slashes behind it, unless it consists
      of slashes alone. */
  lemma DirNameExactly(p: string, d: string, slashes: string, n: string)
    requires SplitsAs(p, d, slashes, n)
    ensures DirName(p) == if d == [] then slashes else d
  {
    HeadEndsName(d + slashes, n);
    SlashesStrip(d, slashes);
    if d == [] {
      assert d + slashes == slashes;
    } else {
      assert (d + slashes)[|d| - 1] != '/';
    }
  }

  lemma {:induction false} EveryPathSplits(p: string) returns (d: string, slashes: string, n: string)
    ensures SplitsAs(p, d, slashes, n)
    decreases |p|
  {
    if p == [] {
      d, slashes, n := [], [], [];
    } else {
      var last := p[|p| - 1];
      var front := p[..|p| - 1];
      d, slashes, n := EveryPathSplits(front);
      if last != '/' {
        n := n + [last];
      } else if n == [] {
        slashes := slashes + [last];
      } else {
        d, slashes, n := front, [last], [];
      }
    }
  }

  /** The join of directory and text is what the link means. */
  lemma LinkToExactly(fs: FileSystem, p: string, q: string)
    requires p in fs.existing && p in fs.links
    ensures LeadsTo(fs, p, q) <==> q == LinkTo(fs, p)
  {
    forall d, slashes, n | SplitsAs(p, d, slashes, n) ensures Meant(d, slashes, fs.links[p]) == LinkTo(fs, p) {
      DirNameExactly(p, d, slashes, n);
    }
    var d, slashes, n := EveryPathSplits(p);
  }

  /** What a link in a directory, in the root directory, and without one leads to. */
  lemma LinkTarget(fs: FileSystem, d: string, n: string)
    requires '/' !in n && d != [] && d[|d| - 1] != '/'
    ensures var p := d + "/" + n;
            p in fs.links ==>
              var text := fs.links[p];
              LinkTo(fs, p) == if text != [] && text[0] == '/' then text else d + "/" + text
    ensures var p := "/" + n;
            p in fs.links ==>
              var text := fs.links[p];
              LinkTo(fs, p) == if text != [] && text[0] == '/' then text else "/" + text
    ensures n in fs.links ==> LinkTo(fs, n) == fs.links[n]
  {
    DirNameExactly(d + "/" + n, d, "/", n);
    assert "/" + n == [] + "/" + n && n == [] + [] + n;
    DirNameExactly("/" + n, [], "/", n);
    DirNameExactly(n, [], [], n);
  }

  /** A path as its directory part, the slashes behind it, and a name. */
  predicate SplitsAs(p: string, d: string, slashes: string, n: string) {
    && p == d + slashes + n && Slashes(slashes) && '/' !in n
    && (d != [] ==> d[|d| - 1] != '/' && slashes != [])
  }

  /** From an existing path, the link leads to q: an absolute text is the path
      itself, and a relative one is meant from the directory of the link. */
  ghost predicate LeadsTo(fs: FileSystem, p: string, q: string) {
    && p in fs.existing && p in fs.links
    && exists d, slashes, n :: SplitsAs(p, d, slashes, n) && q == Meant(d, slashes, fs.links[p])
  }

  function Meant(d: string, slashes: string, text: string): string {
    if text != [] && text[0] == '/' then text
    else if d != [] then d + "/" + text
    else slashes + text
  }

  /** Existing paths, each but the first what the link before it stands for. */
  ghost predicate Chain(fs: FileSystem, chain: seq<string>) {
    && chain != []
    && (forall i :: 0 <= i < |chain| ==> chain[i] in fs.existing)
    && (forall i :: 0 <= i < |chain| - 1 ==> LeadsTo(fs, chain[i], chain[i + 1]))
  }

  ghost predicate Reachable(fs: FileSystem, starts: set<string>, p: string) {
    exists chain :: Chain(fs, chain) && chain[0] in starts && chain[|chain| - 1] == p
  }

  lemma ReachableStart(fs: FileSystem, starts: set<string>, p: string)
    requires p in starts && p in fs.existing
    ensures Reachable(fs, starts, p)
  {
    assert Chain(fs, [p]);
  }

  lemma ReachableNext(fs: FileSystem, starts: set<string>, p: string, q: string)
    requires Reachable(fs, starts, p) && LeadsTo(fs, p, q) && q in fs.existing
    ensures Reachable(fs, starts, q)
  {
    var chain :| Chain(fs, chain) && chain[0] in starts && chain[|chain| - 1] == p;
    var longer := chain + [q];
    forall i | 0 <= i < |longer| - 1 ensures LeadsTo(fs, longer[i], longer[i + 1]) {
      assert i < |chain| - 1 ==> LeadsTo(fs, chain[i], chain[i + 1]);
    }
    assert Chain(fs, longer);
  }

  /** From a reachable link in the directory d with a relative text, the path
      with that text in d is reachable if it exists. */
  lemma RelativeLinkFollowed(fs: FileSystem, starts: set<string>, d: string, n: string)
    requires '/' !in n && d != [] && d[|d| - 1] != '/'
    requires Reachable(fs, starts, d + "/" + n) && d + "/" + n in fs.links
    requires var text := fs.links[d + "/" + n]; text == [] || text[0] != '/'
    ensures var q := d + "/" + fs.links[d + "/" + n];
            Reachable(fs, starts, q) <==> q in fs.existing
  {
    var q := d + "/" + fs.links[d + "/" + n];
    assert SplitsAs(d + "/" + n, d, "/", n);
    if q in fs.existing {
      ReachableNext(fs, starts, d + "/" + n, q);
    }
  }

  /** Holds the existing starts and whatever existing path its links lead to. */
  ghost predicate Closed(fs: FileSystem, starts: set<string>, s: set<string>) {
    && (forall p :: p in starts && p in fs.existing ==> p in s)
    && (forall p, q :: p in s && LeadsTo(fs, p, q) && q in fs.existing ==> q in s)
  }

  lemma {:induction false} ChainInClosed(fs: FileSystem, starts: set<string>, s: set<string>, chain: seq<string>,
                                         i: nat)
    requires Closed(fs, starts, s) && Chain(fs, chain) && chain[0] in starts && i < |chain|
    ensures chain[i] in s
  {
    if i > 0 {
      ChainInClosed(fs, starts, s, chain, i - 1);
      assert LeadsTo(fs, chain[i - 1], chain[i - 1 + 1]);
    }
  }

  /** A path is reachable if and only if every closed set holds it. */
  lemma ReachableIsLeast(fs: FileSystem, starts: set<string>, p: string)
    ensures Reachable(fs, starts, p) <==> forall s :: Closed(fs, starts, s) ==> p in s
  {
    if Reachable(fs, starts, p) {
      var chain :| Chain(fs, chain) && chain[0] in starts && chain[|chain| - 1] == p;
      forall s | Closed(fs, starts, s) ensures p in s {
        ChainInClosed(fs, starts, s, chain, |chain| - 1);
      }
    }
    var all := ReachableSet(fs, starts);
    assert Closed(fs, starts, all);
  }

  /** The reachable paths, as a set. */
  lemma ReachableSet(fs: FileSystem, starts: set<string>) returns (all: set<string>)
    ensures forall p :: p in all <==> Reachable(fs, starts, p)
    ensures Closed(fs, starts, all)
  {
    all := {};
    forall p | Reachable(fs, starts, p) ensures p in fs.existing {
      var chain :| Chain(fs, chain) && chain[0] in starts && chain[|chain| - 1] == p;
    }
    all := set p | p in fs.existing && Reachable(fs, starts, p);
    forall p | p in starts && p in fs.existing ensures p in all {
      ReachableStart(fs, starts, p);
    }
    forall p, q | p in all && LeadsTo(fs, p, q) && q in fs.existing ensures q in all {
      ReachableNext(fs, starts, p, q);
    }
  }

  // --------------------------------------------------------------- the worklist

  /** Nothing is lost: what is reachable in one step is done or still to do. */
  ghost predicate Covered(fs: FileSystem, starts: set<string>, done: set<string>, paths: set<string>) {
    && (forall p :: p in starts && p in fs.existing ==> p in done || p in paths)
    && (forall p, q :: p in done && LeadsTo(fs, p, q) && q in fs.existing ==> q in done || q in paths)
  }

  ghost predicate AllReachable(fs: FileSystem, starts: set<string>, s: set<string>) {
    forall p :: p in s && p in fs.existing ==> Reachable(fs, starts, p)
  }

  /** symlink_closure: which path is popped next is left open. */
  method SymlinkClosure(fs: FileSystem, starts: seq<string>) returns (closure: set<string>)
    ensures forall p :: p in closure <==> Reachable(fs, (set s | s in starts), p)
    ensures forall p, q :: p in closure && LeadsTo(fs, p, q) ==> (q in closure <==> q in fs.existing)
  {
    ghost var first := set s | s in starts;
    var paths := set s | s in starts;
    closure := {};
    StartsReachable(fs, first);
    while paths != {}
      invariant paths !! closure && closure <= fs.existing
      invariant AllReachable(fs, first, closure) && AllReachable(fs, first, paths)
      invariant Covered(fs, first, closure, paths)
      decreases fs.existing - closure, paths
    {
      var path :| path in paths;
      TakenOut(fs, first, closure, paths, path);
      paths := paths - {path};
      if path in fs.existing {
        ghost var left := fs.existing - closure;
        closure := closure + {path};
        assert fs.existing - closure == left - {path} && path in left;
        if path in fs.links {
          var linkTo := LinkTo(fs, path);
          if linkTo !in closure {
            paths := paths + {linkTo};
            TargetReachable(fs, first, path);
          }
        }
      }
    }
    ClosedIsReachable(fs, first, closure);
  }

  /** A path taken from the list is done when the path its link means is in either. */
  lemma TakenOut(fs: FileSystem, starts: set<string>, done: set<string>, paths: set<string>, path: string)
    requires Covered(fs, starts, done, paths)
    ensures path !in fs.existing ==> Covered(fs, starts, done, paths - {path})
    ensures path !in fs.links ==> Covered(fs, starts, done + {path}, paths - {path})
    ensures path in fs.existing && path in fs.links ==>
              var q := LinkTo(fs, path);
              && Covered(fs, starts, done + {path}, paths - {path} + {q})
              && (q in done + {path} ==> Covered(fs, starts, done + {path}, paths - {path}))
  {
    if path in fs.existing && path in fs.links {
      forall q ensures LeadsTo(fs, path, q) <==> q == LinkTo(fs, path) {
        LinkToExactly(fs, path, q);
      }
    }
  }

  lemma StartsReachable(fs: FileSystem, starts: set<string>)
    ensures AllReachable(fs, starts, starts)
  {
    forall p | p in starts && p in fs.existing ensures Reachable(fs, starts, p) {
      ReachableStart(fs, starts, p);
    }
  }

  lemma TargetReachable(fs: FileSystem, starts: set<string>, p: string)
    requires p in fs.existing && p in fs.links && Reachable(fs, starts, p)
    ensures LinkTo(fs, p) in fs.existing ==> Reachable(fs, starts, LinkTo(fs, p))
  {
    if LinkTo(fs, p) in fs.existing {
      LinkToExactly(fs, p, LinkTo(fs, p));
      ReachableNext(fs, starts, p, LinkTo(fs, p));
    }
  }

  lemma ClosedIsReachable(fs: FileSystem, starts: set<string>, s: set<string>)
    requires s <= fs.existing && AllReachable(fs, starts, s) && Covered(fs, starts, s, {})
    ensures forall p :: p in s <==> Reachable(fs, starts, p)
  {
    assert Closed(fs, starts, s);
    forall p | Reachable(fs, starts, p) ensures p in s {
      ReachableIsLeast(fs, starts, p);
    }
  }

  /** The closure of a closure is the closure itself. */
  lemma ClosureIsIdempotent(fs: FileSystem, starts: set<string>, closure: set<string>, p: string)
    requires forall q :: q in closure <==> Reachable(fs, starts, q)
    ensures Reachable(fs, closure, p) <==> p in closure
  {
    var all := ReachableSet(fs, starts);
    assert all == closure;
    if Reachable(fs, closure, p) {
      var chain :| Chain(fs, chain) && chain[0] in closure && chain[|chain| - 1] == p;
      ChainInClosed(fs, closure, closure, chain, |chain| - 1);
    }
    if p in closure {
      var chain :| Chain(fs, chain) && chain[0] in starts && chain[|chain| - 1] == p;
      ReachableStart(fs, closure, p);
    }
  }
}
