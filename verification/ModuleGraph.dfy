/** The kernel modules that lsmod reports and who uses whom, as client/base_utils.py
    reads and changes them. */
module ModuleGraph {
  import opened Sets

  /** One line of lsmod: the loaded modules that use this one, and the references
      that come from outside the module graph. `used` counts both. */
  datatype Info = Info(users: seq<string>, outside: nat)

  type Table = map<string, Info>

  function Used(i: Info): nat { |i.users| + i.outside }

  function Users(g: Table, m: string): seq<string> {
    if m in g then g[m].users else []
  }

  /** The names the table mentions. */
  function Names(g: Table): set<string> {
    g.Keys + set m, u | m in g && u in g[m].users :: u
  }

  // ------------------------------------------------------------- reachability

  /** p is a path of at least one step from m, each step to a user. */
  predicate IsPath(g: Table, m: string, p: seq<string>) {
    && p != []
    && p[0] in Users(g, m)
    && (forall i :: 0 < i < |p| ==> p[i] in Users(g, p[i - 1]))
  }

  ghost predicate Uses(g: Table, u: string, m: string) {
    exists p :: IsPath(g, m, p) && p[|p| - 1] == u
  }

  ghost predicate Acyclic(g: Table) {
    forall m :: !Uses(g, m, m)
  }

  /** The modules that use m, directly or through others. */
  ghost function TransitiveUsers(g: Table, m: string): set<string> {
    set u | u in Names(g) && Uses(g, u, m)
  }

  lemma PathStays(g: Table, m: string, p: seq<string>)
    requires IsPath(g, m, p)
    ensures p[|p| - 1] in Names(g)
  {
    if |p| > 1 {
      assert p[|p| - 1] in Users(g, p[|p| - 2]);
    }
  }

  lemma UsesIsTransitiveUser(g: Table, u: string, m: string)
    ensures Uses(g, u, m) <==> u in TransitiveUsers(g, m)
  {
    if Uses(g, u, m) {
      var p :| IsPath(g, m, p) && p[|p| - 1] == u;
      PathStays(g, m, p);
    }
  }

  lemma DirectUse(g: Table, u: string, m: string)
    requires u in Users(g, m)
    ensures Uses(g, u, m)
  {
    assert IsPath(g, m, [u]);
  }

  lemma ThroughUser(g: Table, x: string, u: string, m: string)
    requires u in Users(g, m) && Uses(g, x, u)
    ensures Uses(g, x, m)
  {
    var p :| IsPath(g, u, p) && p[|p| - 1] == x;
    var q := [u] + p;
    assert q[0] in Users(g, m);
    forall i | 0 < i < |q| ensures q[i] in Users(g, q[i - 1]) {
      if i > 1 { assert q[i] == p[i - 1] && q[i - 1] == p[i - 2]; }
    }
    assert IsPath(g, m, q);
  }

  lemma FirstStep(g: Table, x: string, m: string) returns (u: string)
    requires Uses(g, x, m)
    ensures u in Users(g, m) && (u == x || Uses(g, x, u))
  {
    var p :| IsPath(g, m, p) && p[|p| - 1] == x;
    u := p[0];
    if |p| > 1 {
      var q := p[1..];
      forall i | 0 < i < |q| ensures q[i] in Users(g, q[i - 1]) {
        assert q[i] == p[i + 1] && q[i - 1] == p[i];
      }
      assert IsPath(g, u, q);
    }
  }

  ghost function Rank(g: Table, m: string): nat { |TransitiveUsers(g, m)| }

  lemma {:induction false} UsesTransitive(g: Table, x: string, u: string, m: string)
    requires Uses(g, x, u) && Uses(g, u, m)
    ensures Uses(g, x, m)
  {
    var p :| IsPath(g, m, p) && p[|p| - 1] == u;
    PathThrough(g, x, m, p);
  }

  lemma {:induction false} PathThrough(g: Table, x: string, m: string, p: seq<string>)
    requires IsPath(g, m, p) && Uses(g, x, p[|p| - 1])
    ensures Uses(g, x, m)
    decreases |p|
  {
    if |p| == 1 {
      ThroughUser(g, x, p[0], m);
    } else {
      var q := p[1..];
      forall i | 0 < i < |q| ensures q[i] in Users(g, q[i - 1]) {
        assert q[i] == p[i + 1] && q[i - 1] == p[i];
      }
      PathThrough(g, x, p[0], q);
      ThroughUser(g, x, p[0], m);
    }
  }

  lemma RankOfUser(g: Table, u: string, m: string)
    requires Acyclic(g) && Uses(g, u, m)
    ensures Rank(g, u) < Rank(g, m)
  {
    forall x | x in TransitiveUsers(g, u) ensures x in TransitiveUsers(g, m) {
      UsesTransitive(g, x, u, m);
    }
    UsesIsTransitiveUser(g, u, m);
    ProperSubset(TransitiveUsers(g, u), TransitiveUsers(g, m), u);
  }

  // ---------------------------------------------------------- get_submodules

  ghost predicate UsersOnly(g: Table, m: string, s: seq<string>) {
    forall x :: x in s ==> Uses(g, x, m)
  }

  ghost predicate Below(g: Table, bound: nat, s: seq<string>) {
    forall x :: x in s ==> Rank(g, x) < bound
  }

  lemma UsersBelow(g: Table, m: string, s: seq<string>)
    requires Acyclic(g) && UsersOnly(g, m, s)
    ensures Below(g, Rank(g, m), s)
  {
    forall x | x in s ensures Rank(g, x) < Rank(g, m) {
      RankOfUser(g, x, m);
    }
  }

  lemma DirectUsersOnly(g: Table, m: string)
    ensures UsersOnly(g, m, Users(g, m))
  {
    forall x | x in Users(g, m) ensures Uses(g, x, m) {
      DirectUse(g, x, m);
    }
  }

  /** The list get_submodules builds: it starts with the users of m and, going
      through the list while it grows, adds what each element returns. */
  ghost function Submodules(g: Table, m: string): (l: seq<string>)
    requires Acyclic(g)
    ensures UsersOnly(g, m, l)
    decreases Rank(g, m), 4
  {
    DirectUsersOnly(g, m);
    UsersBelow(g, m, Users(g, m));
    Grow(g, m, Users(g, m), 0, CostOf(g, Rank(g, m), Users(g, m)))
  }

  /** The visits that visiting x causes: its own, and those of all it adds. */
  ghost function Cost(g: Table, x: string): nat
    requires Acyclic(g)
    decreases Rank(g, x), 5
  {
    UsersBelow(g, x, Submodules(g, x));
    1 + CostOf(g, Rank(g, x), Submodules(g, x))
  }

  ghost function CostOf(g: Table, bound: nat, s: seq<string>): nat
    requires Acyclic(g) && Below(g, bound, s)
    decreases bound, 0, |s|
  {
    if s == [] then 0 else Cost(g, s[0]) + CostOf(g, bound, s[1..])
  }

  /** The loop from position i on, with `cost` visits to go. */
  ghost function Grow(g: Table, m: string, l: seq<string>, i: nat, cost: nat): (r: seq<string>)
    requires Acyclic(g) && UsersOnly(g, m, l) && i <= |l| && Below(g, Rank(g, m), l[i..])
    requires cost == CostOf(g, Rank(g, m), l[i..])
    ensures UsersOnly(g, m, r)
    decreases Rank(g, m), 3, cost
  {
    if i == |l| then l
    else
      RankOfUser(g, l[i], m);
      VisitCosts(g, m, l, i);
      Grow(g, m, l + Submodules(g, l[i]), i + 1, cost - 1)
  }

  lemma {:induction false} CostOfConcat(g: Table, bound: nat, a: seq<string>, b: seq<string>)
    requires Acyclic(g) && Below(g, bound, a) && Below(g, bound, b)
    ensures Below(g, bound, a + b) && CostOf(g, bound, a + b) == CostOf(g, bound, a) + CostOf(g, bound, b)
    decreases bound, 1, |a|
  {
    if a == [] {
      assert a + b == b;
    } else {
      assert (a + b)[1..] == a[1..] + b;
      CostOfConcat(g, bound, a[1..], b);
    }
  }

  lemma {:induction false} CostOfBound(g: Table, b1: nat, b2: nat, s: seq<string>)
    requires Acyclic(g) && Below(g, b1, s) && b1 <= b2
    ensures Below(g, b2, s) && CostOf(g, b1, s) == CostOf(g, b2, s)
    decreases b2, 1, |s|
  {
    if s != [] {
      CostOfBound(g, b1, b2, s[1..]);
    }
  }

  lemma AddedUsers(g: Table, m: string, l: seq<string>, x: string, added: seq<string>)
    requires UsersOnly(g, m, l) && Uses(g, x, m) && UsersOnly(g, x, added)
    ensures UsersOnly(g, m, l + added)
  {
    forall y | y in l + added ensures Uses(g, y, m) {
      if y in added { UsesTransitive(g, y, x, m); }
    }
  }

  lemma CostHead(g: Table, bound: nat, l: seq<string>, i: nat)
    requires Acyclic(g) && i < |l| && Below(g, bound, l[i..])
    ensures Below(g, bound, l[i + 1..]) && Rank(g, l[i]) < bound
    ensures CostOf(g, bound, l[i..]) == Cost(g, l[i]) + CostOf(g, bound, l[i + 1..])
    decreases bound, 1, |l|
  {
    assert l[i..][0] == l[i] && l[i..][1..] == l[i + 1..];
    assert forall x :: x in l[i + 1..] ==> x in l[i..];
  }

  /** A visit adds elements that cost one less than the visited element itself. */
  lemma VisitCosts(g: Table, m: string, l: seq<string>, i: nat)
    requires Acyclic(g) && UsersOnly(g, m, l) && i < |l| && Below(g, Rank(g, m), l[i..])
    ensures var l' := l + Submodules(g, l[i]);
            && UsersOnly(g, m, l') && Below(g, Rank(g, m), l'[i + 1..])
            && CostOf(g, Rank(g, m), l'[i + 1..]) == CostOf(g, Rank(g, m), l[i..]) - 1
    decreases Rank(g, m), 2
  {
    var x := l[i];
    RankOfUser(g, x, m);
    var added := Submodules(g, x);
    AddedUsers(g, m, l, x, added);
    UsersBelow(g, x, added);
    CostOfBound(g, Rank(g, x), Rank(g, m), added);
    CostHead(g, Rank(g, m), l, i);
    CostOfConcat(g, Rank(g, m), l[i + 1..], added);
    assert (l + added)[i + 1..] == l[i + 1..] + added;
  }

  /** The loop of get_submodules at position i of the list l. */
  ghost predicate Growing(g: Table, m: string, l: seq<string>, i: nat, cost: nat)
    requires Acyclic(g)
  {
    && i <= |l| && UsersOnly(g, m, l) && Below(g, Rank(g, m), l[i..])
    && cost == CostOf(g, Rank(g, m), l[i..])
    && Grow(g, m, l, i, cost) == Submodules(g, m)
  }

  lemma GrowingStart(g: Table, m: string) returns (cost: nat)
    requires Acyclic(g)
    ensures Growing(g, m, Users(g, m), 0, cost)
  {
    DirectUsersOnly(g, m);
    UsersBelow(g, m, Users(g, m));
    cost := CostOf(g, Rank(g, m), Users(g, m));
    assert Users(g, m)[0..] == Users(g, m);
  }

  lemma NextIsLower(g: Table, m: string, l: seq<string>, i: nat, cost: nat)
    requires Acyclic(g) && Growing(g, m, l, i, cost) && i < |l|
    ensures Rank(g, l[i]) < Rank(g, m)
  {
    RankOfUser(g, l[i], m);
  }

  lemma {:induction false} GrowingStep(g: Table, m: string, l: seq<string>, i: nat, cost: nat, more: seq<string>)
    requires Acyclic(g) && Growing(g, m, l, i, cost) && i < |l| && more == Submodules(g, l[i])
    ensures cost > 0 && Growing(g, m, l + more, i + 1, cost - 1)
  {
    RankOfUser(g, l[i], m);
    VisitCosts(g, m, l, i);
  }

  lemma NoSubmodules(g: Table, m: string)
    requires Acyclic(g) && m !in g
    ensures Submodules(g, m) == []
  {
  }

  /** The finished list holds what it held before, and what each element still to
      be visited returns. */
  lemma {:induction false} GrowHolds(g: Table, m: string, l: seq<string>, i: nat, cost: nat)
    requires Acyclic(g) && UsersOnly(g, m, l) && i <= |l| && Below(g, Rank(g, m), l[i..])
    requires cost == CostOf(g, Rank(g, m), l[i..])
    ensures forall x :: x in l ==> x in Grow(g, m, l, i, cost)
    ensures forall j, x :: i <= j < |l| && x in Submodules(g, l[j]) ==> x in Grow(g, m, l, i, cost)
    decreases cost
  {
    if i < |l| {
      VisitCosts(g, m, l, i);
      var l' := l + Submodules(g, l[i]);
      GrowHolds(g, m, l', i + 1, cost - 1);
      forall j, x | i <= j < |l| && x in Submodules(g, l[j]) ensures x in Grow(g, m, l, i, cost) {
        if j == i {
          assert x in l';
        } else {
          assert l'[j] == l[j];
        }
      }
    }
  }

  lemma {:induction false} HasTransitiveUser(g: Table, m: string, x: string)
    requires Acyclic(g) && Uses(g, x, m)
    ensures x in Submodules(g, m)
    decreases Rank(g, m)
  {
    var u := FirstStep(g, x, m);
    DirectUsersOnly(g, m);
    UsersBelow(g, m, Users(g, m));
    GrowHolds(g, m, Users(g, m), 0, CostOf(g, Rank(g, m), Users(g, m)));
    if u != x {
      DirectUse(g, u, m);
      RankOfUser(g, u, m);
      HasTransitiveUser(g, u, x);
      var j :| 0 <= j < |Users(g, m)| && Users(g, m)[j] == u;
    }
  }

  /** On an acyclic graph the elements of the list are exactly the transitive users. */
  lemma SubmodulesAreTransitiveUsers(g: Table, m: string)
    requires Acyclic(g)
    ensures forall x :: x in Submodules(g, m) <==> x in TransitiveUsers(g, m)
  {
    forall x ensures x in Submodules(g, m) <==> x in TransitiveUsers(g, m) {
      UsesIsTransitiveUser(g, x, m);
      if Uses(g, x, m) {
        HasTransitiveUser(g, m, x);
      }
    }
  }

  // ----------------------------------------------------------- unload_module

  /** Only loaded modules are listed as users. */
  ghost predicate Consistent(g: Table) {
    forall m, u :: m in g && u in g[m].users ==> u in g
  }

  function Others(s: seq<string>, gone: set<string>): seq<string> {
    if s == [] then []
    else (if s[0] in gone then [] else [s[0]]) + Others(s[1..], gone)
  }

  /** The table after the modules in `gone` have been removed. */
  function Without(g: Table, gone: set<string>): Table {
    map m | m in g && m !in gone :: Info(Others(g[m].users, gone), g[m].outside)
  }

  /** No module that is left uses one that is gone. */
  ghost predicate Closed(g: Table, gone: set<string>) {
    forall m, u :: m in gone && m in g && u in g[m].users ==> u in gone
  }

  /** m with all that uses it. */
  ghost function Cone(g: Table, m: string): set<string> {
    {m} + TransitiveUsers(g, m)
  }

  lemma {:induction false} OthersElements(s: seq<string>, gone: set<string>, x: string)
    ensures x in Others(s, gone) <==> x in s && x !in gone
  {
    if s != [] {
      OthersElements(s[1..], gone, x);
    }
  }

  lemma {:induction false} OthersTwice(s: seq<string>, a: set<string>, b: set<string>)
    ensures Others(Others(s, a), b) == Others(s, a + b)
  {
    if s != [] {
      OthersTwice(s[1..], a, b);
      if s[0] !in a {
        assert Others(s, a) == [s[0]] + Others(s[1..], a);
        assert Others(s, a)[1..] == Others(s[1..], a);
      } else {
        assert Others(s, a) == Others(s[1..], a);
      }
    }
  }

  lemma {:induction false} OthersOfNone(s: seq<string>)
    ensures Others(s, {}) == s
  {
    if s != [] {
      OthersOfNone(s[1..]);
    }
  }

  lemma WithoutNone(g: Table)
    ensures Without(g, {}) == g
  {
    forall m | m in g ensures Others(g[m].users, {}) == g[m].users {
      OthersOfNone(g[m].users);
    }
  }

  lemma WithoutTwice(g: Table, a: set<string>, b: set<string>)
    ensures Without(Without(g, a), b) == Without(g, a + b)
  {
    forall m | m in g ensures Others(Others(g[m].users, a), b) == Others(g[m].users, a + b) {
      OthersTwice(g[m].users, a, b);
    }
  }

  lemma ConeOfUser(g: Table, u: string, m: string)
    requires Acyclic(g) && u in Users(g, m)
    ensures Cone(g, u) <= Cone(g, m) && m !in Cone(g, u)
  {
    forall x | x in Cone(g, u) ensures x in Cone(g, m) && x != m {
      DirectUse(g, u, m);
      if x != u {
        UsesTransitive(g, x, u, m);
      }
      UsesIsTransitiveUser(g, x, m);
    }
  }
}
