/** The module table of a running kernel and the procedures of client/base_utils.py
    that walk and empty it. */
module KernelModules {
  import opened ModuleGraph

  datatype Unloading = Returned | StillInUse(name: string)

  class Kernel {
    var table: Table
    ghost var origin: Table       // the table at the start
    ghost var gone: set<string>   // the modules removed since

    constructor (g: Table)
      ensures Valid() && table == origin == g && gone == {}
    {
      table, origin, gone := g, g, {};
      new;
      WithoutNone(g);
    }

    /** The table is the original one without what is gone, and nothing that is
        left uses anything that is gone. */
    ghost predicate Valid()
      reads this
    {
      table == Without(origin, gone) && gone <= origin.Keys && Closed(origin, gone)
    }

    /** get_submodules: the list of users, extended while it is gone through. */
    method GetSubmodules(name: string) returns (list: seq<string>)
      requires Acyclic(table)
      ensures list == Submodules(table, name)
      ensures forall x :: x in list <==> x in TransitiveUsers(table, name)
      decreases Rank(table, name), 1
    {
      SubmodulesAreTransitiveUsers(table, name);
      if name !in table {
        NoSubmodules(table, name);
        return [];
      }
      ghost var cost := GrowingStart(table, name);
      list := table[name].users;
      var i := 0;
      while i < |list|
        invariant Growing(table, name, list, i, cost)
        decreases cost
      {
        list := Visit(name, list, i, cost);
        i := i + 1;
        cost := cost - 1;
      }
    }

    /** One round of the loop: what the visited module returns is added to the list. */
    method Visit(name: string, list: seq<string>, i: nat, ghost cost: nat) returns (longer: seq<string>)
      requires Acyclic(table) && i < |list| && Growing(table, name, list, i, cost)
      ensures cost > 0 && Growing(table, name, longer, i + 1, cost - 1)
      decreases Rank(table, name), 0
    {
      NextIsLower(table, name, list, i, cost);
      var more := GetSubmodules(list[i]);
      GrowingStep(table, name, list, i, cost, more);
      longer := list + more;
    }

    /** modprobe -r: refused while the module is in use; otherwise the module is
        gone from the table and from the user lists. */
    method ModprobeRemove(name: string) returns (ok: bool)
      requires Valid()
      modifies this
      ensures Valid() && origin == old(origin)
      ensures ok <==> name in old(table) && old(table)[name].users == [] && old(table)[name].outside == 0
      ensures gone == if ok then old(gone) + {name} else old(gone)
    {
      ok := name in table && Used(table[name]) == 0;
      if ok {
        WithoutTwice(origin, gone, {name});
        RemovalKeepsClosed(origin, gone, name);
        table := Without(table, {name});
        gone := gone + {name};
      }
    }

    /** unload_module: the users first, then, if it is free, the module. */
    method UnloadModule(name: string) returns (r: Unloading)
      requires Valid() && Acyclic(origin)
      modifies this
      ensures Valid() && origin == old(origin) && Unloads(origin, old(gone), gone, name)
      ensures r.Returned? ==> Cone(origin, name) * origin.Keys <= gone
      ensures Consistent(origin) && Unreferenced(origin, old(gone), name) ==> r.Returned?
      decreases Rank(origin, name), 1
    {
      if name !in table {
        GoneWithUsers(origin, gone, name);
        return Returned;
      }
      var submodules := table[name].users;
      r := UnloadUsers(name, submodules);
      if !r.Returned? {
        return;
      }
      if name !in table {
        return Returned;
      }
      if Used(table[name]) != 0 {
        InUse(origin, old(gone), gone, name);
        return StillInUse(name);
      }
      Freed(origin, old(gone), gone, name);
      var _ := ModprobeRemove(name);
      r := Returned;
    }

    /** The loop of unload_module over the users it has read. */
    method UnloadUsers(name: string, submodules: seq<string>) returns (r: Unloading)
      requires Valid() && Acyclic(origin)
      requires name in origin && name !in gone && submodules == Others(origin[name].users, gone)
      modifies this
      ensures Valid() && origin == old(origin) && Unloads(origin, old(gone), gone, name) && name !in gone
      ensures r.Returned? ==> UsersGone(origin, gone, submodules)
      ensures Consistent(origin) && Unreferenced(origin, old(gone), name) ==> r.Returned?
      decreases Rank(origin, name), 0
    {
      r := Returned;
      for i := 0 to |submodules|
        invariant Valid() && origin == old(origin) && r.Returned?
        invariant Unloads(origin, old(gone), gone, name) && name !in gone
        invariant UsersGone(origin, gone, submodules[..i])
      {
        var u := submodules[i];
        ghost var gone1 := gone;
        OthersElements(origin[name].users, old(gone), u);
        UserIsBelow(origin, u, name);
        r := UnloadModule(u);
        UserUnloads(origin, old(gone), gone1, gone, u, name);
        if !r.Returned? {
          return;
        }
        MoreUsersGone(origin, gone1, gone, submodules, i);
      }
      assert submodules[..|submodules|] == submodules;
    }
  }

  /** All of `us` have been removed with everything that uses them. */
  ghost predicate UsersGone(g: Table, gone: set<string>, us: seq<string>) {
    forall i :: 0 <= i < |us| ==> Cone(g, us[i]) * g.Keys <= gone
  }

  lemma MoreUsersGone(g: Table, gone0: set<string>, gone1: set<string>, us: seq<string>, i: nat)
    requires i < |us| && gone0 <= gone1 && UsersGone(g, gone0, us[..i]) && Cone(g, us[i]) * g.Keys <= gone1
    ensures UsersGone(g, gone1, us[..i + 1])
  {
    var more := us[..i + 1];
    forall j | 0 <= j < |more| ensures Cone(g, more[j]) * g.Keys <= gone1 {
      if j < i {
        assert us[..i][j] == more[j];
      }
    }
  }

  lemma UserIsBelow(g: Table, u: string, m: string)
    requires Acyclic(g) && m in g && u in g[m].users
    ensures Rank(g, u) < Rank(g, m)
  {
    DirectUse(g, u, m);
    RankOfUser(g, u, m);
  }

  /** After its users are gone a module is in use only by an outside reference. */
  lemma InUse(g: Table, gone0: set<string>, gone1: set<string>, m: string)
    requires m in g && m !in gone1 && gone0 <= gone1 && UsersGone(g, gone1, Others(g[m].users, gone0))
    requires Others(g[m].users, gone1) != [] || g[m].outside != 0
    ensures !(Consistent(g) && Unreferenced(g, gone0, m))
  {
    if Consistent(g) {
      NoUserLeft(g, gone0, gone1, m);
    }
  }

  lemma Freed(g: Table, gone0: set<string>, gone1: set<string>, m: string)
    requires Unloads(g, gone0, gone1, m) && m in g && Others(g[m].users, gone1) == [] && g[m].outside == 0
    ensures Unloads(g, gone0, gone1 + {m}, m) && Cone(g, m) * g.Keys <= gone1 + {m}
  {
    RemovalKeepsClosed(g, gone1, m);
    GoneWithUsers(g, gone1 + {m}, m);
  }

  /** From `gone0` to `gone1`: only m and its users are removed, none that is
      referenced from outside, and nothing left uses anything removed. */
  ghost predicate Unloads(g: Table, gone0: set<string>, gone1: set<string>, m: string) {
    && Closed(g, gone1)
    && gone0 <= gone1 <= gone0 + Cone(g, m)
    && (forall x :: x in gone1 && x !in gone0 ==> x in g && g[x].outside == 0)
  }

  /** No loaded module among m and its users is referenced from outside. */
  ghost predicate Unreferenced(g: Table, gone: set<string>, m: string) {
    forall x :: x in Cone(g, m) && x in g && x !in gone ==> g[x].outside == 0
  }

  lemma {:induction false} UserUnloads(g: Table, gone0: set<string>, gone1: set<string>, gone2: set<string>, u: string,
                                       m: string)
    requires Acyclic(g) && u in Users(g, m)
    requires Unloads(g, gone0, gone1, m) && Unloads(g, gone1, gone2, u)
    ensures Unloads(g, gone0, gone2, m)
    ensures m in gone2 ==> m in gone1
    ensures Unreferenced(g, gone0, m) ==> Unreferenced(g, gone1, u)
  {
    ConeOfUser(g, u, m);
  }

  lemma {:induction false} GonePath(g: Table, gone: set<string>, m: string, p: seq<string>)
    requires Closed(g, gone) && m in gone && IsPath(g, m, p)
    ensures p[|p| - 1] in gone
    decreases |p|
  {
    if |p| > 1 {
      var q := p[1..];
      forall i | 0 < i < |q| ensures q[i] in Users(g, q[i - 1]) {
        assert q[i] == p[i + 1] && q[i - 1] == p[i];
      }
      GonePath(g, gone, p[0], q);
    }
  }

  /** A module that is not loaded, because it is gone or because it never was,
      has no loaded transitive user. */
  lemma GoneWithUsers(g: Table, gone: set<string>, m: string)
    requires Closed(g, gone) && (m in gone || m !in g)
    ensures Cone(g, m) * g.Keys <= gone
  {
    forall x | x in TransitiveUsers(g, m) && x in g ensures x in gone {
      var p :| IsPath(g, m, p) && p[|p| - 1] == x;
      GonePath(g, gone, m, p);
    }
  }

  /** With every listed user gone, the list is empty. */
  lemma {:induction false} OthersEmpty(s: seq<string>, gone: set<string>)
    requires forall x :: x in s ==> x in gone
    ensures Others(s, gone) == []
  {
    if s != [] {
      OthersEmpty(s[1..], gone);
    }
  }

  lemma NoUserLeft(g: Table, gone0: set<string>, gone1: set<string>, m: string)
    requires Consistent(g) && m in g && gone0 <= gone1
    requires UsersGone(g, gone1, Others(g[m].users, gone0))
    ensures Others(g[m].users, gone1) == []
  {
    forall u | u in g[m].users ensures u in gone1 {
      OthersElements(g[m].users, gone0, u);
      if u !in gone0 {
        var i :| 0 <= i < |Others(g[m].users, gone0)| && Others(g[m].users, gone0)[i] == u;
        assert u in Cone(g, u) * g.Keys;
      }
    }
    OthersEmpty(g[m].users, gone1);
  }

  /** Removing a module whose user list is empty leaves nothing that uses it. */
  lemma RemovalKeepsClosed(g: Table, gone: set<string>, m: string)
    requires Closed(g, gone) && m in g && Others(g[m].users, gone) == []
    ensures Closed(g, gone + {m})
  {
    forall u | u in g[m].users ensures u in gone {
      OthersElements(g[m].users, gone, u);
    }
  }

  /** unload_module from the start: it returns normally exactly when neither the
      module nor any transitive user is referenced from outside, and then exactly
      these are gone; whether it returns or raises, what is left is the old table
      without some of them, and uses nothing that is gone. */
  method Unload(g: Table, name: string) returns (k: Kernel, r: Unloading)
    requires Acyclic(g) && Consistent(g)
    ensures k.Valid() && k.origin == g && Unloads(g, {}, k.gone, name)
    ensures r.Returned? <==> Unreferenced(g, {}, name)
    ensures r.Returned? ==> k.gone == Cone(g, name) * g.Keys
    ensures Consistent(k.table)
  {
    k := new Kernel(g);
    r := k.UnloadModule(name);
    WithoutConsistent(g, k.gone);
  }

  lemma WithoutConsistent(g: Table, gone: set<string>)
    requires Consistent(g) && Closed(g, gone)
    ensures Consistent(Without(g, gone))
  {
    var h := Without(g, gone);
    forall m, u | m in h && u in h[m].users ensures u in h {
      OthersElements(g[m].users, gone, u);
    }
  }
}
