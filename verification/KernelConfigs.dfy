/** The nearest configuration to a kernel version, client/kernel_versions.py. */
module KernelConfigs {
  import opened Options
  import opened Sorting
  import opened Text
  import opened KernelVersions

  /** version_limit */
  function Limit(version: string, n: nat): string {
    Concat(Bits(version)[..if n <= |Bits(version)| then n else |Bits(version)|])
  }

  /** A limited version is the front of the version up to the n-th cut. */
  lemma LimitIsPrefix(version: string, n: nat)
    requires n <= Length(version)
    ensures version == Limit(version, n) + Concat(Bits(version)[n..])
    ensures Limit(version, Length(version)) == version
  {
    var bits := Bits(version);
    BitsConcat(version);
    assert bits == bits[..n] + bits[n..] && bits[..|bits|] == bits;
    ConcatBoth(bits[..n], bits[n..]);
  }

  lemma {:induction false} ConcatBoth(a: seq<string>, b: seq<string>)
    ensures Concat(a + b) == Concat(a) + Concat(b)
  {
    if a == [] {
      assert a + b == b;
    } else {
      assert (a + b)[1..] == a[1..] + b;
      ConcatBoth(a[1..], b);
      assert a[0] + (Concat(a[1..]) + Concat(b)) == a[0] + Concat(a[1..]) + Concat(b);
    }
  }

  /** version_len */
  function Length(version: string): nat {
    |Bits(version)|
  }

  lemma {:induction false} AlternatingOdd(ps: seq<string>)
    requires Alternating(ps)
    ensures |ps| % 2 == 1
  {
    if |ps| > 1 {
      AlternatingOdd(ps[2..]);
    }
  }

  /** Numerals and separators cut behind a separator, with another numeral there. */
  lemma {:induction false} CutWithNumeral(ps: seq<string>, n: nat, d: string)
    requires Alternating(ps) && n % 2 == 0 && n < |ps| && AllDigits(d)
    ensures Alternating(ps[..n] + [d]) && Concat(ps[..n] + [d]) == Concat(ps[..n]) + d
  {
    ConcatBoth(ps[..n], [d]);
    assert Concat([d]) == d + [] == d;
    if n == 0 {
      assert ps[..0] + [d] == [d];
    } else {
      var rest := ps[2..][..n - 2];
      CutWithNumeral(ps[2..], n - 2, d);
      assert ps[..n] + [d] == [ps[0], ps[1]] + (rest + [d]);
      AlternatingTwo(ps[0], ps[1], rest + [d]);
    }
  }

  /** The bits of a limited version. */
  lemma LimitBits(version: string, n: nat)
    requires n % 2 == 0 && n < Length(version)
    ensures Bits(Limit(version, n)) == Bits(version)[..n] + [[]]
  {
    BitsAlternate(version);
    CutWithNumeral(Bits(version), n, []);
    assert Limit(version, n) + [] == Limit(version, n);
    BitsUnique(Bits(version)[..n] + [[]]);
  }

  lemma CutTwice(bits: seq<string>, n: nat, m: nat)
    requires m <= n <= |bits|
    ensures (bits[..n] + [[]])[..m] == bits[..m]
  {
  }

  /** Limiting twice is limiting once, as the loop over lengths assumes. */
  lemma LimitAgain(version: string, n: nat, m: nat)
    requires n % 2 == 0 && m <= n < Length(version)
    ensures Limit(Limit(version, n), m) == Limit(version, m)
  {
    LimitBits(version, n);
    CutTwice(Bits(version), n, m);
  }

  // ----------------------------------------------------------- what is chosen

  /** A version of the list with its sort key and its position. */
  datatype Deco = Deco(key: string, index: nat, version: string)

  function DecoOf(versions: seq<string>, i: nat): Deco
    requires i < |versions|
  {
    Deco(Key(versions[i]), i, versions[i])
  }

  function Decorated(versions: seq<string>): seq<Deco> {
    seq(|versions|, i requires 0 <= i < |versions| => DecoOf(versions, i))
  }

  function Target(version: string, candidates: seq<string>): Deco {
    Deco(Key(version), |candidates|, version)
  }

  /** The order of the decorated list: by key, and by position between equal keys. */
  predicate Leq(x: Deco, y: Deco) {
    Less(x.key, y.key) || (x.key == y.key && x.index <= y.index)
  }

  /** The lengths that are tried, from the longest. */
  predicate Tried(version: string, length: nat) {
    1 < length < Length(version) && length % 2 == 0
  }

  /** The candidate has the version's first `length` bits and just one more. */
  function MatchesOf(version: string): (string, nat) -> bool {
    (candidate: string, length: nat) =>
      Tried(version, length) && Length(candidate) == length + 1 && Limit(candidate, length) == Limit(version, length)
  }

  lemma {:induction false} EvenBitIsNumeral(ps: seq<string>, n: nat)
    requires Alternating(ps) && n < |ps| && n % 2 == 0
    ensures AllDigits(ps[n])
  {
    if n > 0 {
      EvenBitIsNumeral(ps[2..], n - 2);
    }
  }

  lemma FrontMatches(version: string, length: nat, d: string)
    requires Tried(version, length) && AllDigits(d)
    ensures MatchesOf(version)(Limit(version, length) + d, length)
  {
    var candidate, front := Limit(version, length) + d, Bits(version)[..length];
    BitsAlternate(version);
    CutWithNumeral(Bits(version), length, d);
    BitsUnique(front + [d]);
    assert Concat(front) == Limit(version, length) && Bits(candidate) == front + [d];
    assert Bits(candidate)[..length] == front && Limit(candidate, length) == Concat(front);
    assert Length(candidate) == length + 1;
  }

  lemma MatchHasFront(version: string, candidate: string, length: nat) returns (d: string)
    requires MatchesOf(version)(candidate, length)
    ensures AllDigits(d) && candidate == Limit(version, length) + d
  {
    d := Bits(candidate)[length];
    BitsAlternate(candidate);
    EvenBitIsNumeral(Bits(candidate), length);
    LimitIsPrefix(candidate, length);
    assert Bits(candidate)[length..] == [d];
    assert Concat([d]) == d + [] == d;
  }

  /** A candidate matches at a length if and only if it is the front of the version
      up to there with one number, or none, behind. */
  lemma MatchesExactly(version: string, candidate: string, length: nat)
    requires Tried(version, length)
    ensures MatchesOf(version)(candidate, length)
            <==> exists d :: AllDigits(d) && candidate == Limit(version, length) + d
  {
    if MatchesOf(version)(candidate, length) {
      var d := MatchHasFront(version, candidate, length);
    }
    if d :| AllDigits(d) && candidate == Limit(version, length) + d {
      FrontMatches(version, length, d);
    }
  }

  /** A match whose key is not above the target's. */
  predicate Near(matches: (string, nat) -> bool, target: Deco, d: Deco, length: nat) {
    !Less(target.key, d.key) && matches(d.version, length)
  }

  ghost predicate NothingBeyond(matches: (string, nat) -> bool, target: Deco, listing: seq<Deco>, length: nat) {
    forall d, longer: nat :: d in listing && Near(matches, target, d, longer) ==> longer <= length
  }

  /** The last in order of those that match at the longest length at which any does. */
  ghost predicate Nearest(matches: (string, nat) -> bool, target: Deco, listing: seq<Deco>, d: Deco, length: nat) {
    && d in listing && Near(matches, target, d, length)
    && NothingBeyond(matches, target, listing, length)
    && (forall e :: e in listing && Near(matches, target, e, length) ==> Leq(e, d))
  }

  // --------------------------------------------------------- sorting the list

  lemma LeqIsTotal()
    ensures TotalOrder(Leq)
  {
    forall x, y ensures Leq(x, y) || Leq(y, x) {
      LessTotal(x.key, y.key);
    }
    forall x, y, z | Leq(x, y) && Leq(y, z) ensures Leq(x, z) {
      if Less(x.key, y.key) && Less(y.key, z.key) {
        LessTransitive(x.key, y.key, z.key);
      }
    }
  }

  /** The list in order: the same entries, each once. */
  ghost predicate Ordered(listing: seq<Deco>, sorted: seq<Deco>) {
    Sorted(sorted, Leq) && Distinct(sorted) && forall d :: d in sorted <==> d in listing
  }

  lemma {:induction false} SortOrders(listing: seq<Deco>)
    requires Distinct(listing)
    ensures Ordered(listing, Sort(listing, Leq))
  {
    LeqIsTotal();
    SortSorted(listing, Leq);
    SortDistinct(listing, Leq);
    SortElements(listing, Leq);
  }

  /** The list that is sorted: the candidates, and the target behind them. */
  lemma DecoratedList(version: string, candidates: seq<string>)
    ensures Decorated(candidates + [version]) == Decorated(candidates) + [Target(version, candidates)]
  {
    forall i | 0 <= i < |candidates| ensures DecoOf(candidates + [version], i) == DecoOf(candidates, i) {
      SameDeco(candidates + [version], candidates, i);
    }
    OneMore(Decorated(candidates + [version]), Decorated(candidates), Target(version, candidates));
  }

  lemma OneMore<T>(longer: seq<T>, s: seq<T>, x: T)
    requires |longer| == |s| + 1 && longer[|s|] == x && forall i :: 0 <= i < |s| ==> longer[i] == s[i]
    ensures longer == s + [x]
  {
  }

  lemma SameDeco(versions: seq<string>, others: seq<string>, i: nat)
    requires i < |versions| && i < |others| && versions[i] == others[i]
    ensures DecoOf(versions, i) == DecoOf(others, i)
  {
  }

  lemma DecoratedDistinct(versions: seq<string>)
    ensures Distinct(Decorated(versions))
    ensures forall d :: d in Decorated(versions) ==> d.index < |versions| && d.version in versions
  {
    var all := Decorated(versions);
    assert forall i :: 0 <= i < |all| ==> all[i].index == i && all[i].version == versions[i];
  }

  /** The entries below the target are those whose key is not above its own. */
  ghost predicate BelowTarget(target: Deco, listing: seq<Deco>, below: seq<Deco>) {
    Sorted(below, Leq) && forall d :: d in below <==> d in listing && !Less(target.key, d.key)
  }

  lemma TargetSplitsList(listing: seq<Deco>, target: Deco, sorted: seq<Deco>, n: nat)
    requires Ordered(listing + [target], sorted)
    requires forall d :: d in listing ==> d.index < target.index
    requires n < |sorted| && sorted[n] == target
    ensures BelowTarget(target, listing, sorted[..n])
  {
    var below := sorted[..n];
    forall d | d in below ensures d in listing && !Less(target.key, d.key) {
      var m :| 0 <= m < n && below[m] == d;
      assert sorted[m] in sorted && Leq(sorted[m], sorted[n]);
      LessTotal(d.key, target.key);
    }
    forall d | d in listing && !Less(target.key, d.key) ensures d in below {
      assert d in sorted;
      var m :| 0 <= m < |sorted| && sorted[m] == d;
      StandsBefore(sorted, n, m);
      assert below[m] == d;
    }
  }

  /** What does not sort behind the target stands before it. */
  lemma StandsBefore(sorted: seq<Deco>, n: nat, m: nat)
    requires Sorted(sorted, Leq) && n < |sorted| && m < |sorted|
    requires !Less(sorted[n].key, sorted[m].key) && sorted[m].index < sorted[n].index
    ensures m < n
  {
    assert !Leq(sorted[n], sorted[m]);
  }

  // ------------------------------------------------------------- the search

  /** version_choose_config */
  method VersionChooseConfig(version: string, candidates: seq<string>) returns (chosen: Option<string>)
    ensures version in candidates ==> chosen == Some(version)
    ensures version !in candidates && chosen.Some? ==>
              exists d, length: nat ::
                Nearest(MatchesOf(version), Target(version, candidates), Decorated(candidates), d, length)
                && d.version == chosen.value
    ensures version !in candidates && chosen.None? ==>
              NothingBeyond(MatchesOf(version), Target(version, candidates), Decorated(candidates), 0)
  {
    if version in candidates {
      return Some(version);
    }
    ghost var listing, target := Decorated(candidates), Target(version, candidates);
    DecoratedList(version, candidates);
    DecoratedDistinct(candidates);
    DecoratedDistinct(candidates + [version]);
    SortOrders(Decorated(candidates + [version]));
    var versions := Sort(Decorated(candidates + [version]), Leq);
    var n := FindTarget(version, listing, target, versions);
    TargetSplitsList(listing, target, versions, n);
    chosen := Search(version, listing, target, versions[..n]);
  }

  /** The loop that looks for the target from the end of the list. */
  method FindTarget(version: string, ghost listing: seq<Deco>, ghost target: Deco, versions: seq<Deco>) returns (n: nat)
    requires Ordered(listing + [target], versions) && target.version == version
    requires forall d :: d in listing ==> d.version != version
    ensures n < |versions| && versions[n] == target
  {
    assert target in listing + [target];
    ghost var at :| 0 <= at < |versions| && versions[at] == target;
    n := |versions| - 1;
    while versions[n].version != version
      invariant at <= n < |versions|
      decreases n
    {
      n := n - 1;
    }
    assert versions[n] in versions;
  }

  /** The loops over ever shorter prefixes and down the list below the target. */
  method Search(version: string, ghost listing: seq<Deco>, ghost target: Deco, below: seq<Deco>)
    returns (chosen: Option<string>)
    requires BelowTarget(target, listing, below)
    ensures chosen.Some? ==>
              exists d, length: nat ::
                Nearest(MatchesOf(version), target, listing, d, length) && d.version == chosen.value
    ensures chosen.None? ==> NothingBeyond(MatchesOf(version), target, listing, 0)
  {
    LongestLength(version, target, listing);
    var length := Length(version) - 1;
    var prefix := Limit(version, length);
    while length > 1
      invariant 0 <= length < Length(version) && length % 2 == 0
      invariant prefix == Limit(version, length)
      invariant NothingBeyond(MatchesOf(version), target, listing, length)
    {
      var o := NewestMatch(version, below, prefix, length);
      if o >= 0 {
        FoundNearest(MatchesOf(version), target, listing, below, o, length);
        return Some(below[o].version);
      }
      NextLength(version, target, listing, below, length);
      length := length - 2;
      prefix := Limit(prefix, length);
    }
    chosen := None;
  }

  lemma LongestLength(version: string, target: Deco, listing: seq<Deco>)
    ensures Length(version) % 2 == 1 && NothingBeyond(MatchesOf(version), target, listing, Length(version) - 1)
  {
    MatchLengths(version);
  }

  lemma NextLength(version: string, target: Deco, listing: seq<Deco>, below: seq<Deco>, length: nat)
    requires BelowTarget(target, listing, below) && Tried(version, length)
    requires NothingBeyond(MatchesOf(version), target, listing, length)
    requires forall k :: 0 <= k < |below| ==> !MatchesOf(version)(below[k].version, length)
    ensures NothingBeyond(MatchesOf(version), target, listing, length - 2)
    ensures Limit(Limit(version, length), length - 2) == Limit(version, length - 2)
  {
    MatchLengths(version);
    NothingHere(MatchesOf(version), target, listing, below, length);
    LimitAgain(version, length, length - 2);
  }

  lemma NothingHere(matches: (string, nat) -> bool, target: Deco, listing: seq<Deco>, below: seq<Deco>, length: nat)
    requires BelowTarget(target, listing, below) && length >= 2 && length % 2 == 0
    requires forall c, longer: nat :: matches(c, longer) ==> longer % 2 == 0
    requires NothingBeyond(matches, target, listing, length)
    requires forall k :: 0 <= k < |below| ==> !matches(below[k].version, length)
    ensures NothingBeyond(matches, target, listing, length - 2)
  {
    forall d, longer: nat | d in listing && Near(matches, target, d, longer) ensures longer <= length - 2 {
      assert d in below;
      assert longer != length;
    }
  }

  lemma MatchLengths(version: string)
    ensures Length(version) % 2 == 1
    ensures forall c, length: nat :: MatchesOf(version)(c, length) ==> 1 < length < Length(version) && length % 2 == 0
  {
    BitsAlternate(version);
    AlternatingOdd(Bits(version));
  }

  /** The inner loop: the last entry with this prefix and one more bit, or -1. */
  method NewestMatch(ghost version: string, below: seq<Deco>, prefix: string, length: nat) returns (o: int)
    requires Tried(version, length) && prefix == Limit(version, length)
    ensures -1 <= o < |below|
    ensures o >= 0 ==> MatchesOf(version)(below[o].version, length)
    ensures forall k :: o < k < |below| ==> !MatchesOf(version)(below[k].version, length)
  {
    o := |below| - 1;
    while o >= 0 && !(Length(below[o].version) == length + 1 && Limit(below[o].version, length) == prefix)
      invariant -1 <= o < |below|
      invariant forall k :: o < k < |below| ==> !MatchesOf(version)(below[k].version, length)
    {
      o := o - 1;
    }
  }

  lemma FoundNearest(matches: (string, nat) -> bool, target: Deco, listing: seq<Deco>, below: seq<Deco>, o: nat,
                     length: nat)
    requires BelowTarget(target, listing, below) && o < |below|
    requires NothingBeyond(matches, target, listing, length)
    requires matches(below[o].version, length)
    requires forall k :: o < k < |below| ==> !matches(below[k].version, length)
    ensures Nearest(matches, target, listing, below[o], length)
  {
    assert below[o] in below;
    forall e | e in listing && Near(matches, target, e, length) ensures Leq(e, below[o]) {
      assert e in below;
      var m :| 0 <= m < |below| && below[m] == e;
      assert m < o ==> Leq(below[m], below[o]);
    }
  }

  // ------------------------------------------------------ what it is good for

  /** The nearest candidate is one and the same, and there is none exactly when
      nothing matches. */
  lemma {:induction false} NearestIsUnique(version: string, candidates: seq<string>, d: Deco, length: nat, e: Deco,
                                           other: nat)
    requires Nearest(MatchesOf(version), Target(version, candidates), Decorated(candidates), d, length)
    requires Nearest(MatchesOf(version), Target(version, candidates), Decorated(candidates), e, other)
    ensures d == e && length == other
    ensures !NothingBeyond(MatchesOf(version), Target(version, candidates), Decorated(candidates), 0)
  {
    LessTotal(d.key, e.key);
    MatchLengths(version);
  }

  function Shown(versions: seq<Version>): seq<string> {
    seq(|versions|, k requires 0 <= k < |versions| => ShowVersion(versions[k]))
  }

  /** Among versions within the limits, the nearest is never later than the target,
      and no candidate that matches as far lies between the two. */
  lemma {:induction false} NearestIsChronological(target: Version, versions: seq<Version>, i: nat, length: nat, j: nat)
    requires Within(target, 99, 98) && forall k :: 0 <= k < |versions| ==> Within(versions[k], 99, 98)
    requires i < |versions| && j < |versions|
    requires Nearest(MatchesOf(ShowVersion(target)), Target(ShowVersion(target), Shown(versions)),
                     Decorated(Shown(versions)), DecoOf(Shown(versions), i), length)
    requires MatchesOf(ShowVersion(target))(ShowVersion(versions[j]), length)
    ensures !Older(target, versions[i])
    ensures !(Older(versions[i], versions[j]) && !Older(target, versions[j]))
  {
    ShownAt(versions, i);
    ShownAt(versions, j);
    KeysKeepOrder(target, versions[i]);
    KeysKeepOrder(target, versions[j]);
    KeysKeepOrder(versions[i], versions[j]);
    NearestByKey(MatchesOf(ShowVersion(target)), Target(ShowVersion(target), Shown(versions)),
                 Decorated(Shown(versions)), i, length, j);
  }

  lemma ShownAt(versions: seq<Version>, k: nat)
    requires k < |versions|
    ensures Decorated(Shown(versions))[k] == Deco(Key(ShowVersion(versions[k])), k, ShowVersion(versions[k]))
  {
  }

  lemma NearestByKey(matches: (string, nat) -> bool, target: Deco, listing: seq<Deco>, i: nat, length: nat, j: nat)
    requires i < |listing| && j < |listing|
    requires Nearest(matches, target, listing, listing[i], length) && matches(listing[j].version, length)
    ensures !Less(target.key, listing[i].key)
    ensures !Less(target.key, listing[j].key) ==> !Less(listing[i].key, listing[j].key)
  {
    LessTotal(listing[i].key, listing[j].key);
    assert listing[j] in listing;
    assert !Less(target.key, listing[j].key) ==> Leq(listing[j], listing[i]);
  }
}
