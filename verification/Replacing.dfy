/** str.replace and str.split for non-empty patterns: leftmost, non-overlapping. */
module Replacing {
  import opened Sequences

  function Replace(s: string, pat: string, rep: string): string
    requires pat != []
    decreases |s|
  {
    if |s| < |pat| then s
    else if s[..|pat|] == pat then rep + Replace(s[|pat|..], pat, rep)
    else [s[0]] + Replace(s[1..], pat, rep)
  }

  /** s.split(pat) */
  function Pieces(s: string, pat: string): (ps: seq<string>)
    requires pat != []
    ensures ps != []
    decreases |s|
  {
    if |s| < |pat| then [s]
    else if s[..|pat|] == pat then [[]] + Pieces(s[|pat|..], pat)
    else
      var rest := Pieces(s[1..], pat);
      [[s[0]] + rest[0]] + rest[1..]
  }

  /** rep.join(ps) */
  function JoinWith(ps: seq<string>, rep: string): string {
    if ps == [] then []
    else if |ps| == 1 then ps[0]
    else ps[0] + rep + JoinWith(ps[1..], rep)
  }

  /** pat in s */
  predicate Has(s: string, pat: string)
    requires pat != []
  {
    |Pieces(s, pat)| > 1
  }

  lemma {:induction false} ReplaceIsJoin(s: string, pat: string, rep: string)
    requires pat != []
    ensures Replace(s, pat, rep) == JoinWith(Pieces(s, pat), rep)
    decreases |s|
  {
    if |s| >= |pat| {
      if s[..|pat|] == pat {
        ReplaceIsJoin(s[|pat|..], pat, rep);
        var rest := Pieces(s[|pat|..], pat);
        assert ([[]] + rest)[1..] == rest;
        assert [] + rep + JoinWith(rest, rep) == rep + JoinWith(rest, rep);
      } else {
        ReplaceIsJoin(s[1..], pat, rep);
        JoinOnto([s[0]], Pieces(s[1..], pat), rep);
      }
    }
  }

  lemma JoinOnto(x: string, ps: seq<string>, rep: string)
    requires ps != []
    ensures JoinWith([x + ps[0]] + ps[1..], rep) == x + JoinWith(ps, rep)
  {
    var qs := [x + ps[0]] + ps[1..];
    assert qs[1..] == ps[1..];
    if |ps| > 1 {
      assert (x + ps[0]) + rep + JoinWith(ps[1..], rep) == x + (ps[0] + rep + JoinWith(ps[1..], rep));
    }
  }

  /** Splitting and joining with the same string changes nothing. */
  lemma {:induction false} JoinPieces(s: string, pat: string)
    requires pat != []
    ensures JoinWith(Pieces(s, pat), pat) == s
    decreases |s|
  {
    if |s| >= |pat| {
      if s[..|pat|] == pat {
        JoinPieces(s[|pat|..], pat);
        var rest := Pieces(s[|pat|..], pat);
        assert ([[]] + rest)[1..] == rest;
        assert [] + pat + JoinWith(rest, pat) == pat + s[|pat|..] == s;
      } else {
        JoinPieces(s[1..], pat);
        JoinOnto([s[0]], Pieces(s[1..], pat), pat);
        assert [s[0]] + s[1..] == s;
      }
    }
  }

  predicate At(s: string, pat: string, k: nat) {
    k + |pat| <= |s| && s[k..k + |pat|] == pat
  }

  /** `pat in s` in the words of positions. */
  lemma {:induction false} HasAt(s: string, pat: string)
    requires pat != []
    ensures Has(s, pat) <==> exists k :: At(s, pat, k)
    decreases |s|
  {
    if |s| >= |pat| {
      assert s[0..0 + |pat|] == s[..|pat|];
      if s[..|pat|] == pat {
        assert At(s, pat, 0);
      } else {
        HasAt(s[1..], pat);
        AtMoves(s, pat);
      }
    }
  }

  lemma AtShift(s: string, pat: string, k: nat)
    requires s != []
    ensures At(s[1..], pat, k) <==> At(s, pat, k + 1)
  {
    if k + 1 + |pat| <= |s| {
      assert s[1..][k..k + |pat|] == s[k + 1..k + 1 + |pat|];
    }
  }

  lemma AtMoves(s: string, pat: string)
    requires s != [] && !At(s, pat, 0)
    ensures (exists k :: At(s[1..], pat, k)) <==> (exists k :: At(s, pat, k))
  {
    if k: nat :| At(s, pat, k) {
      AtShift(s, pat, k - 1);
      assert At(s[1..], pat, k - 1);
    }
    if k: nat :| At(s[1..], pat, k) {
      AtShift(s, pat, k);
      assert At(s, pat, k + 1);
    }
  }

  /** The pattern's first character occurs in it only once, so that it overlaps
      no shifted copy of itself. */
  predicate Unbordered(pat: string) {
    pat != [] && forall i :: 0 < i < |pat| ==> pat[i] != pat[0]
  }

  /** Such a pattern cannot begin before one of its occurrences and reach into it. */
  lemma NoStraddle(p: string, pat: string, rest: string)
    requires Unbordered(pat) && p != []
    ensures (p + pat + rest)[..|pat|] == pat <==> |p| >= |pat| && p[..|pat|] == pat
  {
    var s := p + pat + rest;
    if |p| >= |pat| {
      assert s[..|pat|] == p[..|pat|];
    } else {
      assert s[|p|] == pat[0];
      assert s[..|pat|][|p|] == pat[0];
    }
  }

  /** For such a pattern, splitting works on both sides of an occurrence apart. */
  lemma {:induction false} PiecesAround(p: string, pat: string, rest: string)
    requires Unbordered(pat)
    ensures Pieces(p + pat + rest, pat) == Pieces(p, pat) + Pieces(rest, pat)
    decreases |p|
  {
    if p == [] {
      assert p + pat + rest == pat + rest;
    } else {
      NoStraddle(p, pat, rest);
      if |p| >= |pat| && p[..|pat|] == pat {
        PiecesAround(p[|pat|..], pat, rest);
        AfterMatch(p, pat, rest);
        Assoc([[]], Pieces(p[|pat|..], pat), Pieces(rest, pat));
      } else {
        PiecesAround(p[1..], pat, rest);
        AfterMiss(p, pat, rest);
        FirstLonger(p[0], Pieces(p[1..], pat), Pieces(rest, pat));
      }
    }
  }

  lemma AfterMatch(p: string, pat: string, rest: string)
    requires pat != [] && |p| >= |pat| && p[..|pat|] == pat
    ensures Pieces(p + pat + rest, pat) == [[]] + Pieces(p[|pat|..] + pat + rest, pat)
    ensures Pieces(p, pat) == [[]] + Pieces(p[|pat|..], pat)
  {
    var s := p + pat + rest;
    assert s[..|pat|] == pat && s[|pat|..] == p[|pat|..] + pat + rest;
  }

  lemma AfterMiss(p: string, pat: string, rest: string)
    requires pat != [] && p != [] && !(|p| >= |pat| && p[..|pat|] == pat) && (p + pat + rest)[..|pat|] != pat
    ensures var more := Pieces(p[1..] + pat + rest, pat);
            Pieces(p + pat + rest, pat) == [[p[0]] + more[0]] + more[1..]
    ensures Pieces(p, pat) == [[p[0]] + Pieces(p[1..], pat)[0]] + Pieces(p[1..], pat)[1..]
  {
    assert (p + pat + rest)[1..] == p[1..] + pat + rest;
    ShortPieces(p, pat);
  }

  lemma FirstLonger(c: char, a: seq<string>, b: seq<string>)
    requires a != []
    ensures [[c] + (a + b)[0]] + (a + b)[1..] == ([[c] + a[0]] + a[1..]) + b
  {
  }

  lemma {:induction false} ShortPieces(p: string, pat: string)
    requires pat != [] && p != [] && !(|p| >= |pat| && p[..|pat|] == pat)
    ensures Pieces(p, pat) == [[p[0]] + Pieces(p[1..], pat)[0]] + Pieces(p[1..], pat)[1..]
  {
    if |p| < |pat| {
      assert [p[0]] + p[1..] == p;
    }
  }

  /** Each of the strings with the pattern replaced. */
  function ReplaceEach(ps: seq<string>, pat: string, rep: string): seq<string>
    requires pat != []
  {
    if ps == [] then [] else [Replace(ps[0], pat, rep)] + ReplaceEach(ps[1..], pat, rep)
  }

  lemma {:induction false} JoinConcat(a: seq<string>, b: seq<string>, rep: string)
    requires a != [] && b != []
    ensures JoinWith(a + b, rep) == JoinWith(a, rep) + rep + JoinWith(b, rep)
  {
    assert (a + b)[1..] == a[1..] + b;
    if |a| > 1 {
      JoinConcat(a[1..], b, rep);
      assert a[0] + rep + (JoinWith(a[1..], rep) + rep + JoinWith(b, rep))
          == (a[0] + rep + JoinWith(a[1..], rep)) + rep + JoinWith(b, rep);
    } else {
      assert a[1..] + b == b;
    }
  }

  /** In a text whose parts are joined by the pattern, replacing the pattern
      replaces the joints, and beyond them only what is inside a part. */
  lemma {:induction false} ReplaceJoined(ps: seq<string>, pat: string, rep: string)
    requires Unbordered(pat) && ps != []
    ensures Replace(JoinWith(ps, pat), pat, rep) == JoinWith(ReplaceEach(ps, pat, rep), rep)
  {
    if |ps| == 1 {
      assert ReplaceEach(ps, pat, rep) == [Replace(ps[0], pat, rep)] + [];
    } else {
      var rest := JoinWith(ps[1..], pat);
      ReplaceIsJoin(ps[0] + pat + rest, pat, rep);
      ReplaceIsJoin(ps[0], pat, rep);
      ReplaceIsJoin(rest, pat, rep);
      PiecesAround(ps[0], pat, rest);
      JoinConcat(Pieces(ps[0], pat), Pieces(rest, pat), rep);
      ReplaceJoined(ps[1..], pat, rep);
      var each := ReplaceEach(ps, pat, rep);
      assert each[1..] == ReplaceEach(ps[1..], pat, rep) && each[1..] != [];
    }
  }

  lemma {:induction false} ReplaceNothing(s: string, pat: string, rep: string)
    requires pat != [] && !Has(s, pat)
    ensures Replace(s, pat, rep) == s
  {
    ReplaceIsJoin(s, pat, rep);
    JoinPieces(s, pat);
  }
}
