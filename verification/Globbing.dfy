/** File name patterns as glob and fnmatch read them. */
module Globbing {

  /** has_magic: a component without these characters is taken literally. */
  predicate Magic(s: string) {
    '*' in s || '?' in s || '[' in s
  }

  /** Where the class that starts behind a '[' ends, if it does. */
  function ClassEnd(s: string): (j: nat)
    ensures j <= |s|
    ensures j < |s| ==> j > 0 && s[j] == ']'
  {
    var sign := if s != [] && s[0] == '!' then 1 else 0;
    NextBracket(s, if |s| > sign && s[sign] == ']' then sign + 1 else sign)
  }

  function NextBracket(s: string, i: nat): (j: nat)
    ensures j <= |s|
    ensures j < |s| ==> i <= j && s[j] == ']'
    decreases |s| - i
  {
    if i >= |s| then |s| else if s[i] == ']' then i else NextBracket(s, i + 1)
  }

  /** The characters and ranges of a class. */
  predicate InItems(items: string, c: char) {
    if items == [] then false
    else if |items| >= 3 && items[1] == '-' then items[0] <= c <= items[2] || InItems(items[3..], c)
    else items[0] == c || InItems(items[1..], c)
  }

  predicate InClass(cls: string, c: char) {
    if cls != [] && cls[0] == '!' then !InItems(cls[1..], c) else InItems(cls, c)
  }

  /** fnmatch */
  predicate FnMatch(pat: string, s: string)
    decreases |pat| + |s|
  {
    if pat == [] then s == []
    else if pat[0] == '*' then FnMatch(pat[1..], s) || (s != [] && FnMatch(pat, s[1..]))
    else if s == [] then false
    else
      var j := ClassEnd(pat[1..]);
      if pat[0] == '[' && j < |pat| - 1 then InClass(pat[1..][..j], s[0]) && FnMatch(pat[j + 2..], s[1..])
      else (pat[0] == '?' || pat[0] == s[0]) && FnMatch(pat[1..], s[1..])
  }

  /** A range that runs backwards. */
  predicate BadItems(items: string) {
    if items == [] then false
    else if |items| >= 3 && items[1] == '-' then items[0] > items[2] || BadItems(items[3..])
    else BadItems(items[1..])
  }

  /** The pattern holds a class that cannot be compiled. */
  predicate BadPattern(pat: string)
    decreases |pat|
  {
    if pat == [] then false
    else
      var j := ClassEnd(pat[1..]);
      if pat[0] == '[' && j < |pat| - 1
      then BadItems(if pat[1] == '!' then pat[1..][1..j] else pat[1..][..j]) || BadPattern(pat[j + 2..])
      else BadPattern(pat[1..])
  }

  /** A name that starts with a dot is only matched by a pattern that does. */
  predicate Hidden(name: string) {
    name != [] && name[0] == '.'
  }

  /** One component of a path against one of the pattern. */
  predicate Component(pat: string, name: string) {
    if Magic(pat) then FnMatch(pat, name) && (Hidden(pat) || !Hidden(name)) else pat == name
  }

  /** Each component of a directory against those of the pattern. */
  predicate Components(pats: seq<string>, names: seq<string>) {
    |pats| == |names| && forall i :: 0 <= i < |pats| ==> Component(pats[i], names[i])
  }

  /** Whether the pattern "every name in dir" finds c. */
  predicate FoundBy(dir: seq<string>, c: seq<string>) {
    c != [] && Components(dir, c[..|c| - 1]) && !Hidden(c[|c| - 1])
  }

  predicate Plain(dir: seq<string>) {
    forall i :: 0 <= i < |dir| ==> !Magic(dir[i])
  }

  /** A plain path finds its own children with visible names, and nothing else. */
  lemma PlainFinds(dir: seq<string>, c: seq<string>)
    requires Plain(dir)
    ensures FoundBy(dir, c) <==> c != [] && c[..|c| - 1] == dir && !Hidden(c[|c| - 1])
  {
    if c != [] && Components(dir, c[..|c| - 1]) {
      assert forall i :: 0 <= i < |dir| ==> dir[i] == c[..|c| - 1][i];
    }
  }

  // ------------------------------------------------- what patterns stand for

  /** Text without pattern characters stands for itself. */
  lemma {:induction false} LiteralMatches(text: string, pat: string, s: string)
    requires !Magic(text)
    ensures FnMatch(text + pat, s) <==> text <= s && FnMatch(pat, s[|text|..])
    ensures pat == [] ==> (FnMatch(text + pat, s) <==> s == text)
  {
    if text == [] {
      assert text + pat == pat && s[0..] == s;
    } else {
      assert (text + pat)[1..] == text[1..] + pat && (text + pat)[0] == text[0];
      if s != [] {
        LiteralMatches(text[1..], pat, s[1..]);
        assert |s| >= |text| ==> s[1..][|text| - 1..] == s[|text|..];
        assert text <= s <==> text[0] == s[0] && text[1..] <= s[1..];
      }
    }
  }

  /** A star stands for any text. */
  lemma {:induction false} StarMatches(pat: string, s: string)
    ensures FnMatch("*" + pat, s) <==> exists k :: 0 <= k <= |s| && FnMatch(pat, s[k..])
  {
    var star := "*" + pat;
    assert star[0] == '*' && star[1..] == pat && s[0..] == s;
    if s != [] {
      StarMatches(pat, s[1..]);
      assert forall k :: 0 <= k < |s| ==> s[1..][k..] == s[k + 1..];
      if FnMatch(star, s[1..]) {
        var k :| 0 <= k <= |s[1..]| && FnMatch(pat, s[1..][k..]);
        assert FnMatch(pat, s[k + 1..]);
      }
      if k :| 0 < k <= |s| && FnMatch(pat, s[k..]) {
        assert FnMatch(pat, s[1..][k - 1..]);
      }
    }
  }

  /** A question mark stands for any one character. */
  lemma OneMatches(pat: string, s: string)
    ensures FnMatch("?" + pat, s) <==> s != [] && FnMatch(pat, s[1..])
  {
    var one := "?" + pat;
    assert one[0] == '?' && one[1..] == pat;
  }

  lemma {:induction false} BracketAt(cls: string, more: string, i: nat)
    requires ']' !in cls && i <= |cls|
    ensures NextBracket(cls + "]" + more, i) == |cls|
    decreases |cls| - i
  {
    if i < |cls| {
      assert (cls + "]" + more)[i] == cls[i];
      BracketAt(cls, more, i + 1);
    }
  }

  lemma ClassEndsAt(cls: string, more: string)
    requires cls != [] && ']' !in cls && cls != "!"
    ensures ClassEnd(cls + "]" + more) == |cls|
  {
    var s := cls + "]" + more;
    var sign := if cls[0] == '!' then 1 else 0;
    assert s[0] == cls[0];
    if sign < |cls| {
      assert s[sign] == cls[sign];
    }
    BracketAt(cls, more, sign);
  }

  /** A class stands for one of its characters. */
  lemma ClassMatches(cls: string, pat: string, s: string)
    requires cls != [] && ']' !in cls && cls != "!"
    ensures FnMatch("[" + (cls + "]" + pat), s) <==> s != [] && InClass(cls, s[0]) && FnMatch(pat, s[1..])
    ensures BadPattern("[" + (cls + "]" + pat)) <==>
            BadItems(if cls[0] == '!' then cls[1..] else cls) || BadPattern(pat)
  {
    var whole := "[" + (cls + "]" + pat);
    assert whole[0] == '[' && whole[1..] == cls + "]" + pat;
    ClassEndsAt(cls, pat);
    assert whole[1..][..|cls|] == cls;
    assert whole[|cls| + 2..] == pat;
    assert whole[1] == cls[0] && (cls[0] == '!' ==> whole[1..][1..|cls|] == cls[1..]);
  }

  lemma {:induction false} NoBracket(s: string, i: nat)
    requires ']' !in s
    ensures NextBracket(s, i) == |s|
    decreases |s| - i
  {
    if i < |s| {
      NoBracket(s, i + 1);
    }
  }

  /** A bracket that is never closed stands for itself. */
  lemma LoneBracketMatches(pat: string, s: string)
    requires ']' !in pat
    ensures FnMatch("[" + pat, s) <==> s != [] && s[0] == '[' && FnMatch(pat, s[1..])
  {
    var whole := "[" + pat;
    assert whole[0] == '[' && whole[1..] == pat;
    NoBracket(pat, if pat != [] && pat[0] == '!' then 1 else 0);
  }

  /** The characters listed, or with an exclamation mark in front all others. */
  lemma {:induction false} ListedCharacters(items: string, c: char)
    requires '-' !in items
    ensures InItems(items, c) <==> c in items
    ensures InClass("!" + items, c) <==> c !in items
    ensures items == [] || items[0] != '!' ==> (InClass(items, c) <==> c in items)
  {
    assert ("!" + items)[0] == '!' && ("!" + items)[1..] == items;
    if items != [] {
      ListedCharacters(items[1..], c);
      assert items == [items[0]] + items[1..];
    }
  }

  /** A range lists all characters from one to another, and makes the pattern
      unreadable if it runs backwards. */
  lemma RangeListed(lo: char, hi: char, more: string, c: char)
    ensures InItems([lo, '-', hi] + more, c) <==> lo <= c <= hi || InItems(more, c)
    ensures BadItems([lo, '-', hi] + more) <==> lo > hi || BadItems(more)
  {
    assert ([lo, '-', hi] + more)[3..] == more;
  }

  /** A class does not match itself. */
  lemma ClassIsNotItself()
    ensures Magic("a[b]") && FnMatch("a[b]", "ab") && !FnMatch("a[b]", "a[b]") && !BadPattern("a[b]")
  {
    var cls := "[b]";
    assert "a[b]"[1..] == cls && cls[1..] == "b]" && "b]"[..1] == "b" && cls[3..] == [];
    assert ClassEnd("b]") == NextBracket("b]", 0) == NextBracket("b]", 1) == 1;
    assert "b"[1..] == [];
    assert InItems("b", 'b') && !InItems("b", '[');
    assert "ab"[1..] == "b";
    assert FnMatch(cls, "b") && !FnMatch(cls, cls);
  }
}
