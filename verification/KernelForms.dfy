/** Keys of versions behind a text, as in "pathX2.6.1-rc1", and of numbered builds
    of a version, as in "2.6.18-smp-220.0_rc2". */
module KernelForms {
  import opened Options
  import opened Sequences
  import opened Text
  import opened KernelVersions

  // --------------------------------------------------------- a text in front

  lemma InsertBehind(t: string, bits: seq<string>, n: nat, x: string, y: string)
    requires n <= |bits|
    ensures InsertTwo([[], t] + bits, n + 2, x, y) == [[], t] + InsertTwo(bits, n, x, y)
  {
    InsertedTwo(bits, n, x, y);
    InsertedTwo([[], t] + bits, n + 2, x, y);
    assert ([[], t] + bits)[..n + 2] == [[], t] + bits[..n];
    assert ([[], t] + bits)[n + 2..] == bits[n..];
    Assoc([[], t], bits[..n], [x, y]);
    Assoc([[], t], bits[..n] + [x, y], bits[n..]);
  }

  lemma TrailerBehind(t: string, bits: seq<string>)
    requires bits != [] && bits[0] != []
    ensures WithTrailer([[], t] + bits) == [[], t] + WithTrailer(bits)
    ensures WithTrailer(bits)[0] == bits[0]
  {
    var all := [[], t] + bits;
    assert |all| == |bits| + 2 && all[0] == [];
    if |bits| >= 9 {
      assert |bits| > 9 ==> all[11] == bits[9];
      InsertBehind(t, bits, 9, "_rc", "99");
      InsertedTwo(bits, 9, "_rc", "99");
    }
  }

  lemma InsertPast(bits: seq<string>, n: nat, x: string, y: string)
    requires n > |bits|
    ensures InsertTwo(bits, n, x, y) == bits + [x, y]
  {
    AppendTwo(bits, x, y);
  }

  lemma CandidateBehind(t: string, bits: seq<string>)
    requires bits != [] && bits[0] != []
    ensures WithCandidate([[], t] + bits) == [[], t] + WithCandidate(bits)
  {
    var all := [[], t] + bits;
    assert |all| == |bits| + 2 && all[0] == [];
    if |bits| >= 5 {
      assert |bits| > 5 ==> all[7] == bits[5];
      InsertBehind(t, bits, 5, "-rc", "99");
    } else {
      InsertPast(bits, 5, "-rc", "99");
      InsertPast([[], t] + bits, 7, "-rc", "99");
      Assoc([[], t], bits, ["-rc", "99"]);
    }
  }

  /** A text without digits in front of a text that starts with a number goes
      into the key as it is, and changes nothing else of it. */
  lemma KeyBehindText(t: string, s: string)
    requires NonDigits(t) && s != [] && IsDigit(s[0])
    ensures Key(t + s) == t + Key(s)
  {
    var bits := Bits(s);
    BitsNonDigits(t, s);
    BitsAlternate(s);
    TrailerBehind(t, bits);
    CandidateBehind(t, WithTrailer(bits));
    PadTwo([], t, WithCandidate(WithTrailer(bits)));
  }

  /** So versions behind one text are ordered as they are without it. */
  lemma PrefixedKeepOrder(t: string, v: Version, w: Version)
    requires NonDigits(t) && Within(v, 99, 98) && Within(w, 99, 98)
    ensures Less(Key(t + ShowVersion(v)), Key(t + ShowVersion(w))) <==> Older(v, w)
  {
    ShowStartsWithDigit(v);
    ShowStartsWithDigit(w);
    KeyBehindText(t, ShowVersion(v));
    KeyBehindText(t, ShowVersion(w));
    LessSame(t, Key(ShowVersion(v)), Key(ShowVersion(w)));
    KeysKeepOrder(v, w);
  }

  lemma ShowStartsWithDigit(v: Version)
    ensures ShowVersion(v) != [] && IsDigit(ShowVersion(v)[0])
  {
    ShowValue(v.a);
    assert ShowVersion(v)[0] == Show(v.a)[0];
  }

  // --------------------------------------------------------- numbered builds

  /** Build d.e, or a candidate for it, of the variant `tag` of version a.b.c. */
  datatype Build = Build(a: nat, b: nat, c: nat, tag: string, d: nat, e: nat, rc: Option<nat>)

  predicate IsTag(tag: string) {
    NonDigits(tag) && tag != "-rc"
  }

  function BuildParts(v: Build): seq<string> {
    [Show(v.a), "."] + ([Show(v.b), "."] + ([Show(v.c), v.tag]
    + ([Show(v.d), "."] + ([Show(v.e)] + Suffix("_rc", v.rc)))))
  }

  function ShowBuild(v: Build): string {
    Concat(BuildParts(v))
  }

  lemma BuildAlternates(v: Build)
    requires IsTag(v.tag)
    ensures Alternating(BuildParts(v))
  {
    ShowValue(v.a);
    ShowValue(v.b);
    ShowValue(v.c);
    ShowValue(v.d);
    ShowValue(v.e);
    if v.rc.Some? {
      ShowValue(v.rc.value);
    }
    var end := [Show(v.e)] + Suffix("_rc", v.rc);
    assert Alternating(end) && end[0] == Show(v.e);
    AlternatingTwo(Show(v.d), ".", end);
    AlternatingTwo(Show(v.c), v.tag, [Show(v.d), "."] + end);
    AlternatingTwo(Show(v.b), ".", [Show(v.c), v.tag] + ([Show(v.d), "."] + end));
    AlternatingTwo(Show(v.a), ".", [Show(v.b), "."] + ([Show(v.c), v.tag] + ([Show(v.d), "."] + end)));
  }

  /** The numerals and separators after both insertions. */
  lemma BuildCompleted(first: seq<string>, tag: string, last: seq<string>, rc: seq<string>)
    requires |first| == 5 && first[0] != [] && tag != "-rc" && |last| == 3
    requires rc == [] || (|rc| == 2 && rc[0] == "_rc")
    ensures WithCandidate(WithTrailer(first + ([tag] + (last + rc))))
            == first + (["-rc", "99"] + ([tag] + (last + if rc == [] then ["_rc", "99"] else rc)))
  {
    var all := first + ([tag] + (last + rc));
    var full := first + ([tag] + (last + if rc == [] then ["_rc", "99"] else rc));
    if rc == [] {
      InsertedTwo(all, 9, "_rc", "99");
      assert all[..9] == all && all[9..] == [];
      assert all + ["_rc", "99"] + [] == full;
    } else {
      assert all[9] == rc[0];
    }
    assert WithTrailer(all) == full && full[5] == tag && full[0] == first[0];
    InsertedTwo(full, 5, "-rc", "99");
    assert full[..5] == first;
    assert full[5..] == [tag] + (last + if rc == [] then ["_rc", "99"] else rc);
    Assoc(first, ["-rc", "99"], full[5..]);
  }

  function BuildKey(v: Build): string {
    Two(v.a) + ("." + (Two(v.b) + ("." + (Two(v.c) + ("-rc" + ("99" + (v.tag + (Two(v.d) + ("." + BuildEnd(v))))))))))
  }

  function BuildEnd(v: Build): string {
    Two(v.e) + ("_rc" + Two(Rank(v.rc)))
  }

  function BuildTail(v: Build): seq<string> {
    var n := if v.rc.None? then "99" else Show(v.rc.value);
    ["99", v.tag] + ([Show(v.d), "."] + ([Show(v.e), "_rc"] + [n]))
  }

  function First(v: Build): seq<string> {
    [Show(v.a), ".", Show(v.b), ".", Show(v.c)]
  }

  function Last(v: Build): seq<string> {
    [Show(v.d), ".", Show(v.e)]
  }

  lemma FlattenFive(a: string, b: string, c: string, sep: string, tag: string, rest: seq<string>)
    ensures [a, sep] + ([b, sep] + ([c, tag] + rest)) == [a, sep, b, sep, c] + ([tag] + rest)
  {
  }

  lemma FlattenThree(d: string, e: string, sep: string, rest: seq<string>)
    ensures [d, sep] + ([e] + rest) == [d, sep, e] + rest
  {
  }

  lemma FlattenPair<T>(x: T, y: T, rest: seq<T>)
    ensures [x, y] + rest == [x] + ([y] + rest)
  {
  }

  lemma PartsFlat(v: Build)
    ensures BuildParts(v) == First(v) + ([v.tag] + (Last(v) + Suffix("_rc", v.rc)))
  {
    var rest := Suffix("_rc", v.rc);
    FlattenThree(Show(v.d), Show(v.e), ".", rest);
    FlattenFive(Show(v.a), Show(v.b), Show(v.c), ".", v.tag, [Show(v.d), "."] + ([Show(v.e)] + rest));
  }

  lemma TailFlat(v: Build, n: string)
    ensures [Show(v.d), "."] + ([Show(v.e), "_rc"] + [n]) == Last(v) + ["_rc", n]
  {
  }

  lemma RebuiltFirst(v: Build, n: string, rest: seq<string>)
    ensures Rebuilt(Show(v.a), Show(v.b), Show(v.c), [n] + rest) == First(v) + (["-rc", n] + rest)
  {
    FlattenPair("-rc", n, rest);
    FlattenFive(Show(v.a), Show(v.b), Show(v.c), ".", "-rc", [n] + rest);
  }

  lemma BuildRebuilt(v: Build)
    requires IsTag(v.tag)
    ensures WithCandidate(WithTrailer(BuildParts(v))) == Rebuilt(Show(v.a), Show(v.b), Show(v.c), BuildTail(v))
  {
    ShowValue(v.a);
    var n := if v.rc.None? then "99" else Show(v.rc.value);
    PartsFlat(v);
    BuildCompleted(First(v), v.tag, Last(v), Suffix("_rc", v.rc));
    TailFlat(v, n);
    FlattenPair("99", v.tag, Last(v) + ["_rc", n]);
    RebuiltFirst(v, "99", [v.tag] + (Last(v) + ["_rc", n]));
  }

  lemma BuildTailKey(v: Build)
    ensures Concat(PadEven(BuildTail(v))) == "99" + (v.tag + (Two(v.d) + ("." + BuildEnd(v))))
  {
    var n := if v.rc.None? then "99" else Show(v.rc.value);
    PadTwo("99", v.tag, [Show(v.d), "."] + ([Show(v.e), "_rc"] + [n]));
    PadTwo(Show(v.d), ".", [Show(v.e), "_rc"] + [n]);
    PadTwo(Show(v.e), "_rc", [n]);
    assert Concat(PadEven([n])) == Pad(n) + [] == Pad(n);
    assert Show(9) == "9" && Show(99) == "99";
  }

  /** The key of a build, spelled out. */
  lemma KeyOfBuild(v: Build)
    requires IsTag(v.tag)
    ensures Key(ShowBuild(v)) == BuildKey(v)
  {
    BuildAlternates(v);
    BitsUnique(BuildParts(v));
    BuildRebuilt(v);
    KeyOfRebuilt(Show(v.a), Show(v.b), Show(v.c), BuildTail(v));
    BuildTailKey(v);
  }

  /** Older: by number, and a candidate before its build. */
  predicate OlderBuild(v: Build, w: Build) {
    if v.a != w.a then v.a < w.a
    else if v.b != w.b then v.b < w.b
    else if v.c != w.c then v.c < w.c
    else if v.d != w.d then v.d < w.d
    else if v.e != w.e then v.e < w.e
    else v.rc.Some? && (w.rc.None? || v.rc.value < w.rc.value)
  }

  predicate BuildWithin(v: Build) {
    v.a <= 99 && v.b <= 99 && v.c <= 99 && v.e <= 99 && AtMost(v.rc, 98)
  }

  lemma BuildEndsOrder(v: Build, w: Build)
    requires BuildWithin(v) && BuildWithin(w)
    ensures Less(BuildEnd(v), BuildEnd(w)) <==>
            v.e < w.e || (v.e == w.e && v.rc.Some? && (w.rc.None? || v.rc.value < w.rc.value))
  {
    FieldsOrder(v.e, w.e, "_rc", Two(Rank(v.rc)), Two(Rank(w.rc)));
    LessField(Rank(v.rc), Rank(w.rc), [], []);
    assert Two(Rank(v.rc)) + [] == Two(Rank(v.rc)) && Two(Rank(w.rc)) + [] == Two(Rank(w.rc));
  }

  /** Keys order the builds of one variant by age, if the first numbers of the
      builds are equal or have no more than two digits. */
  lemma BuildsKeepOrder(v: Build, w: Build)
    requires IsTag(v.tag) && v.tag == w.tag && BuildWithin(v) && BuildWithin(w)
    requires v.d == w.d || (v.d <= 99 && w.d <= 99)
    ensures Less(Key(ShowBuild(v)), Key(ShowBuild(w))) <==> OlderBuild(v, w)
  {
    KeyOfBuild(v);
    KeyOfBuild(w);
    var s, t := "99" + (v.tag + (Two(v.d) + ("." + BuildEnd(v)))), "99" + (w.tag + (Two(w.d) + ("." + BuildEnd(w))));
    FieldsOrder(v.a, w.a, ".", Two(v.b) + ("." + (Two(v.c) + ("-rc" + s))),
                Two(w.b) + ("." + (Two(w.c) + ("-rc" + t))));
    FieldsOrder(v.b, w.b, ".", Two(v.c) + ("-rc" + s), Two(w.c) + ("-rc" + t));
    FieldsOrder(v.c, w.c, "-rc", s, t);
    LessSame("99", v.tag + (Two(v.d) + ("." + BuildEnd(v))), v.tag + (Two(w.d) + ("." + BuildEnd(w))));
    LessSame(v.tag, Two(v.d) + ("." + BuildEnd(v)), Two(w.d) + ("." + BuildEnd(w)));
    if v.d == w.d {
      LessSame(Two(v.d), "." + BuildEnd(v), "." + BuildEnd(w));
      LessSame(".", BuildEnd(v), BuildEnd(w));
    } else {
      FieldsOrder(v.d, w.d, ".", BuildEnd(v), BuildEnd(w));
    }
    BuildEndsOrder(v, w);
  }
}
