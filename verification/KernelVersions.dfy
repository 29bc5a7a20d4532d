/** Kernel versions, client/kernel_versions.py: sort keys meant to order versions by
    age as plain text. */
module KernelVersions {
  import opened Options
  import opened Sequences
  import opened Text

  // ------------------------------------------- numbers and what separates them

  /** encode_sep.split(version): numerals at the even positions, the text between
      them at the odd ones. */
  function Bits(s: string): (bits: seq<string>)
    ensures bits != []
    ensures s != [] && !IsDigit(s[0]) ==> |bits| > 1
  {
    if s == [] then [[]]
    else
      var rest := Bits(s[1..]);
      if IsDigit(s[0]) then [[s[0]] + rest[0]] + rest[1..]
      else if |s| > 1 && !IsDigit(s[1]) then [[], [s[0]] + rest[1]] + rest[2..]
      else [[], [s[0]]] + rest
  }

  /** ''.join(parts) */
  function Concat(parts: seq<string>): string {
    if parts == [] then [] else parts[0] + Concat(parts[1..])
  }

  predicate NonDigits(s: string) {
    s != [] && forall i :: 0 <= i < |s| ==> !IsDigit(s[i])
  }

  /** Numerals and separators in turn; only the outermost numerals may be empty. */
  predicate Alternating(ps: seq<string>) {
    && ps != [] && AllDigits(ps[0])
    && (|ps| > 1 ==>
          (|ps| > 2 && NonDigits(ps[1]) && (|ps| > 3 ==> ps[2] != []) && Alternating(ps[2..])))
  }

  lemma BitsDigit(c: char, s: string)
    requires IsDigit(c)
    ensures Bits([c] + s) == [[c] + Bits(s)[0]] + Bits(s)[1..]
  {
    assert ([c] + s)[1..] == s;
  }

  lemma {:induction false} BitsDigits(d: string, s: string)
    requires AllDigits(d)
    ensures Bits(d + s) == [d + Bits(s)[0]] + Bits(s)[1..]
  {
    if d == [] {
      assert d + s == s;
      assert [] + Bits(s)[0] == Bits(s)[0];
    } else {
      BitsDigits(d[1..], s);
      BitsDigit(d[0], d[1..] + s);
      assert d == [d[0]] + d[1..] && d + s == [d[0]] + (d[1..] + s);
      Assoc([d[0]], d[1..], Bits(s)[0]);
    }
  }

  lemma {:induction false} BitsNonDigits(t: string, s: string)
    requires NonDigits(t) && (s == [] || IsDigit(s[0]))
    ensures Bits(t + s) == [[], t] + Bits(s)
  {
    assert (t + s)[1..] == t[1..] + s;
    if |t| == 1 {
      assert t[1..] + s == s && [t[0]] == t;
    } else {
      BitsNonDigits(t[1..], s);
      assert [t[0]] + t[1..] == t;
      assert ([[], t[1..]] + Bits(s))[2..] == Bits(s);
    }
  }

  lemma ConcatTwo(x: string, y: string, rest: seq<string>)
    ensures Concat([x, y] + rest) == x + (y + Concat(rest))
  {
    assert ([x, y] + rest)[1..] == [y] + rest && ([y] + rest)[1..] == rest;
  }

  lemma {:induction false} BitsTwo(d: string, t: string, more: string)
    requires AllDigits(d) && NonDigits(t) && (more == [] || IsDigit(more[0]))
    ensures Bits(d + (t + more)) == [d, t] + Bits(more)
  {
    BitsDigits(d, t + more);
    BitsNonDigits(t, more);
    FirstFilled(d, t, Bits(more));
  }

  lemma FirstFilled(x: string, y: string, rest: seq<string>)
    ensures var parts := [[], y] + rest;
            [x + parts[0]] + parts[1..] == [x, y] + rest
  {
    assert x + [] == x;
  }

  /** The split is the only way to cut a text into numerals and separators. */
  lemma {:induction false} BitsUnique(ps: seq<string>)
    requires Alternating(ps)
    ensures Bits(Concat(ps)) == ps
  {
    if |ps| == 1 {
      BitsDigits(ps[0], []);
      assert ps[0] + [] == ps[0] && ps == [ps[0]];
    } else {
      BitsUnique(ps[2..]);
      assert ps == [ps[0], ps[1]] + ps[2..];
      ConcatTwo(ps[0], ps[1], ps[2..]);
      BitsTwo(ps[0], ps[1], Concat(ps[2..]));
    }
  }

  lemma AlternatingTwo(x: string, y: string, rest: seq<string>)
    requires AllDigits(x) && NonDigits(y) && Alternating(rest) && (|rest| > 1 ==> rest[0] != [])
    ensures Alternating([x, y] + rest)
  {
    assert ([x, y] + rest)[2..] == rest;
  }

  lemma {:induction false} BitsAlternate(s: string)
    ensures Alternating(Bits(s))
    ensures s != [] && IsDigit(s[0]) ==> Bits(s)[0] != []
    ensures s != [] && !IsDigit(s[0]) ==> Bits(s)[0] == []
  {
    if s != [] {
      var rest := Bits(s[1..]);
      BitsAlternate(s[1..]);
      if IsDigit(s[0]) {
        var bits := [[s[0]] + rest[0]] + rest[1..];
        assert |rest| > 1 ==> bits[2..] == rest[2..];
      } else if |s| > 1 && !IsDigit(s[1]) {
        AlternatingTwo([], [s[0]] + rest[1], rest[2..]);
      } else {
        AlternatingTwo([], [s[0]], rest);
      }
    }
  }

  lemma ConcatOnto(x: string, parts: seq<string>)
    requires parts != []
    ensures Concat([x + parts[0]] + parts[1..]) == x + Concat(parts)
  {
    assert ([x + parts[0]] + parts[1..])[1..] == parts[1..];
    Assoc(x, parts[0], Concat(parts[1..]));
  }

  lemma {:induction false} BitsConcat(s: string)
    ensures Concat(Bits(s)) == s
  {
    if s == [] {
      assert Concat([[]]) == [] + Concat([[]][1..]);
    } else {
      var rest := Bits(s[1..]);
      BitsConcat(s[1..]);
      BitsAlternate(s[1..]);
      assert s == [s[0]] + s[1..];
      if IsDigit(s[0]) {
        ConcatOnto([s[0]], rest);
      } else if |s| > 1 && !IsDigit(s[1]) {
        assert rest == [[], rest[1]] + rest[2..];
      } else {
        ConcatTwo([], [s[0]], rest);
      }
    }
  }

  // ------------------------------------------------------------- the sort key

  /** list.insert: past the end it appends. */
  function InsertAt(bits: seq<string>, n: nat, x: string): seq<string> {
    if n <= |bits| then bits[..n] + [x] + bits[n..] else bits + [x]
  }

  function InsertTwo(bits: seq<string>, n: nat, x: string, y: string): seq<string> {
    InsertAt(InsertAt(bits, n, x), n + 1, y)
  }

  /** Where the numbers end: two further when a separator comes first. */
  function Shift(bits: seq<string>): nat
    requires bits != []
  {
    if bits[0] == [] then 2 else 0
  }

  /** The first insertion of version_encode. */
  function WithTrailer(bits: seq<string>): (r: seq<string>)
    requires bits != []
    ensures r != [] && r[0] == bits[0]
  {
    var n := 9 + Shift(bits);
    if |bits| == n || (|bits| > n && bits[n] != "_rc") then InsertTwo(bits, n, "_rc", "99") else bits
  }

  /** The second insertion. */
  function WithCandidate(bits: seq<string>): seq<string>
    requires bits != []
  {
    var n := 5 + Shift(bits);
    if |bits| <= n || bits[n] != "-rc" then InsertTwo(bits, n, "-rc", "99") else bits
  }

  function Pad(bit: string): string {
    if |bit| == 1 then "0" + bit else bit
  }

  /** The numerals padded to two digits. */
  function PadEven(bits: seq<string>): seq<string> {
    if bits == [] then []
    else if |bits| == 1 then [Pad(bits[0])]
    else [Pad(bits[0]), bits[1]] + PadEven(bits[2..])
  }

  function Key(version: string): string {
    Concat(PadEven(WithCandidate(WithTrailer(Bits(version)))))
  }

  method VersionEncode(version: string) returns (key: string)
    ensures key == Key(version)
  {
    var bits := Bits(version);
    var n := 9;
    if |bits[0]| == 0 {
      n := n + 2;
    }
    if |bits| == n || (|bits| > n && bits[n] != "_rc") {
      bits := InsertTwo(bits, n, "_rc", "99");
    }
    assert bits == WithTrailer(Bits(version));
    n := 5;
    if |bits[0]| == 0 {
      n := n + 2;
    }
    if |bits| <= n || bits[n] != "-rc" {
      bits := InsertTwo(bits, n, "-rc", "99");
    }
    bits := PadNumerals(bits);
    key := Concat(bits);
  }

  /** The last loop of version_encode. */
  method PadNumerals(completed: seq<string>) returns (bits: seq<string>)
    ensures bits == PadEven(completed)
  {
    bits := completed;
    var n := 0;
    while n < |bits|
      invariant |bits| == |completed|
      invariant n <= |bits| + 1 && n % 2 == 0
      invariant forall k :: n <= k < |bits| ==> bits[k] == completed[k]
      invariant forall k :: 0 <= k < n && k < |bits| ==>
                  bits[k] == if k % 2 == 0 then Pad(completed[k]) else completed[k]
    {
      if |bits[n]| == 1 {
        bits := bits[n := "0" + bits[n]];
      }
      n := n + 2;
    }
    EvenPadded(bits, completed);
  }

  lemma {:induction false} EvenPadded(bits: seq<string>, completed: seq<string>)
    requires |bits| == |completed|
    requires forall k :: 0 <= k < |bits| ==> bits[k] == if k % 2 == 0 then Pad(completed[k]) else completed[k]
    ensures bits == PadEven(completed)
  {
    if |bits| > 1 {
      EvenPadded(bits[2..], completed[2..]);
      assert bits == [bits[0], bits[1]] + bits[2..];
    }
  }

  // ------------------------------------------------------------ text ordering

  /** s < t for Python strings */
  predicate Less(s: string, t: string) {
    t != [] && (s == [] || s[0] < t[0] || (s[0] == t[0] && Less(s[1..], t[1..])))
  }

  lemma {:induction false} LessTotal(s: string, t: string)
    ensures !(Less(s, t) && Less(t, s))
    ensures !Less(s, t) && !Less(t, s) <==> s == t
  {
    if s != [] && t != [] {
      LessTotal(s[1..], t[1..]);
      assert s == [s[0]] + s[1..] && t == [t[0]] + t[1..];
    }
  }

  lemma {:induction false} LessTransitive(s: string, t: string, u: string)
    requires Less(s, t) && Less(t, u)
    ensures Less(s, u)
  {
    if s != [] && s[0] == t[0] && t[0] == u[0] {
      LessTransitive(s[1..], t[1..], u[1..]);
    }
  }

  /** Behind heads of one length, the tails decide only where the heads agree. */
  lemma {:induction false} LessByHead(p: string, q: string, s: string, t: string)
    requires |p| == |q|
    ensures Less(p + s, q + t) <==> Less(p, q) || (p == q && Less(s, t))
  {
    if p == [] {
      assert p + s == s && q + t == t;
    } else {
      LessByHead(p[1..], q[1..], s, t);
      assert (p + s)[1..] == p[1..] + s && (q + t)[1..] == q[1..] + t;
      assert p == [p[0]] + p[1..] && q == [q[0]] + q[1..];
    }
  }

  // ------------------------------------------------- versions as they are meant

  /** a.b.c, with -rcN for a release candidate and -mmK for a branch of it. */
  datatype Version = Version(a: nat, b: nat, c: nat, rc: Option<nat>, mm: Option<nat>)

  function Suffix(tag: string, n: Option<nat>): seq<string> {
    if n.None? then [] else [tag, Show(n.value)]
  }

  function Parts(v: Version): seq<string> {
    [Show(v.a), ".", Show(v.b), ".", Show(v.c)] + Suffix("-rc", v.rc) + Suffix("-mm", v.mm)
  }

  /** The version's text, its numbers in decimal without leading zeros. */
  function ShowVersion(v: Version): string {
    Concat(Parts(v))
  }

  /** Older: by number, a candidate before its release, a version before its branches. */
  predicate Older(v: Version, w: Version) {
    if v.a != w.a then v.a < w.a
    else if v.b != w.b then v.b < w.b
    else if v.c != w.c then v.c < w.c
    else if v.rc != w.rc then v.rc.Some? && (w.rc.None? || v.rc.value < w.rc.value)
    else w.mm.Some? && (v.mm.None? || v.mm.value < w.mm.value)
  }

  predicate AtMost(n: Option<nat>, limit: nat) {
    n.Some? ==> n.value <= limit
  }

  predicate Within(v: Version, limit: nat, rcLimit: nat) {
    v.a <= limit && v.b <= limit && v.c <= limit && AtMost(v.rc, rcLimit) && AtMost(v.mm, limit)
  }

  // -------------------------------------------------------- the key of a version

  lemma PartsAlternate(v: Version)
    ensures Alternating(Parts(v))
  {
    var tail := [Show(v.c)] + Suffix("-rc", v.rc) + Suffix("-mm", v.mm);
    ShowValue(v.a);
    ShowValue(v.b);
    TailAlternates(v);
    assert ([Show(v.b), "."] + tail)[2..] == tail;
    assert Alternating([Show(v.b), "."] + tail);
    assert ([Show(v.a), "."] + ([Show(v.b), "."] + tail))[2..] == [Show(v.b), "."] + tail;
    assert Alternating([Show(v.a), "."] + ([Show(v.b), "."] + tail));
    assert Parts(v) == [Show(v.a), "."] + ([Show(v.b), "."] + tail);
  }

  lemma TailAlternates(v: Version)
    ensures var tail := [Show(v.c)] + Suffix("-rc", v.rc) + Suffix("-mm", v.mm);
            Alternating(tail) && tail[0] != []
  {
    ShowValue(v.c);
    if v.mm.Some? {
      ShowValue(v.mm.value);
    }
    if v.rc.Some? {
      ShowValue(v.rc.value);
    }
  }

  function Two(n: nat): string {
    Pad(Show(n))
  }

  function Branch(v: Version): string {
    if v.mm.None? then [] else "-mm" + (Two(v.mm.value) + if v.rc.Some? then "_rc99" else [])
  }

  /** The key of a version, spelled out. */
  function KeyText(v: Version): string {
    var rank := if v.rc.None? then "99" else Two(v.rc.value);
    Two(v.a) + ("." + (Two(v.b) + ("." + (Two(v.c) + ("-rc" + (rank + Branch(v)))))))
  }

  lemma PadTwo(x: string, y: string, rest: seq<string>)
    ensures Concat(PadEven([x, y] + rest)) == Pad(x) + (y + Concat(PadEven(rest)))
  {
    assert ([x, y] + rest)[2..] == rest;
    ConcatTwo(Pad(x), y, PadEven(rest));
  }

  function Rebuilt(a: string, b: string, c: string, rest: seq<string>): seq<string> {
    [a, "."] + ([b, "."] + ([c, "-rc"] + rest))
  }

  lemma KeyOfRebuilt(a: string, b: string, c: string, rest: seq<string>)
    ensures Concat(PadEven(Rebuilt(a, b, c, rest)))
            == Pad(a) + ("." + (Pad(b) + ("." + (Pad(c) + ("-rc" + Concat(PadEven(rest)))))))
  {
    PadTwo(c, "-rc", rest);
    PadTwo(b, ".", [c, "-rc"] + rest);
    PadTwo(a, ".", [b, "."] + ([c, "-rc"] + rest));
  }

  lemma ReleaseBits(bits: seq<string>, tail: seq<string>)
    requires |bits| == 5 && bits[0] != [] && (tail == [] || (|tail| == 2 && tail[0] == "-mm"))
    ensures WithCandidate(WithTrailer(bits + tail)) == bits + ["-rc", "99"] + tail
  {
    var all := bits + tail;
    assert WithTrailer(all) == all;
    assert |tail| == 2 ==> all[5] == tail[0];
    InsertedTwo(all, 5, "-rc", "99");
    assert all[..5] == bits && all[5..] == tail;
  }

  lemma CompleteRelease(a: string, b: string, c: string, tail: seq<string>)
    requires a != [] && (tail == [] || (|tail| == 2 && tail[0] == "-mm"))
    ensures WithCandidate(WithTrailer([a, ".", b, ".", c] + tail)) == Rebuilt(a, b, c, ["99"] + tail)
  {
    ReleaseBits([a, ".", b, ".", c], tail);
    RebuiltFlat(a, b, c, "99", tail);
  }

  lemma RebuiltFlat(a: string, b: string, c: string, n: string, tail: seq<string>)
    ensures Rebuilt(a, b, c, [n] + tail) == [a, ".", b, ".", c] + ["-rc", n] + tail
  {
  }

  lemma CandidateBits(bits: seq<string>, tail: seq<string>)
    requires |bits| == 7 && bits[0] != [] && bits[5] == "-rc" && (tail == [] || |tail| == 2)
    ensures WithCandidate(WithTrailer(bits + tail)) == bits + tail + if tail == [] then [] else ["_rc", "99"]
  {
    var all := bits + tail;
    if |tail| == 2 {
      InsertedTwo(all, 9, "_rc", "99");
      assert WithTrailer(all) == all + ["_rc", "99"];
    }
    assert WithTrailer(all)[5] == bits[5] && WithTrailer(all)[0] == bits[0];
  }

  lemma CompleteCandidate(a: string, b: string, c: string, n: string, tail: seq<string>)
    requires a != [] && (tail == [] || |tail| == 2)
    ensures WithCandidate(WithTrailer([a, ".", b, ".", c, "-rc", n] + tail))
            == Rebuilt(a, b, c, [n] + tail + if tail == [] then [] else ["_rc", "99"])
  {
    CandidateBits([a, ".", b, ".", c, "-rc", n], tail);
    var more := tail + if tail == [] then [] else ["_rc", "99"];
    RebuiltFlat(a, b, c, n, more);
    assert [n] + more == [n] + tail + if tail == [] then [] else ["_rc", "99"];
  }

  lemma InsertedTwo(bits: seq<string>, n: nat, x: string, y: string)
    requires n <= |bits|
    ensures InsertTwo(bits, n, x, y) == bits[..n] + [x, y] + bits[n..]
  {
  }

  lemma KeyOfVersion(v: Version)
    ensures Key(ShowVersion(v)) == KeyText(v)
  {
    PartsAlternate(v);
    BitsUnique(Parts(v));
    ShowValue(v.a);
    var a, b, c := Show(v.a), Show(v.b), Show(v.c);
    var tail := Suffix("-mm", v.mm);
    if v.rc.None? {
      assert Parts(v) == [a, ".", b, ".", c] + tail;
      assert ["99"] + tail + [] == ["99"] + tail;
      CompleteRelease(a, b, c, tail);
      KeyOfRebuilt(a, b, c, ["99"] + tail);
      KeyEnd("99", v);
    } else {
      var n := Show(v.rc.value);
      assert [a, ".", b, ".", c] + ["-rc", n] == [a, ".", b, ".", c, "-rc", n];
      CompleteCandidate(a, b, c, n, tail);
      KeyOfRebuilt(a, b, c, [n] + tail + if tail == [] then [] else ["_rc", "99"]);
      KeyEnd(n, v);
    }
  }

  lemma KeyEnd(n: string, v: Version)
    ensures var tail := Suffix("-mm", v.mm);
            Concat(PadEven([n] + tail + if tail == [] || v.rc.None? then [] else ["_rc", "99"])) == Pad(n) + Branch(v)
  {
    var tail := Suffix("-mm", v.mm);
    if v.mm.None? {
      assert [n] + tail + [] == [n] && Pad(n) + [] == Pad(n);
    } else {
      var k := Show(v.mm.value);
      if v.rc.None? {
        assert [n] + tail + [] == [n, "-mm"] + [k];
        PadTwo(n, "-mm", [k]);
        assert Pad(k) + [] == Pad(k);
      } else {
        assert [n] + tail + ["_rc", "99"] == [n, "-mm"] + ([k, "_rc"] + ["99"]);
        PadTwo(n, "-mm", [k, "_rc"] + ["99"]);
        PadTwo(k, "_rc", ["99"]);
      }
    }
  }

  // ------------------------------------------------------------ keys keep order

  lemma TwoDigits(x: nat)
    requires x <= 99
    ensures Two(x) == [Digit(x / 10), Digit(x % 10)]
  {
    if x >= 10 {
      assert Show(x / 10) == [Digit(x / 10)];
    } else {
      assert "0" == [Digit(0)];
    }
  }

  lemma LessDigits(a: nat, b: nat, c: nat, d: nat)
    requires a < 10 && b < 10 && c < 10 && d < 10
    ensures Less([Digit(a), Digit(b)], [Digit(c), Digit(d)]) <==> a * 10 + b < c * 10 + d
    ensures [Digit(a), Digit(b)] == [Digit(c), Digit(d)] <==> a == c && b == d
  {
    var s, t := [Digit(a), Digit(b)], [Digit(c), Digit(d)];
    assert s[1..] == [Digit(b)] && t[1..] == [Digit(d)];
    assert s[1..][1..] == [] && t[1..][1..] == [];
    assert s[0] == Digit(a) && t[0] == Digit(c) && s[1] == Digit(b) && t[1] == Digit(d);
    assert Less([Digit(b)], [Digit(d)]) <==> b < d;
  }

  lemma LessSame(p: string, s: string, t: string)
    ensures Less(p + s, p + t) <==> Less(s, t)
  {
    LessByHead(p, p, s, t);
    LessTotal(p, p);
  }

  /** A two-digit field decides unless both texts agree on it. */
  lemma LessField(x: nat, y: nat, s: string, t: string)
    requires x <= 99 && y <= 99
    ensures Less(Two(x) + s, Two(y) + t) <==> x < y || (x == y && Less(s, t))
  {
    TwoDigits(x);
    TwoDigits(y);
    LessDigits(x / 10, x % 10, y / 10, y % 10);
    LessByHead(Two(x), Two(y), s, t);
  }

  function Rank(rc: Option<nat>): nat {
    if rc.None? then 99 else rc.value
  }

  lemma KeyFields(v: Version)
    ensures KeyText(v) == Two(v.a) + ("." + (Two(v.b) + ("." + (Two(v.c) + ("-rc" + (Two(Rank(v.rc)) + Branch(v)))))))
  {
    assert Show(9) == "9" && Show(99) == "99";
  }

  lemma BranchOrder(v: Version, w: Version)
    requires v.rc == w.rc && AtMost(v.mm, 99) && AtMost(w.mm, 99)
    ensures Less(Branch(v), Branch(w)) <==> w.mm.Some? && (v.mm.None? || v.mm.value < w.mm.value)
  {
    if v.mm.Some? && w.mm.Some? {
      var end := if v.rc.Some? then "_rc99" else [];
      LessSame("-mm", Two(v.mm.value) + end, Two(w.mm.value) + end);
      LessField(v.mm.value, w.mm.value, end, end);
      LessTotal(end, end);
    }
  }

  lemma {:induction false} KeysKeepOrder(v: Version, w: Version)
    requires Within(v, 99, 98) && Within(w, 99, 98)
    ensures Less(Key(ShowVersion(v)), Key(ShowVersion(w))) <==> Older(v, w)
  {
    KeyOfVersion(v);
    KeyOfVersion(w);
    KeyFields(v);
    KeyFields(w);
    FieldsOrder(v.a, w.a, ".", Two(v.b) + ("." + (Two(v.c) + ("-rc" + (Two(Rank(v.rc)) + Branch(v))))),
                Two(w.b) + ("." + (Two(w.c) + ("-rc" + (Two(Rank(w.rc)) + Branch(w))))));
    FieldsOrder(v.b, w.b, ".", Two(v.c) + ("-rc" + (Two(Rank(v.rc)) + Branch(v))),
                Two(w.c) + ("-rc" + (Two(Rank(w.rc)) + Branch(w))));
    FieldsOrder(v.c, w.c, "-rc", Two(Rank(v.rc)) + Branch(v), Two(Rank(w.rc)) + Branch(w));
    LessField(Rank(v.rc), Rank(w.rc), Branch(v), Branch(w));
    if v.rc == w.rc {
      BranchOrder(v, w);
    }
  }

  lemma FieldsOrder(x: nat, y: nat, sep: string, s: string, t: string)
    requires x <= 99 && y <= 99
    ensures Less(Two(x) + (sep + s), Two(y) + (sep + t)) <==> x < y || (x == y && Less(s, t))
  {
    LessField(x, y, sep + s, sep + t);
    LessSame(sep, s, t);
  }

  /** The keys order the versions within some limits by age. */
  ghost predicate KeysOrder(limit: nat, rcLimit: nat) {
    forall v, w :: Within(v, limit, rcLimit) && Within(w, limit, rcLimit) ==>
      (Less(Key(ShowVersion(v)), Key(ShowVersion(w))) <==> Older(v, w))
  }

  /** The numbers for which the keys order versions by age are the numbers up to
      99, and 98 for release candidates: beyond, version 0.0.100 sorts before
      0.0.99, and 0.0.0-rc99 is not told from 0.0.0. */
  lemma KeysOrderExactly(limit: nat, rcLimit: nat)
    ensures KeysOrder(limit, rcLimit) <==> limit <= 99 && rcLimit <= 98
  {
    if limit <= 99 && rcLimit <= 98 {
      forall v, w | Within(v, limit, rcLimit) && Within(w, limit, rcLimit)
        ensures Less(Key(ShowVersion(v)), Key(ShowVersion(w))) <==> Older(v, w)
      {
        KeysKeepOrder(v, w);
      }
    }
    if limit >= 100 {
      ThreeDigitsSortEarlier(limit, rcLimit);
    }
    if rcLimit >= 99 {
      LastCandidateIsRelease(limit, rcLimit);
    }
  }

  lemma ThreeDigitsSortEarlier(limit: nat, rcLimit: nat)
    requires limit >= 100
    ensures !KeysOrder(limit, rcLimit)
  {
    var v, w := Version(0, 0, 99, None, None), Version(0, 0, 100, None, None);
    KeyOfVersion(v);
    KeyOfVersion(w);
    KeyFields(v);
    KeyFields(w);
    var s, t := "-rc" + (Two(99) + Branch(v)), "-rc" + (Two(99) + Branch(w));
    NinetyNineLast(s, t);
    TwoZeros(Two(99) + s, Two(100) + t);
    assert Within(v, limit, rcLimit) && Within(w, limit, rcLimit) && Older(v, w);
  }

  lemma {:induction false} TwoZeros(s: string, t: string)
    ensures Less(Two(0) + ("." + (Two(0) + ("." + s))), Two(0) + ("." + (Two(0) + ("." + t)))) <==> Less(s, t)
  {
    FieldsOrder(0, 0, ".", Two(0) + ("." + s), Two(0) + ("." + t));
    FieldsOrder(0, 0, ".", s, t);
  }

  lemma NinetyNineLast(s: string, t: string)
    ensures !Less(Two(99) + s, Two(100) + t)
  {
    assert Show(9) == "9" && Show(1) == "1";
    assert Show(10) == "10" && Show(99) == "99" && Show(100) == "100";
    assert (Two(99) + s)[0] == '9' && (Two(100) + t)[0] == '1';
  }

  lemma SameKey(v: Version, w: Version)
    requires v.a == w.a && v.b == w.b && v.c == w.c && Rank(v.rc) == Rank(w.rc) && v.mm.None? && w.mm.None?
    ensures KeyText(v) == KeyText(w)
  {
    KeyFields(v);
    KeyFields(w);
  }

  lemma LastCandidateIsRelease(limit: nat, rcLimit: nat)
    requires rcLimit >= 99
    ensures !KeysOrder(limit, rcLimit)
  {
    var v, w := Version(0, 0, 0, Some(99), None), Version(0, 0, 0, None, None);
    KeyOfVersion(v);
    KeyOfVersion(w);
    SameKey(v, w);
    LessTotal(KeyText(v), KeyText(v));
    assert Within(v, limit, rcLimit) && Within(w, limit, rcLimit) && Older(v, w);
  }
}
