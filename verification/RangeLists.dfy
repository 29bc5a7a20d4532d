/** The range lists of client/cpuset.py: '0,4-7,10' for the set {0,4,5,6,7,10}. */
module RangeLists {
  import opened Text
  import Sorting

  datatype Parsed = Nodes(nodes: set<nat>) | CannotUnderstand(item: string, rangelist: string)

  datatype Range = Range(lower: nat, upper: nat)

  predicate Contains(r: Range, k: nat) { r.lower <= k <= r.upper }

  function Members(r: Range): set<nat> {
    set k: nat | k <= r.upper && Contains(r, k)
  }

  function Union(rs: seq<Range>): set<nat> {
    if rs == [] then {} else Members(rs[0]) + Union(rs[1..])
  }

  // ------------------------------------------------------------------ parsing

  /** The `$` of a regular expression also matches before a final newline. */
  function ChopNewline(x: string): string {
    if x != [] && x[|x| - 1] == '\n' then x[..|x| - 1] else x
  }

  predicate Digits(x: string) {
    x != [] && AllDigits(x)
  }

  /** The range an item stands for, if it matches one of the two patterns. */
  function Item(x: string): (r: seq<Range>)
    ensures |r| <= 1
  {
    var y := ChopNewline(x);
    var ends := Split(y, '-');
    if Digits(y) then [Range(Value(y), Value(y))]
    else if |ends| == 2 && Digits(ends[0]) && Digits(ends[1]) then [Range(Value(ends[0]), Value(ends[1]))]
    else []
  }

  function AddTo(nodes: set<nat>, p: Parsed): Parsed {
    match p
    case Nodes(more) => Nodes(nodes + more)
    case CannotUnderstand(_, _) => p
  }

  function ParseItems(items: seq<string>, rangelist: string): Parsed {
    if items == [] then Nodes({})
    else if Item(items[0]) == [] then CannotUnderstand(items[0], rangelist)
    else AddTo(Members(Item(items[0])[0]), ParseItems(items[1..], rangelist))
  }

  function Parse(rangelist: string): Parsed {
    if rangelist == [] then Nodes({}) else ParseItems(Split(rangelist, ','), rangelist)
  }

  // ------------------------------------------------------ what is understood

  /** The text, which a newline may follow. */
  predicate Written(x: string, text: string) {
    x == text || x == text + ['\n']
  }

  predicate WrittenRange(x: string, lower: string, upper: string) {
    Digits(lower) && Digits(upper) && Written(x, lower + ['-'] + upper)
  }

  lemma ChopWritten(x: string, text: string)
    requires Written(x, text) && text != [] && text[|text| - 1] != '\n'
    ensures ChopNewline(x) == text
  {
    if x == text + ['\n'] {
      assert x[..|x| - 1] == text;
    }
  }

  lemma RangeUnderstood(x: string, lower: string, upper: string)
    requires WrittenRange(x, lower, upper)
    ensures Item(x) == [Range(Value(lower), Value(upper))]
  {
    var text := lower + ['-'] + upper;
    assert text[|text| - 1] == upper[|upper| - 1];
    ChopWritten(x, text);
    assert text[|lower|] == '-' && !Digits(text);
    var ends := [lower, upper];
    assert Join(ends, '-') == text by { assert ends[1..] == [upper]; }
    SplitJoin(ends, '-');
  }

  /** An item is understood if and only if it is a numeral or two numerals with a
      dash between them, and stands for that number or the range between them. */
  lemma ItemExactly(x: string)
    ensures forall d :: Digits(d) && Written(x, d) ==> Item(x) == [Range(Value(d), Value(d))]
    ensures forall lower, upper :: WrittenRange(x, lower, upper) ==> Item(x) == [Range(Value(lower), Value(upper))]
    ensures Item(x) != [] ==>
              (exists d :: Digits(d) && Written(x, d)) || (exists lower, upper :: WrittenRange(x, lower, upper))
  {
    var y := ChopNewline(x);
    assert Written(x, y) by {
      assert y != x ==> x == y + ['\n'];
    }
    forall d | Digits(d) && Written(x, d) ensures Item(x) == [Range(Value(d), Value(d))] {
      ChopWritten(x, d);
    }
    forall lower, upper | WrittenRange(x, lower, upper) ensures Item(x) == [Range(Value(lower), Value(upper))] {
      RangeUnderstood(x, lower, upper);
    }
    if Item(x) != [] && !Digits(y) {
      var ends := Split(y, '-');
      JoinSplit(y, '-');
      assert y == ends[0] + ['-'] + ends[1] by { assert ends[1..] == [ends[1]]; }
      assert WrittenRange(x, ends[0], ends[1]);
    }
  }

  /** One of the items stands for k. */
  ghost predicate Covers(items: seq<string>, k: nat) {
    exists i :: 0 <= i < |items| && Item(items[i]) != [] && Contains(Item(items[i])[0], k)
  }

  ghost predicate FirstStrange(items: seq<string>, i: int) {
    0 <= i < |items| && Item(items[i]) == [] && forall j :: 0 <= j < i ==> Item(items[j]) != []
  }

  lemma CoversStep(items: seq<string>, k: nat)
    requires items != []
    ensures Covers(items, k) <==> (Item(items[0]) != [] && Contains(Item(items[0])[0], k)) || Covers(items[1..], k)
  {
    if i :| 0 <= i < |items[1..]| && Item(items[1..][i]) != [] && Contains(Item(items[1..][i])[0], k) {
      assert items[i + 1] == items[1..][i];
    }
    if i :| 0 < i < |items| && Item(items[i]) != [] && Contains(Item(items[i])[0], k) {
      assert items[i] == items[1..][i - 1];
    }
  }

  lemma StrangeStep(items: seq<string>, i: int)
    requires items != [] && Item(items[0]) != [] && FirstStrange(items[1..], i)
    ensures FirstStrange(items, i + 1)
  {
    forall j | 0 <= j < i + 1 ensures Item(items[j]) != [] {
      if j > 0 {
        assert items[j] == items[1..][j - 1];
      }
    }
  }

  /** Parsing gives the numbers that the items stand for, or blames the first item
      that is not understood. */
  lemma {:induction false} ParseExactly(items: seq<string>, rangelist: string)
    ensures match ParseItems(items, rangelist)
            case Nodes(nodes) =>
              (forall x :: x in items ==> Item(x) != []) && (forall k :: k in nodes <==> Covers(items, k))
            case CannotUnderstand(item, list) =>
              list == rangelist && exists i :: FirstStrange(items, i) && items[i] == item
  {
    if items != [] && Item(items[0]) != [] {
      ParseExactly(items[1..], rangelist);
      match ParseItems(items[1..], rangelist) {
        case CannotUnderstand(item, _) =>
          var i :| FirstStrange(items[1..], i) && items[1..][i] == item;
          StrangeStep(items, i);
        case Nodes(more) =>
          forall k: nat { CoversStep(items, k); }
      }
    } else if items != [] {
      assert FirstStrange(items, 0);
    }
  }

  /** The result of parsing the items from position i on, with `nodes` so far. */
  function ParseFrom(nodes: set<nat>, items: seq<string>, i: nat, rangelist: string): Parsed
    requires i <= |items|
  {
    AddTo(nodes, ParseItems(items[i..], rangelist))
  }

  lemma ParseBounds(items: seq<string>, rangelist: string, nodes: set<nat>)
    ensures ParseFrom({}, items, 0, rangelist) == ParseItems(items, rangelist)
    ensures ParseFrom(nodes, items, |items|, rangelist) == Nodes(nodes)
  {
    assert items[0..] == items && items[|items|..] == [];
  }

  lemma ParseNext(items: seq<string>, i: nat, rangelist: string, nodes: set<nat>)
    requires i < |items|
    ensures ParseFrom(nodes, items, i, rangelist)
            == if Item(items[i]) == [] then CannotUnderstand(items[i], rangelist)
               else ParseFrom(nodes + Members(Item(items[i])[0]), items, i + 1, rangelist)
  {
    assert items[i..][0] == items[i] && items[i..][1..] == items[i + 1..];
    var here := if Item(items[i]) == [] then {} else Members(Item(items[i])[0]);
    AddTwice(nodes, here, ParseItems(items[i + 1..], rangelist));
  }

  lemma AddTwice(a: set<nat>, b: set<nat>, p: Parsed)
    ensures AddTo(a, AddTo(b, p)) == AddTo(a + b, p)
  {
    if p.Nodes? {
      assert a + (b + p.nodes) == a + b + p.nodes;
    }
  }

  method RangelistToSet(rangelist: string) returns (p: Parsed)
    ensures p == Parse(rangelist)
  {
    var result: set<nat> := {};
    if rangelist == [] {
      return Nodes(result);
    }
    var items := Split(rangelist, ',');
    ParseBounds(items, rangelist, result);
    for i := 0 to |items|
      invariant ParseFrom(result, items, i, rangelist) == ParseItems(items, rangelist)
    {
      ParseNext(items, i, rangelist, result);
      var x := Item(items[i]);
      if x == [] {
        return CannotUnderstand(items[i], rangelist);
      }
      result := result + Members(x[0]);
    }
    ParseBounds(items, rangelist, result);
    p := Nodes(result);
  }

  // ----------------------------------------------------------------- printing

  /** Maximal runs of an ascending list, the run from lower to upper being open. */
  function RunsFrom(lower: nat, upper: nat, rest: seq<nat>): (rs: seq<Range>)
    ensures rs != []
    decreases |rest|
  {
    if rest == [] then [Range(lower, upper)]
    else if rest[0] == upper + 1 then RunsFrom(lower, rest[0], rest[1..])
    else [Range(lower, upper)] + RunsFrom(rest[0], rest[0], rest[1..])
  }

  function Runs(s: seq<nat>): seq<Range> {
    if s == [] then [] else RunsFrom(s[0], s[0], s[1..])
  }

  function ShowRange(r: Range): string {
    if r.lower == r.upper then Show(r.lower) else Show(r.lower) + ['-'] + Show(r.upper)
  }

  function ShowRanges(rs: seq<Range>): seq<string> {
    if rs == [] then [] else [ShowRange(rs[0])] + ShowRanges(rs[1..])
  }

  function AtMost(): (nat, nat) -> bool { (x, y) => x <= y }

  function Ascending(vals: seq<nat>): seq<nat> { Sorting.Sort(vals, AtMost()) }

  /** '0,4-7,10' */
  function Abbrev(vals: seq<nat>): string {
    Join(ShowRanges(Runs(Ascending(vals))), ',')
  }

  lemma {:induction false} ShowRangesConcat(a: seq<Range>, b: seq<Range>)
    ensures ShowRanges(a + b) == ShowRanges(a) + ShowRanges(b)
  {
    if a == [] {
      assert a + b == b;
    } else {
      assert (a + b)[1..] == a[1..] + b;
      ShowRangesConcat(a[1..], b);
    }
  }

  /** abbrev_list: one pass over the sorted values with -1 as a sentinel, keeping
      the bounds of the run it is in. */
  method AbbrevList(vals: seq<nat>) returns (s: string)
    ensures s == Abbrev(vals)
  {
    var ranges: seq<string> := [];
    var lower, upper := 0, -2;
    var sorted := Ascending(vals);
    var values: seq<int> := sorted;
    var all := values + [-1];
    ghost var shown := ShowRanges(Runs(sorted));
    for i := 0 to |all|
      invariant i == 0 ==> ranges == [] && lower == 0 && upper == -2
      invariant 0 < i <= |sorted| ==>
                  0 <= lower <= upper && shown == ranges + ShowRanges(RunsFrom(lower, upper, sorted[i..]))
      invariant i == |all| ==> ranges == shown
    {
      var val := all[i];
      if val != upper + 1 {
        if lower == upper {
          ranges := ranges + [Show(lower)];
        } else if lower <= upper {
          ranges := ranges + [Show(lower) + ['-'] + Show(upper)];
        }
        lower := val;
      }
      if i < |sorted| {
        assert val == sorted[i] && sorted[i..][1..] == sorted[i + 1..];
      }
      upper := val;
    }
    s := Join(ranges, ',');
  }

  // --------------------------------------------------------------- round trip

  lemma ItemOfRange(r: Range)
    ensures Item(ShowRange(r)) == [r]
    ensures ',' !in ShowRange(r) && ShowRange(r) != []
  {
    ShowValue(r.lower);
    ShowValue(r.upper);
    var a, b := Show(r.lower), Show(r.upper);
    if r.lower != r.upper {
      var y := a + ['-'] + b;
      assert y[|y| - 1] == b[|b| - 1];
      assert ChopNewline(y) == y;
      assert y == Join([a, b], '-') by {
        assert [a, b][1..] == [b];
      }
      SplitJoin([a, b], '-');
      assert y[|a|] == '-' && !AllDigits(y);
    }
  }

  lemma {:induction false} ParseShown(rs: seq<Range>, rangelist: string)
    ensures ParseItems(ShowRanges(rs), rangelist) == Nodes(Union(rs))
    ensures forall i :: 0 <= i < |ShowRanges(rs)| ==> ',' !in ShowRanges(rs)[i] && ShowRanges(rs)[i] != []
  {
    if rs != [] {
      ItemOfRange(rs[0]);
      ParseShown(rs[1..], rangelist);
    }
  }

  function Elements(s: seq<nat>): set<nat> { set x | x in s }

  /** Every run is a non-empty range, so the runs cover exactly the values. */
  lemma {:induction false} RunsCover(lower: nat, upper: nat, rest: seq<nat>)
    requires lower <= upper
    ensures Union(RunsFrom(lower, upper, rest)) == Members(Range(lower, upper)) + Elements(rest)
    decreases |rest|
  {
    if rest != [] {
      var x := rest[0];
      assert Elements(rest) == {x} + Elements(rest[1..]);
      assert Members(Range(x, x)) == {x};
      if x == upper + 1 {
        RunsCover(lower, x, rest[1..]);
        assert Members(Range(lower, x)) == Members(Range(lower, upper)) + {x};
      } else {
        RunsCover(x, x, rest[1..]);
      }
    }
  }

  lemma RunsUnion(s: seq<nat>)
    ensures Union(Runs(s)) == Elements(s)
  {
    if s != [] {
      RunsCover(s[0], s[0], s[1..]);
      assert Members(Range(s[0], s[0])) == {s[0]};
      assert Elements(s) == {s[0]} + Elements(s[1..]);
    }
  }

  /** Printing any finite list of naturals, duplicates included, and parsing the
      text gives the set of its values. */
  lemma RangelistRoundTrip(vals: seq<nat>)
    ensures Parse(Abbrev(vals)) == Nodes(Elements(vals))
  {
    var sorted := Ascending(vals);
    var rs := Runs(sorted);
    var shown := ShowRanges(rs);
    Sorting.SortElements(vals, AtMost());
    assert Elements(sorted) == Elements(vals);
    RunsUnion(sorted);
    ParseShown(rs, Abbrev(vals));
    if rs != [] {
      SplitJoin(shown, ',');
      assert shown[0] <= Abbrev(vals);
    }
  }

  // --------------------------------------------------- the ranges are the fewest

  predicate StrictlyAscending(s: seq<nat>) {
    forall i, j :: 0 <= i < j < |s| ==> s[i] < s[j]
  }

  /** Ranges in increasing order with at least one missing number between any two. */
  predicate Separated(rs: seq<Range>) {
    && (forall i :: 0 <= i < |rs| ==> rs[i].lower <= rs[i].upper)
    && (forall i, j :: 0 <= i < j < |rs| ==> rs[i].upper + 1 < rs[j].lower)
  }

  lemma {:induction false} RunsFromSeparated(lower: nat, upper: nat, rest: seq<nat>)
    requires lower <= upper && StrictlyAscending(rest)
    requires rest != [] ==> upper < rest[0]
    ensures Separated(RunsFrom(lower, upper, rest)) && RunsFrom(lower, upper, rest)[0].lower == lower
    decreases |rest|
  {
    if rest != [] {
      if rest[0] == upper + 1 {
        RunsFromSeparated(lower, rest[0], rest[1..]);
      } else {
        RunsFromSeparated(rest[0], rest[0], rest[1..]);
      }
    }
  }

  lemma {:induction false} UnionMember(rs: seq<Range>, x: nat)
    ensures x in Union(rs) <==> exists i :: 0 <= i < |rs| && x in Members(rs[i])
  {
    if rs != [] {
      UnionMember(rs[1..], x);
      if i :| 0 <= i < |rs| && x in Members(rs[i]) {
        assert i == 0 || rs[i] == rs[1..][i - 1];
      }
      if j :| 0 <= j < |rs[1..]| && x in Members(rs[1..][j]) {
        assert rs[j + 1] == rs[1..][j];
      }
    }
  }

  function Without(s: seq<Range>, k: nat): seq<Range>
    requires k < |s|
  {
    s[..k] + s[k + 1..]
  }

  /** Numbers above x that the ranges cover are covered without a range ending
      below them. */
  lemma {:induction false} WithoutCovers(cover: seq<Range>, k: nat, y: nat)
    requires k < |cover| && y in Union(cover) && y !in Members(cover[k])
    ensures y in Union(Without(cover, k))
  {
    UnionMember(cover, y);
    UnionMember(Without(cover, k), y);
    var i :| 0 <= i < |cover| && y in Members(cover[i]);
    if i < k {
      assert Without(cover, k)[i] == cover[i];
    } else {
      assert Without(cover, k)[i - 1] == cover[i];
    }
  }

  /** Separated ranges need one range each: a range that starts in one of them
      cannot reach into the next without covering the gap. */
  lemma {:induction false} SeparatedIsMinimal(rs: seq<Range>, cover: seq<Range>)
    requires Separated(rs)
    requires forall i :: 0 <= i < |rs| ==> rs[i].lower in Union(cover)
    requires forall i :: 0 < i < |rs| ==> rs[i].lower > 0 && rs[i].lower - 1 !in Union(cover)
    ensures |rs| <= |cover|
    decreases |rs|
  {
    if rs != [] {
      var x := rs[0].lower;
      UnionMember(cover, x);
      var k :| 0 <= k < |cover| && x in Members(cover[k]);
      var rest, fewer := rs[1..], Without(cover, k);
      forall i | 0 <= i < |rest| ensures rest[i].lower in Union(fewer) {
        var y := rs[i + 1].lower;
        assert rest[i].lower == y && rs[0].upper + 1 < y;
        UnionMember(cover, y - 1);
        assert y - 1 !in Members(cover[k]);
        WithoutCovers(cover, k, y);
      }
      forall i | 0 < i < |rest| ensures rest[i].lower > 0 && rest[i].lower - 1 !in Union(fewer) {
        var y := rs[i + 1].lower;
        if y - 1 in Union(fewer) {
          UnionMember(fewer, y - 1);
          UnionMember(cover, y - 1);
        }
      }
      SeparatedIsMinimal(rest, fewer);
    }
  }

  lemma SeparatedGap(rs: seq<Range>, i: nat)
    requires Separated(rs) && 0 < i < |rs|
    ensures rs[i].lower > 0 && rs[i].lower - 1 !in Union(rs)
  {
    assert rs[i - 1].upper + 1 < rs[i].lower;
    UnionMember(rs, rs[i].lower - 1);
    forall j | 0 <= j < |rs| ensures rs[i].lower - 1 !in Members(rs[j]) {
    }
  }

  /** For a list without duplicates the printed ranges increase, never touch,
      and are as few as any list of ranges with the same union. */
  lemma {:induction false} AbbrevIsMinimal(vals: seq<nat>, cover: seq<Range>)
    requires forall i, j :: 0 <= i < j < |vals| ==> vals[i] != vals[j]
    requires Union(cover) == Elements(vals)
    ensures Separated(Runs(Ascending(vals))) && |Runs(Ascending(vals))| <= |cover|
  {
    var s := Ascending(vals);
    AscendingStrictly(vals);
    Sorting.SortElements(vals, AtMost());
    assert Elements(s) == Elements(vals);
    var rs := Runs(s);
    RunsUnion(s);
    if s != [] {
      RunsFromSeparated(s[0], s[0], s[1..]);
    }
    forall i | 0 <= i < |rs| ensures rs[i].lower in Union(cover) {
      UnionMember(rs, rs[i].lower);
      assert rs[i].lower in Members(rs[i]);
    }
    forall i | 0 < i < |rs| ensures rs[i].lower > 0 && rs[i].lower - 1 !in Union(cover) {
      SeparatedGap(rs, i);
    }
    SeparatedIsMinimal(rs, cover);
  }

  lemma {:induction false} DistinctCounts(s: seq<nat>)
    requires forall i, j :: 0 <= i < j < |s| ==> s[i] != s[j]
    ensures forall x :: multiset(s)[x] <= 1
  {
    if s != [] {
      DistinctCounts(s[1..]);
      assert s == [s[0]] + s[1..];
      assert s[0] !in s[1..];
    }
  }

  lemma CountOfPair(s: seq<nat>, i: nat, j: nat)
    requires i < j < |s|
    ensures s[i] == s[j] ==> multiset(s)[s[i]] >= 2
  {
    assert s == s[..i] + [s[i]] + s[i + 1..j] + [s[j]] + s[j + 1..];
  }

  lemma AscendingStrictly(vals: seq<nat>)
    requires forall i, j :: 0 <= i < j < |vals| ==> vals[i] != vals[j]
    ensures StrictlyAscending(Ascending(vals))
  {
    var s := Ascending(vals);
    Sorting.SortSorted(vals, AtMost());
    Sorting.SortPermutes(vals, AtMost());
    DistinctCounts(vals);
    forall i, j | 0 <= i < j < |s| ensures s[i] < s[j] {
      CountOfPair(s, i, j);
    }
  }
}
