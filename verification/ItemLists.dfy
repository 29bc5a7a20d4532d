/** The item lists of cli/topic_common.py: items separated by commas, or by commas
    and white space, in which a backslash escapes a comma or a backslash. */
module ItemLists {

  const NUL: char := 0 as char

  /** string.whitespace, which is also what \s matches and strip removes. */
  predicate IsSpace(c: char) {
    c == ' ' || c == '\t' || c == '\n' || c == '\r' || c == 11 as char || c == 12 as char
  }

  function LStrip(s: string): string {
    if s != [] && IsSpace(s[0]) then LStrip(s[1..]) else s
  }

  function RStrip(s: string): string {
    if s != [] && IsSpace(s[|s| - 1]) then RStrip(s[..|s| - 1]) else s
  }

  function Strip(s: string): string {
    RStrip(LStrip(s))
  }

  // ----------------------------------- hide, split, unescape: three passes

  /** input.replace('\\\\', NUL): leftmost pairs of backslashes become one NUL. */
  function HidePairs(s: string): string {
    if |s| >= 2 && s[0] == '\\' && s[1] == '\\' then [NUL] + HidePairs(s[2..])
    else if s == [] then [] else [s[0]] + HidePairs(s[1..])
  }

  /** The regular expressions: a comma that no backslash precedes or, in the
      other mode, any white space as well. */
  predicate Separates(prev: char, c: char, spaces: bool) {
    (c == ',' && prev != '\\') || (spaces && IsSpace(c))
  }

  /** re.split, `prev` being the character before s. */
  function Split(prev: char, s: string, spaces: bool): (parts: seq<string>)
    ensures parts != []
    decreases |s|
  {
    if s == [] then [[]]
    else
      var rest := Split(s[0], s[1..], spaces);
      if Separates(prev, s[0], spaces) then [[]] + rest else [[s[0]] + rest[0]] + rest[1..]
  }

  /** replace(NUL, '\\') */
  function ShowHidden(s: string): string {
    if s == [] then [] else [if s[0] == NUL then '\\' else s[0]] + ShowHidden(s[1..])
  }

  /** replace('\\,', ',') */
  function PlainCommas(s: string): string {
    if |s| >= 2 && s[0] == '\\' && s[1] == ',' then [','] + PlainCommas(s[2..])
    else if s == [] then [] else [s[0]] + PlainCommas(s[1..])
  }

  function Unescape(s: string): string {
    PlainCommas(ShowHidden(s))
  }

  /** (unescape(item.strip()) for item in parts if item.strip()) */
  function Finish(parts: seq<string>): seq<string> {
    if parts == [] then []
    else (if Strip(parts[0]) == [] then [] else [Unescape(Strip(parts[0]))]) + Finish(parts[1..])
  }

  /** __get_items; nothing precedes the first character. */
  function GetItems(input: string, spaces: bool): seq<string> {
    Finish(Split(NUL, HidePairs(input), spaces))
  }

  // ------------------------------------------ the reference: one pass, no tricks

  /** Reads the input once. A backslash before a backslash or a comma yields that
      character; a separator ends the item; anything else stands for itself. */
  function Scan(s: string, spaces: bool): (items: seq<string>)
    ensures items != []
    decreases |s|
  {
    if s == [] then [[]]
    else if s[0] == '\\' && |s| >= 2 && (s[1] == '\\' || s[1] == ',') then
      var rest := Scan(s[2..], spaces);
      [[s[1]] + rest[0]] + rest[1..]
    else
      var rest := Scan(s[1..], spaces);
      if s[0] == ',' || (spaces && IsSpace(s[0])) then [[]] + rest
      else [[s[0]] + rest[0]] + rest[1..]
  }

  function NonEmpty(items: seq<string>): seq<string> {
    if items == [] then []
    else (if Strip(items[0]) == [] then [] else [Strip(items[0])]) + NonEmpty(items[1..])
  }

  function ScanItems(input: string, spaces: bool): seq<string> {
    NonEmpty(Scan(input, spaces))
  }

  // ---------------------------------------------------------- the two agree

  predicate NulFree(s: string) { NUL !in s }

  function UnescapeAll(parts: seq<string>): seq<string> {
    if parts == [] then [] else [Unescape(parts[0])] + UnescapeAll(parts[1..])
  }

  /** After anything but a backslash, a part cannot start with a comma. */
  lemma PartStart(prev: char, s: string, spaces: bool)
    requires prev != '\\' || s == [] || s[0] != ','
    ensures Split(prev, s, spaces)[0] != [] ==> Split(prev, s, spaces)[0][0] != ','
  {
  }

  lemma UnescapeComma(s: string)
    ensures Unescape(['\\', ','] + s) == [','] + Unescape(s)
  {
    assert ['\\', ','] + s == ['\\'] + ([','] + s);
    assert (['\\'] + ([','] + s))[1..] == [','] + s && ([','] + s)[1..] == s;
    assert ShowHidden(['\\', ','] + s) == ['\\'] + ([','] + ShowHidden(s));
    assert ShowHidden(['\\', ','] + s)[2..] == ShowHidden(s);
  }

  /** Hiding, splitting and unescaping the parts is the one-pass scan. */
  lemma {:induction false} PipelineIsScan(prev: char, s: string, spaces: bool)
    requires NulFree(s) && prev != '\\'
    ensures UnescapeAll(Split(prev, HidePairs(s), spaces)) == Scan(s, spaces)
    decreases |s|
  {
    if s == [] {
      assert Unescape([]) == [];
    } else if s[0] == '\\' && |s| >= 2 && s[1] == '\\' {
      PipelineIsScan(NUL, s[2..], spaces);
      Prepended(prev, NUL, HidePairs(s[2..]), spaces);
    } else if s[0] == '\\' && |s| >= 2 && s[1] == ',' {
      PipelineIsScan(',', s[2..], spaces);
      PrependedComma(prev, s, spaces);
    } else if s[0] == '\\' {
      PipelineIsScan(NUL, s[1..], spaces);
      Prepended(prev, s[0], HidePairs(s[1..]), spaces);
    } else {
      PipelineIsScan(s[0], s[1..], spaces);
      if Separates(prev, s[0], spaces) {
        SplitHere(prev, s[0], HidePairs(s[1..]), spaces);
      } else {
        Prepended(prev, s[0], HidePairs(s[1..]), spaces);
      }
    }
  }

  /** A character that neither separates nor escapes is put in front of the first part. */
  lemma Prepended(prev: char, c: char, h: string, spaces: bool)
    requires !Separates(prev, c, spaces)
    requires c != '\\' || h == [] || h[0] != ','
    ensures var rest := UnescapeAll(Split(c, h, spaces));
            UnescapeAll(Split(prev, [c] + h, spaces))
            == [[if c == NUL then '\\' else c] + rest[0]] + rest[1..]
  {
    var parts := Split(c, h, spaces);
    assert ([c] + h)[1..] == h;
    PartStart(c, h, spaces);
    assert Split(prev, [c] + h, spaces) == [[c] + parts[0]] + parts[1..];
    assert ([[c] + parts[0]] + parts[1..])[1..] == parts[1..];
  }

  lemma SplitHere(prev: char, c: char, h: string, spaces: bool)
    requires Separates(prev, c, spaces)
    ensures UnescapeAll(Split(prev, [c] + h, spaces)) == [[]] + UnescapeAll(Split(c, h, spaces))
  {
    assert ([c] + h)[1..] == h;
    assert Unescape([]) == [];
    assert ([[]] + Split(c, h, spaces))[1..] == Split(c, h, spaces);
  }

  lemma PrependedComma(prev: char, s: string, spaces: bool)
    requires |s| >= 2 && s[0] == '\\' && s[1] == ','
    ensures var rest := UnescapeAll(Split(',', HidePairs(s[2..]), spaces));
            UnescapeAll(Split(prev, HidePairs(s), spaces)) == [[','] + rest[0]] + rest[1..]
  {
    var h := HidePairs(s[2..]);
    var parts := Split(',', h, spaces);
    assert s[1..][1..] == s[2..];
    assert HidePairs(s[1..]) == [','] + h;
    assert HidePairs(s) == ['\\'] + ([','] + h);
    assert (['\\'] + ([','] + h))[1..] == [','] + h && ([','] + h)[1..] == h;
    assert Split('\\', [','] + h, spaces) == [[','] + parts[0]] + parts[1..];
    assert Split(prev, HidePairs(s), spaces) == [['\\'] + ([','] + parts[0])] + parts[1..];
    assert ['\\'] + ([','] + parts[0]) == ['\\', ','] + parts[0];
    UnescapeComma(parts[0]);
    assert ([['\\', ','] + parts[0]] + parts[1..])[1..] == parts[1..];
  }

  // --------------------------------------------- stripping before or after

  lemma {:induction false} UnescapeEnd(s: string, c: char)
    requires c != ','
    ensures Unescape(s + [c]) == Unescape(s) + [if c == NUL then '\\' else c]
  {
    ShowHiddenEnd(s, c);
    PlainCommasEnd(ShowHidden(s), if c == NUL then '\\' else c);
  }

  lemma {:induction false} ShowHiddenEnd(s: string, c: char)
    ensures ShowHidden(s + [c]) == ShowHidden(s) + [if c == NUL then '\\' else c]
  {
    if s == [] {
      assert [] + [c] == [c];
    } else {
      assert (s + [c])[1..] == s[1..] + [c];
      ShowHiddenEnd(s[1..], c);
    }
  }

  lemma {:induction false} PlainCommasEnd(s: string, c: char)
    requires c != ','
    ensures PlainCommas(s + [c]) == PlainCommas(s) + [c]
    decreases |s|
  {
    if |s| >= 2 && s[0] == '\\' && s[1] == ',' {
      assert (s + [c])[2..] == s[2..] + [c];
      PlainCommasEnd(s[2..], c);
    } else if s != [] {
      assert (s + [c])[1..] == s[1..] + [c];
      PlainCommasEnd(s[1..], c);
    } else {
      assert [] + [c] == [c] && [c][1..] == [];
    }
  }

  lemma {:induction false} UnescapeLStrip(s: string)
    ensures LStrip(Unescape(s)) == Unescape(LStrip(s))
  {
    if s != [] && IsSpace(s[0]) {
      assert [s[0]] + s[1..] == s;
      assert ([s[0]] + Unescape(s[1..]))[1..] == Unescape(s[1..]);
      UnescapeLStrip(s[1..]);
    }
  }

  lemma {:induction false} PlainCommasLast(s: string)
    requires s != [] && !IsSpace(s[|s| - 1])
    ensures PlainCommas(s) != [] && !IsSpace(PlainCommas(s)[|PlainCommas(s)| - 1])
    decreases |s|
  {
    if |s| >= 2 && s[0] == '\\' && s[1] == ',' {
      if |s| > 2 { PlainCommasLast(s[2..]); }
    } else if |s| > 1 {
      PlainCommasLast(s[1..]);
    }
  }

  lemma {:induction false} ShowHiddenAt(s: string)
    ensures |ShowHidden(s)| == |s|
    ensures forall i :: 0 <= i < |s| ==> ShowHidden(s)[i] == if s[i] == NUL then '\\' else s[i]
  {
    if s != [] {
      ShowHiddenAt(s[1..]);
    }
  }

  lemma {:induction false} UnescapeRStrip(s: string)
    ensures RStrip(Unescape(s)) == Unescape(RStrip(s))
    decreases |s|
  {
    if s != [] {
      var n := |s| - 1;
      if IsSpace(s[n]) {
        assert s == s[..n] + [s[n]];
        UnescapeEnd(s[..n], s[n]);
        var u := Unescape(s);
        assert u[..|u| - 1] == Unescape(s[..n]);
        UnescapeRStrip(s[..n]);
      } else {
        ShowHiddenAt(s);
        PlainCommasLast(ShowHidden(s));
      }
    }
  }

  lemma UnescapeStrip(s: string)
    ensures Strip(Unescape(s)) == Unescape(Strip(s))
    ensures Unescape(s) == [] <==> s == []
  {
    UnescapeLStrip(s);
    UnescapeRStrip(LStrip(s));
  }

  lemma {:induction false} FinishIsNonEmpty(parts: seq<string>)
    ensures Finish(parts) == NonEmpty(UnescapeAll(parts))
  {
    if parts != [] {
      UnescapeStrip(parts[0]);
      UnescapeStrip(Strip(parts[0]));
      FinishIsNonEmpty(parts[1..]);
    }
  }

  // ---------------------------------------------------- what a NUL would do

  ghost predicate HasNul(items: seq<string>) {
    exists i :: 0 <= i < |items| && NUL in items[i]
  }

  lemma {:induction false} ShowHiddenNulFree(s: string)
    ensures NulFree(Unescape(s))
  {
    ShowHiddenAt(s);
    PlainCommasNulFree(ShowHidden(s));
  }

  lemma {:induction false} PlainCommasNulFree(s: string)
    requires NulFree(s)
    ensures NulFree(PlainCommas(s))
    decreases |s|
  {
    if |s| >= 2 && s[0] == '\\' && s[1] == ',' {
      PlainCommasNulFree(s[2..]);
    } else if s != [] {
      PlainCommasNulFree(s[1..]);
    }
  }

  lemma {:induction false} FinishNulFree(parts: seq<string>)
    ensures !HasNul(Finish(parts))
  {
    if parts != [] {
      FinishNulFree(parts[1..]);
      ShowHiddenNulFree(Strip(parts[0]));
    }
  }

  lemma {:induction false} ScanKeepsNul(s: string, spaces: bool)
    requires NUL in s
    ensures HasNul(Scan(s, spaces))
    decreases |s|
  {
    var n := if s[0] == '\\' && |s| >= 2 && (s[1] == '\\' || s[1] == ',') then 2 else 1;
    var rest := Scan(s[n..], spaces);
    if s[0] == NUL {
      assert NUL in Scan(s, spaces)[0];
    } else {
      ScanKeepsNul(s[n..], spaces);
      var i :| 0 <= i < |rest| && NUL in rest[i];
      if n == 1 && (s[0] == ',' || (spaces && IsSpace(s[0]))) {
        assert Scan(s, spaces)[i + 1] == rest[i];
      } else {
        assert NUL in Scan(s, spaces)[i];
      }
    }
  }

  lemma {:induction false} StripKeeps(s: string, c: char)
    requires c in s && !IsSpace(c)
    ensures c in Strip(s)
  {
    LStripKeeps(s, c);
    RStripKeeps(LStrip(s), c);
  }

  lemma {:induction false} LStripKeeps(s: string, c: char)
    requires c in s && !IsSpace(c)
    ensures c in LStrip(s)
  {
    if s != [] && IsSpace(s[0]) {
      LStripKeeps(s[1..], c);
    }
  }

  lemma {:induction false} RStripKeeps(s: string, c: char)
    requires c in s && !IsSpace(c)
    ensures c in RStrip(s)
  {
    if s != [] && IsSpace(s[|s| - 1]) {
      RStripKeeps(s[..|s| - 1], c);
    }
  }

  lemma {:induction false} NonEmptyKeepsNul(items: seq<string>)
    requires HasNul(items)
    ensures HasNul(NonEmpty(items))
  {
    var i :| 0 <= i < |items| && NUL in items[i];
    if i == 0 {
      StripKeeps(items[0], NUL);
      assert NUL in NonEmpty(items)[0];
    } else {
      assert items[1..][i - 1] == items[i];
      NonEmptyKeepsNul(items[1..]);
      var rest := NonEmpty(items[1..]);
      var j :| 0 <= j < |rest| && NUL in rest[j];
      assert NonEmpty(items)[|NonEmpty(items)| - |rest| + j] == rest[j];
    }
  }

  /** The three passes parse an input as the one-pass scan does if and only if the
      input holds no NUL character, which the passes use for their own purposes. */
  lemma ParserIsScanExactly(input: string, spaces: bool)
    ensures GetItems(input, spaces) == ScanItems(input, spaces) <==> NulFree(input)
  {
    if NulFree(input) {
      PipelineIsScan(NUL, input, spaces);
      FinishIsNonEmpty(Split(NUL, HidePairs(input), spaces));
    } else {
      ScanKeepsNul(input, spaces);
      NonEmptyKeepsNul(Scan(input, spaces));
      FinishNulFree(Split(NUL, HidePairs(input), spaces));
    }
  }

  // --------------------------------------------------------------- round trip

  function Escape(item: string): string {
    if item == [] then []
    else (if item[0] == '\\' || item[0] == ',' then ['\\', item[0]] else [item[0]]) + Escape(item[1..])
  }

  function JoinEscaped(items: seq<string>): string {
    if items == [] then []
    else if |items| == 1 then Escape(items[0])
    else Escape(items[0]) + [','] + JoinEscaped(items[1..])
  }

  /** What an item must be to survive: something, without NUL, without white space
      at its ends or, where white space separates, anywhere. */
  predicate Listable(item: string, spaces: bool) {
    item != [] && NulFree(item) && Strip(item) == item && (spaces ==> forall c :: c in item ==> !IsSpace(c))
  }

  /** Putting x before the first item. */
  function Onto(x: string, items: seq<string>): seq<string>
    requires items != []
  {
    [x + items[0]] + items[1..]
  }

  lemma OntoTwice(x: string, y: string, items: seq<string>)
    requires items != []
    ensures Onto(x, Onto(y, items)) == Onto(x + y, items)
  {
    assert Onto(y, items)[1..] == items[1..];
    assert x + (y + items[0]) == (x + y) + items[0];
  }

  lemma {:induction false} ScanEscaped(item: string, more: string, spaces: bool)
    requires spaces ==> forall c :: c in item ==> !IsSpace(c)
    ensures Scan(Escape(item) + more, spaces) == Onto(item, Scan(more, spaces))
  {
    if item == [] {
      assert Escape(item) + more == more;
      assert [] + Scan(more, spaces)[0] == Scan(more, spaces)[0];
    } else {
      var c, tail := item[0], Escape(item[1..]) + more;
      var head := if c == '\\' || c == ',' then ['\\', c] else [c];
      ScanEscaped(item[1..], more, spaces);
      ScanEscapedChar(c, tail, spaces);
      assert Escape(item) + more == head + tail;
      OntoTwice([c], item[1..], Scan(more, spaces));
      assert [c] + item[1..] == item;
    }
  }

  lemma ScanEscapedChar(c: char, tail: string, spaces: bool)
    requires spaces ==> !IsSpace(c)
    ensures Scan((if c == '\\' || c == ',' then ['\\', c] else [c]) + tail, spaces) == Onto([c], Scan(tail, spaces))
  {
    if c == '\\' || c == ',' {
      assert (['\\', c] + tail)[2..] == tail;
    } else {
      assert ([c] + tail)[1..] == tail;
    }
  }

  lemma {:induction false} EscapeNulFree(item: string)
    requires NulFree(item)
    ensures NulFree(Escape(item))
  {
    if item != [] {
      EscapeNulFree(item[1..]);
    }
  }

  lemma JoinedHead(items: seq<string>)
    requires |items| > 1
    ensures JoinEscaped(items) == Escape(items[0]) + ([','] + JoinEscaped(items[1..]))
  {
    assert Escape(items[0]) + [','] + JoinEscaped(items[1..]) == Escape(items[0]) + ([','] + JoinEscaped(items[1..]));
  }

  lemma CommaScan(s: string, spaces: bool)
    ensures Scan([','] + s, spaces) == [[]] + Scan(s, spaces)
  {
    assert ([','] + s)[1..] == s;
  }

  lemma OntoEmpty(x: string, rest: seq<string>)
    ensures Onto(x, [[]] + rest) == [x] + rest
  {
    assert ([[]] + rest)[1..] == rest && x + [] == x;
  }

  lemma {:induction false} JoinedScan(items: seq<string>, spaces: bool)
    requires items != [] && forall i :: 0 <= i < |items| ==> Listable(items[i], spaces)
    ensures Scan(JoinEscaped(items), spaces) == items
  {
    if |items| == 1 {
      ScanEscaped(items[0], [], spaces);
      OntoEmpty(items[0], []);
      assert Escape(items[0]) + [] == Escape(items[0]) && [[]] + [] == Scan([], spaces);
    } else {
      JoinedScan(items[1..], spaces);
      JoinedHead(items);
      ScanEscaped(items[0], [','] + JoinEscaped(items[1..]), spaces);
      CommaScan(JoinEscaped(items[1..]), spaces);
      OntoEmpty(items[0], items[1..]);
    }
  }

  lemma {:induction false} JoinedNulFree(items: seq<string>)
    requires forall i :: 0 <= i < |items| ==> NulFree(items[i])
    ensures NulFree(JoinEscaped(items))
  {
    if items != [] {
      EscapeNulFree(items[0]);
      JoinedNulFree(items[1..]);
    }
  }

  lemma {:induction false} NothingDropped(items: seq<string>, spaces: bool)
    requires forall i :: 0 <= i < |items| ==> Listable(items[i], spaces)
    ensures NonEmpty(items) == items
  {
    if items != [] {
      NothingDropped(items[1..], spaces);
    }
  }

  lemma NothingToParse(spaces: bool)
    ensures GetItems([], spaces) == []
  {
    var one := Split(NUL, HidePairs([]), spaces);
    assert one == [[]] && one[1..] == [];
    assert Strip(one[0]) == [];
    assert Finish(one) == [] + Finish(one[1..]);
  }

  // ------------------------------------------------ only such items come back

  lemma {:induction false} LStripped(s: string)
    ensures LStrip(s) != [] ==> !IsSpace(LStrip(s)[0])
  {
    if s != [] && IsSpace(s[0]) {
      LStripped(s[1..]);
    }
  }

  lemma {:induction false} RStripped(s: string)
    ensures RStrip(s) != [] ==> s != [] && RStrip(s)[0] == s[0] && !IsSpace(RStrip(s)[|RStrip(s)| - 1])
  {
    if s != [] && IsSpace(s[|s| - 1]) {
      RStripped(s[..|s| - 1]);
    }
  }

  lemma StripTwice(s: string)
    ensures Strip(Strip(s)) == Strip(s)
  {
    LStripped(s);
    RStripped(LStrip(s));
  }

  ghost predicate NoSpace(s: string) {
    forall c :: c in s ==> !IsSpace(c)
  }

  lemma {:induction false} SplitNoSpace(prev: char, s: string)
    ensures forall i :: 0 <= i < |Split(prev, s, true)| ==> NoSpace(Split(prev, s, true)[i])
    decreases |s|
  {
    if s != [] {
      SplitNoSpace(s[0], s[1..]);
    }
  }

  lemma {:induction false} PlainCommasNoSpace(s: string)
    requires NoSpace(s)
    ensures NoSpace(PlainCommas(s))
    decreases |s|
  {
    if |s| >= 2 && s[0] == '\\' && s[1] == ',' {
      PlainCommasNoSpace(s[2..]);
    } else if s != [] {
      PlainCommasNoSpace(s[1..]);
    }
  }

  lemma UnescapeNoSpace(s: string)
    requires NoSpace(s)
    ensures NoSpace(Unescape(s))
  {
    ShowHiddenAt(s);
    PlainCommasNoSpace(ShowHidden(s));
  }

  lemma {:induction false} StripWithin(s: string, c: char)
    requires c in Strip(s)
    ensures c in s
  {
    LStripWithin(s, c);
    RStripWithin(LStrip(s), c);
  }

  lemma {:induction false} LStripWithin(s: string, c: char)
    ensures c in LStrip(s) ==> c in s
  {
    if s != [] && IsSpace(s[0]) {
      LStripWithin(s[1..], c);
    }
  }

  lemma {:induction false} RStripWithin(s: string, c: char)
    ensures c in RStrip(s) ==> c in s
  {
    if s != [] && IsSpace(s[|s| - 1]) {
      RStripWithin(s[..|s| - 1], c);
    }
  }

  lemma FinishedItem(part: string, spaces: bool)
    requires Strip(part) != [] && (spaces ==> NoSpace(part))
    ensures Listable(Unescape(Strip(part)), spaces)
  {
    StripTwice(part);
    UnescapeStrip(Strip(part));
    ShowHiddenNulFree(Strip(part));
    if spaces {
      forall c | c in Strip(part) ensures !IsSpace(c) {
        StripWithin(part, c);
      }
      UnescapeNoSpace(Strip(part));
    }
  }

  lemma {:induction false} FinishedItems(parts: seq<string>, spaces: bool)
    requires spaces ==> forall i :: 0 <= i < |parts| ==> NoSpace(parts[i])
    ensures forall i :: 0 <= i < |Finish(parts)| ==> Listable(Finish(parts)[i], spaces)
  {
    if parts != [] {
      if Strip(parts[0]) != [] {
        FinishedItem(parts[0], spaces);
      }
      FinishedItems(parts[1..], spaces);
    }
  }

  /** Whatever the parser returns, from any input, could have been listed. */
  lemma ParsedIsListable(input: string, spaces: bool, i: nat)
    requires i < |GetItems(input, spaces)|
    ensures Listable(GetItems(input, spaces)[i], spaces)
  {
    if spaces {
      SplitNoSpace(NUL, HidePairs(input));
    }
    FinishedItems(Split(NUL, HidePairs(input), spaces), spaces);
  }

  /** Escaping backslashes and commas, joining with commas and parsing gives the
      items back, in either mode, if and only if each can be listed in that mode. */
  lemma {:induction false} ItemsRoundTrip(items: seq<string>, spaces: bool)
    ensures GetItems(JoinEscaped(items), spaces) == items
            <==> forall i :: 0 <= i < |items| ==> Listable(items[i], spaces)
  {
    if forall i :: 0 <= i < |items| ==> Listable(items[i], spaces) {
      if items == [] {
        NothingToParse(spaces);
      } else {
        JoinedScan(items, spaces);
        JoinedNulFree(items);
        NothingDropped(items, spaces);
        ParserIsScanExactly(JoinEscaped(items), spaces);
      }
    } else if GetItems(JoinEscaped(items), spaces) == items {
      forall i: nat | i < |items| ensures Listable(items[i], spaces) {
        ParsedIsListable(JoinEscaped(items), spaces, i);
      }
    }
  }
}
