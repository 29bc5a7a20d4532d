/** The failure report of cli/topic_common.py: equal errors are gathered under one
    message by putting a tag where the item stood, and the item is put back when
    the message is shown. */
module Failures {
  import opened Replacing

  const FAIL_TAG: string := "<XYZ>"

  datatype Item = NoItem | Item(name: string)

  /** self.failed: what failed, then the tagged message, then the items. */
  type Failed = map<string, map<string, set<Item>>>

  // ------------------------------------------------------------- one message

  /** The message under which a failure of `item` is filed. */
  function Tagged(msg: string, item: Item): string {
    if item.Item? && item.name != [] && Has(msg, item.name) then Replace(msg, item.name, FAIL_TAG) else msg
  }

  /** The restoring replacement of show_all_failures. */
  function Restored(key: string, name: string): string {
    Replace(key, FAIL_TAG, name)
  }

  /** How often the tag is in s. */
  function Tags(s: string): nat {
    |Pieces(s, FAIL_TAG)| - 1
  }

  function Scale(n: nat, k: nat): nat {
    if k == 0 then 0 else n + Scale(n, k - 1)
  }

  lemma {:induction false} ScaleSum(n: nat, a: nat, b: nat)
    ensures Scale(n, a + b) == Scale(n, a) + Scale(n, b)
    decreases a
  {
    if a > 0 {
      ScaleSum(n, a - 1, b);
    }
  }

  lemma {:induction false} ReplaceLength(s: string, rep: string)
    ensures |Replace(s, FAIL_TAG, rep)| + Scale(5, Tags(s)) == |s| + Scale(|rep|, Tags(s))
    decreases |s|
  {
    if |s| >= 5 {
      if s[..5] == FAIL_TAG {
        ReplaceLength(s[5..], rep);
        assert Tags(s) == Tags(s[5..]) + 1;
      } else {
        ReplaceLength(s[1..], rep);
        assert Tags(s) == Tags(s[1..]);
      }
    }
  }

  function Count(ps: seq<string>): nat {
    if ps == [] then 0 else Tags(ps[0]) + Count(ps[1..])
  }

  lemma {:induction false} JoinedLength(ps: seq<string>, rep: string)
    requires ps != []
    ensures |JoinWith(ReplaceEach(ps, FAIL_TAG, rep), rep)| + Scale(5, Count(ps))
            == |JoinWith(ps, rep)| + Scale(|rep|, Count(ps))
  {
    ReplaceLength(ps[0], rep);
    if |ps| > 1 {
      JoinedLength(ps[1..], rep);
    }
    ScaleSum(5, Tags(ps[0]), Count(ps[1..]));
    ScaleSum(|rep|, Tags(ps[0]), Count(ps[1..]));
  }

  lemma {:induction false} EachLength(ps: seq<string>, rep: string)
    ensures |ReplaceEach(ps, FAIL_TAG, rep)| == |ps|
  {
    if ps != [] {
      EachLength(ps[1..], rep);
    }
  }

  /** A text of the tag's length, but not the tag, is not left in its place. */
  lemma {:induction false} ReplaceChanges(s: string, rep: string)
    requires |rep| == |FAIL_TAG| && rep != FAIL_TAG && Has(s, FAIL_TAG)
    ensures Replace(s, FAIL_TAG, rep) != s && |Replace(s, FAIL_TAG, rep)| == |s|
    decreases |s|
  {
    ReplaceLength(s, rep);
    if s[..5] == FAIL_TAG {
      assert Replace(s, FAIL_TAG, rep)[..5] == rep;
    } else {
      ReplaceChanges(s[1..], rep);
      assert Replace(s, FAIL_TAG, rep)[1..] == Replace(s[1..], FAIL_TAG, rep);
    }
  }

  lemma {:induction false} EachUnchanged(ps: seq<string>, rep: string)
    requires ps != [] && |rep| == |FAIL_TAG| && rep != FAIL_TAG
    requires JoinWith(ReplaceEach(ps, FAIL_TAG, rep), rep) == JoinWith(ps, rep)
    ensures forall i :: 0 <= i < |ps| ==> !Has(ps[i], FAIL_TAG)
  {
    var each := ReplaceEach(ps, FAIL_TAG, rep);
    ReplaceLength(ps[0], rep);
    assert JoinWith(each, rep)[..|ps[0]|] == each[0];
    assert JoinWith(ps, rep)[..|ps[0]|] == ps[0];
    if Has(ps[0], FAIL_TAG) {
      ReplaceChanges(ps[0], rep);
    }
    if |ps| > 1 {
      assert JoinWith(each, rep)[|ps[0]| + 5..] == JoinWith(each[1..], rep);
      assert JoinWith(ps, rep)[|ps[0]| + 5..] == JoinWith(ps[1..], rep);
      EachUnchanged(ps[1..], rep);
    }
  }

  lemma {:induction false} CountZero(ps: seq<string>)
    ensures Count(ps) == 0 <==> forall i :: 0 <= i < |ps| ==> !Has(ps[i], FAIL_TAG)
  {
    if ps != [] {
      CountZero(ps[1..]);
      assert forall i :: 0 < i < |ps| ==> ps[i] == ps[1..][i - 1];
    }
  }

  lemma {:induction false} EachReplacedByNothing(ps: seq<string>, rep: string)
    requires forall i :: 0 <= i < |ps| ==> !Has(ps[i], FAIL_TAG)
    ensures ReplaceEach(ps, FAIL_TAG, rep) == ps
  {
    if ps != [] {
      ReplaceNothing(ps[0], FAIL_TAG, rep);
      EachReplacedByNothing(ps[1..], rep);
    }
  }

  lemma {:induction false} TagForTag(s: string)
    ensures Replace(s, FAIL_TAG, FAIL_TAG) == s
  {
    ReplaceIsJoin(s, FAIL_TAG, FAIL_TAG);
    JoinPieces(s, FAIL_TAG);
  }

  /** Putting the item back restores a message it occurs in if and only if the
      item is the tag itself or the tag is in no piece of the message between
      occurrences of the item. */
  lemma RestoredExactly(msg: string, name: string)
    requires name != []
    ensures Restored(Replace(msg, name, FAIL_TAG), name) == msg
            <==> name == FAIL_TAG || forall i :: 0 <= i < |Pieces(msg, name)| ==> !Has(Pieces(msg, name)[i], FAIL_TAG)
  {
    var ps := Pieces(msg, name);
    ReplaceIsJoin(msg, name, FAIL_TAG);
    JoinPieces(msg, name);
    if name == FAIL_TAG {
      TagForTag(msg);
    } else {
      ReplaceJoined(ps, FAIL_TAG, name);
      CountZero(ps);
      if Count(ps) == 0 {
        EachReplacedByNothing(ps, name);
      } else {
        JoinedLength(ps, name);
        if JoinWith(ReplaceEach(ps, FAIL_TAG, name), name) == msg {
          SameLength(|name|, Count(ps));
          EachUnchanged(ps, name);
        }
      }
    }
  }

  lemma {:induction false} SameLength(n: nat, count: nat)
    requires count > 0 && Scale(5, count) == Scale(n, count)
    ensures n == 5
  {
    ScaleMonotone(5, n, count);
    ScaleMonotone(n, 5, count);
  }

  lemma {:induction false} ScaleMonotone(a: nat, b: nat, k: nat)
    ensures a <= b ==> Scale(a, k) <= Scale(b, k)
    ensures a < b && k > 0 ==> Scale(a, k) < Scale(b, k)
  {
    if k > 0 {
      ScaleMonotone(a, b, k - 1);
    }
  }

  /** The pieces of a message without the tag have no tag in them. */
  lemma PiecesWithoutTag(msg: string, name: string, i: nat)
    requires name != [] && !Has(msg, FAIL_TAG) && i < |Pieces(msg, name)|
    ensures !Has(Pieces(msg, name)[i], FAIL_TAG)
  {
    var at := PieceAt(msg, name, i);
    InSlice(msg, at, Pieces(msg, name)[i]);
  }

  lemma SliceOfSlice(s: string, lo: nat, hi: nat, i: nat, j: nat)
    requires lo <= hi <= |s| && i <= j <= hi - lo
    ensures s[lo..hi][i..j] == s[lo + i..lo + j]
  {
    var a, b := s[lo..hi][i..j], s[lo + i..lo + j];
    assert |a| == |b|;
    forall k | 0 <= k < |a| ensures a[k] == b[k] {
      assert a[k] == s[lo..hi][i + k];
      assert s[lo..hi][i + k] == s[lo + (i + k)];
    }
  }

  lemma InSlice(s: string, at: nat, p: string)
    requires at + |p| <= |s| && s[at..at + |p|] == p && !Has(s, FAIL_TAG)
    ensures !Has(p, FAIL_TAG)
  {
    HasAt(p, FAIL_TAG);
    HasAt(s, FAIL_TAG);
    if k: nat :| At(p, FAIL_TAG, k) {
      SliceOfSlice(s, at, at + |p|, k, k + |FAIL_TAG|);
      assert At(s, FAIL_TAG, at + k);
    }
  }

  /** Where the i-th piece stands in the message. */
  lemma {:induction false} PieceAt(msg: string, name: string, i: nat) returns (at: nat)
    requires name != [] && i < |Pieces(msg, name)|
    ensures at + |Pieces(msg, name)[i]| <= |msg|
    ensures msg[at..at + |Pieces(msg, name)[i]|] == Pieces(msg, name)[i]
    ensures i == 0 ==> at == 0
    decreases |msg|
  {
    if |msg| < |name| {
      at := 0;
    } else if msg[..|name|] == name {
      if i == 0 {
        at := 0;
      } else {
        at := PieceAt(msg[|name|..], name, i - 1);
        assert Pieces(msg, name)[i] == Pieces(msg[|name|..], name)[i - 1];
        LaterSlice(msg, |name|, at, Pieces(msg, name)[i]);
        at := at + |name|;
      }
    } else {
      at := PieceAt(msg[1..], name, i);
      if i == 0 {
        assert Pieces(msg, name)[0] == [msg[0]] + Pieces(msg[1..], name)[0];
        FirstSlice(msg, Pieces(msg[1..], name)[0]);
      } else {
        assert Pieces(msg, name)[i] == Pieces(msg[1..], name)[i];
        LaterSlice(msg, 1, at, Pieces(msg, name)[i]);
        at := at + 1;
      }
    }
  }

  lemma LaterSlice(s: string, from: nat, at: nat, p: string)
    requires from <= |s| && at + |p| <= |s| - from && s[from..][at..at + |p|] == p
    ensures s[from + at..from + at + |p|] == p
  {
    SliceOfSlice(s, from, |s|, at, at + |p|);
    assert s[from..|s|] == s[from..];
  }

  lemma FirstSlice(s: string, p: string)
    requires s != [] && |p| < |s| && s[1..][0..|p|] == p
    ensures s[0..|p| + 1] == [s[0]] + p
  {
    LaterSlice(s, 1, 0, p);
    assert s[0..|p| + 1] == [s[0]] + s[1..|p| + 1];
  }

  /** For a message without the tag, restoring undoes tagging whatever the item. */
  lemma TagRoundTrip(msg: string, item: Item)
    requires !Has(msg, FAIL_TAG)
    ensures Restored(Tagged(msg, item), if item.Item? then item.name else []) == msg
  {
    if item.Item? && item.name != [] && Has(msg, item.name) {
      forall i | 0 <= i < |Pieces(msg, item.name)| ensures !Has(Pieces(msg, item.name)[i], FAIL_TAG) {
        PiecesWithoutTag(msg, item.name, i);
      }
      RestoredExactly(msg, item.name);
    } else {
      ReplaceNothing(msg, FAIL_TAG, if item.Item? then item.name else []);
    }
  }

  /** What show_all_failures prints below one heading: the text alone, the text
      indented, or the text with the names it stands for. */
  datatype Block = Bare(text: string) | Line(text: string) | Listed(text: string, names: set<string>)

  function ShownLine(key: string, name: string): string {
    if Has(key, FAIL_TAG) then Restored(key, name) else key + " (" + name + ")"
  }

  ghost function Shown(key: string, names: set<string>): Block {
    if names == {} then Bare(key)
    else if names == {""} then Line(key)
    else if |names| == 1 then
      var name :| name in names;
      Line(ShownLine(key, name))
    else Listed(key, names)
  }

  /** A single item's failure is shown with its original message, and with the
      item named behind it exactly when the message does not name it. */
  lemma SingleItemShown(msg: string, name: string)
    requires name != [] && !Has(msg, FAIL_TAG)
    ensures ShownLine(Tagged(msg, Item(name)), name) == if Has(msg, name) then msg else msg + " (" + name + ")"
  {
    if Has(msg, name) {
      TagRoundTrip(msg, Item(name));
      ReplaceIsJoin(msg, name, FAIL_TAG);
      var ps := Pieces(msg, name);
      PiecesAround(ps[0], FAIL_TAG, JoinWith(ps[1..], FAIL_TAG));
      assert ps[0] + FAIL_TAG + JoinWith(ps[1..], FAIL_TAG) == Tagged(msg, Item(name));
    }
  }

  // --------------------------------------------------------------- the report

  datatype Report = Report(what: string, msg: string, item: Item)

  function Items(f: Failed, what: string, key: string): set<Item> {
    if what in f && key in f[what] then f[what][key] else {}
  }

  /** The report filed under its tagged message. */
  function File(f: Failed, r: Report): Failed {
    var key := Tagged(r.msg, r.item);
    var byMessage := if r.what in f then f[r.what] else map[];
    f[r.what := byMessage[key := Items(f, r.what, key) + {r.item}]]
  }

  function FileAll(f: Failed, rs: seq<Report>): Failed {
    if rs == [] then f else File(FileAll(f, rs[..|rs| - 1]), rs[|rs| - 1])
  }

  lemma {:induction false} FiledItems(rs: seq<Report>, what: string, key: string, item: Item)
    ensures item in Items(FileAll(map[], rs), what, key)
            <==> exists r :: r in rs && r.what == what && r.item == item && Tagged(r.msg, item) == key
  {
    if rs != [] {
      var n := |rs| - 1;
      FiledItems(rs[..n], what, key, item);
      assert rs == rs[..n] + [rs[n]];
    }
  }

  /** Nothing reported is lost or merged with anything else: among messages
      without the tag, a message was reported for an item exactly when the item
      is filed under the message's tagged form. */
  lemma {:induction false} ReportsRecoverable(rs: seq<Report>, r: Report)
    requires forall x :: x in rs ==> !Has(x.msg, FAIL_TAG)
    requires !Has(r.msg, FAIL_TAG)
    ensures r in rs <==> r.item in Items(FileAll(map[], rs), r.what, Tagged(r.msg, r.item))
  {
    FiledItems(rs, r.what, Tagged(r.msg, r.item), r.item);
    if x :| x in rs && x.what == r.what && x.item == r.item && Tagged(x.msg, r.item) == Tagged(r.msg, r.item) {
      TagRoundTrip(x.msg, r.item);
      TagRoundTrip(r.msg, r.item);
    }
  }

  /** The names among the items. */
  function Names(items: set<Item>): set<string> {
    set i | i in items && i.Item? :: i.name
  }

  /** Each reported failure can be read off what is shown. A line of its own is
      the original message, which names the item or is followed by its name; a
      list holds the item's name, and putting that name for the tag in the text
      gives the original message. */
  lemma {:induction false} ReportShown(rs: seq<Report>, r: Report)
    requires forall x :: x in rs ==> x.item.Item? && !Has(x.msg, FAIL_TAG)
    requires r in rs && r.item.name != []
    ensures var key := Tagged(r.msg, r.item);
            match Shown(key, Names(Items(FileAll(map[], rs), r.what, key)))
            case Bare(_) => false
            case Line(text) => text == if Has(r.msg, r.item.name) then r.msg else r.msg + " (" + r.item.name + ")"
            case Listed(text, names) => r.item.name in names && Restored(text, r.item.name) == r.msg
  {
    var key := Tagged(r.msg, r.item);
    var names := Names(Items(FileAll(map[], rs), r.what, key));
    ReportsRecoverable(rs, r);
    assert r.item.name in names;
    TagRoundTrip(r.msg, r.item);
    if |names| == 1 {
      OnlyElement(names, r.item.name);
      SingleItemShown(r.msg, r.item.name);
    }
  }

  lemma OnlyElement(names: set<string>, name: string)
    requires |names| == 1 && name in names
    ensures names == {name}
  {
    assert names == {name} + (names - {name});
  }

  /** str(error).split('Traceback')[0].rstrip('\n') */
  function Brief(fullError: string): string {
    StripNewlines(Pieces(fullError, "Traceback")[0])
  }

  function StripNewlines(s: string): string {
    if s != [] && s[|s| - 1] == '\n' then StripNewlines(s[..|s| - 1]) else s
  }

  lemma {:induction false} NewlinesStripped(text: string, newlines: string)
    requires (forall i :: 0 <= i < |newlines| ==> newlines[i] == '\n') && (text != [] ==> text[|text| - 1] != '\n')
    ensures StripNewlines(text + newlines) == text
    decreases |newlines|
  {
    if newlines == [] {
      assert text + newlines == text;
    } else {
      assert (text + newlines)[..|text + newlines| - 1] == text + newlines[..|newlines| - 1];
      NewlinesStripped(text, newlines[..|newlines| - 1]);
    }
  }

  /** An error is reported by the text in front of its first traceback, or by all
      of it if there is none, without the newlines at the end. */
  lemma BriefExactly(text: string, newlines: string, rest: string)
    requires (forall i :: 0 <= i < |newlines| ==> newlines[i] == '\n') && (text != [] ==> text[|text| - 1] != '\n')
    requires forall k :: !At(text + newlines, "Traceback", k)
    ensures Brief(text + newlines + "Traceback" + rest) == text
    ensures Brief(text + newlines) == text
  {
    var before, word := text + newlines, "Traceback";
    HasAt(before, word);
    JoinPieces(before, word);
    PiecesAround(before, word, rest);
    NewlinesStripped(text, newlines);
  }

  class Atest {
    var debug: bool
    var killOnFailure: bool
    var failed: Failed

    constructor (debug: bool, killOnFailure: bool)
      ensures failed == map[] && this.debug == debug && this.killOnFailure == killOnFailure
    {
      this.debug, this.killOnFailure, failed := debug, killOnFailure, map[];
    }

    /** failure: exits, or queues the error under its tagged message. */
    method Failure(fullError: string, item: Item, whatFailed: string, fatal: bool) returns (exits: bool)
      modifies this`failed
      ensures exits == (killOnFailure || fatal)
      ensures failed == if exits then old(failed)
                        else File(old(failed), Report(whatFailed, if debug then fullError else Brief(fullError), item))
    {
      var errmsg := if debug then fullError else Brief(fullError);
      ghost var report := Report(whatFailed, errmsg, item);
      if killOnFailure || fatal {
        return true;
      }
      if item.Item? && item.name != [] && Has(errmsg, item.name) {
        errmsg := Replace(errmsg, item.name, FAIL_TAG);
      }
      if whatFailed in failed {
        var byMessage := failed[whatFailed];
        var items := if errmsg in byMessage then byMessage[errmsg] else {};
        failed := failed[whatFailed := byMessage[errmsg := items + {item}]];
      } else {
        var none: map<string, set<Item>> := map[];
        failed := failed[whatFailed := none[errmsg := {item}]];
      }
      assert errmsg == Tagged(report.msg, item);
      assert Items(old(failed), whatFailed, errmsg) + {item} == failed[whatFailed][errmsg];
      exits := false;
    }
  }
}
