/** How cli/topic_common.py gathers the items of a command: item_parse_info.get_values
    accumulates one attribute from the arguments, an option and a file, and
    atest.parse runs the parsers in turn over what the arguments leave. */
module ItemParse {
  import opened Options
  import opened ItemLists

  datatype CliError = CouldNotOpen(file: string) | EmptyFile(file: string)

  datatype Result<T> = Ok(value: T) | Err(error: CliError)

  /** An option that is absent or None is not in the map. */
  type GivenOptions = map<string, string>

  /** The readable files with their lines; opening any other one fails. */
  type Files = map<string, seq<string>>

  datatype Info = Info(attribute: string, inlineOption: string, filenameOption: string, useLeftover: bool)

  // -------------------------------------------------------------- one parser

  function Items(text: string, spaces: bool): set<string> {
    set x | x in GetItems(text, spaces)
  }

  /** All items of some texts. */
  function AllItems(texts: seq<string>, spaces: bool): set<string> {
    set i: nat, x | i < |texts| && x in GetItems(texts[i], spaces) :: x
  }

  /** The error of the file option, if it has one. */
  function FileFault(info: Info, options: GivenOptions, files: Files): Option<CliError> {
    if info.filenameOption !in options then None
    else
      var name := options[info.filenameOption];
      if name !in files then Some(CouldNotOpen(name))
      else if AllItems(files[name], true) == {} then Some(EmptyFile(name))
      else None
  }

  /** What the inline option and the file contribute. */
  function Named(info: Info, options: GivenOptions, files: Files): set<string> {
    (if info.inlineOption in options then Items(options[info.inlineOption], true) else {}) +
    (if info.filenameOption in options && options[info.filenameOption] in files
     then AllItems(files[options[info.filenameOption]], true) else {})
  }

  function Values(info: Info, options: GivenOptions, files: Files, args: seq<string>): set<string> {
    Named(info, options, files) + if info.useLeftover then AllItems(args, false) else {}
  }

  lemma AllItemsGrow(texts: seq<string>, n: nat, spaces: bool)
    requires n < |texts|
    ensures AllItems(texts[..n + 1], spaces) == AllItems(texts[..n], spaces) + Items(texts[n], spaces)
  {
    var longer := texts[..n + 1];
    forall x | x in AllItems(longer, spaces)
      ensures x in AllItems(texts[..n], spaces) + Items(texts[n], spaces)
    {
      var i: nat :| i < |longer| && x in GetItems(longer[i], spaces);
      if i < n {
        assert texts[..n][i] == longer[i];
      }
    }
    forall x | x in AllItems(texts[..n], spaces) + Items(texts[n], spaces)
      ensures x in AllItems(longer, spaces)
    {
      if x in Items(texts[n], spaces) {
        assert longer[n] == texts[n];
      } else {
        var i: nat :| i < n && x in GetItems(texts[..n][i], spaces);
        assert longer[i] == texts[..n][i];
      }
    }
  }

  /** The items of the texts, one text after another. */
  method Gather(texts: seq<string>, spaces: bool) returns (found: set<string>)
    ensures found == AllItems(texts, spaces)
  {
    found := {};
    var i := 0;
    while i < |texts|
      invariant 0 <= i <= |texts|
      invariant found == AllItems(texts[..i], spaces)
    {
      AllItemsGrow(texts, i, spaces);
      found := found + Items(texts[i], spaces);
      i := i + 1;
    }
    assert texts[..i] == texts;
  }

  /** get_values; the list it returns is in no particular order. */
  method GetValues(info: Info, options: GivenOptions, files: Files, leftover: seq<string>)
    returns (result: Result<set<string>>, rest: seq<string>)
    ensures FileFault(info, options, files) == if result.Err? then Some(result.error) else None
    ensures result.Ok? ==> result.value == Values(info, options, files, leftover)
    ensures result.Ok? ==> forall x :: x in result.value <==>
              || (info.useLeftover && exists i :: 0 <= i < |leftover| && x in GetItems(leftover[i], false))
              || (info.inlineOption in options && x in GetItems(options[info.inlineOption], true))
              || (info.filenameOption in options && options[info.filenameOption] in files
                  && exists i :: 0 <= i < |files[options[info.filenameOption]]|
                         && x in GetItems(files[options[info.filenameOption]][i], true))
    ensures result.Err? ==>
              result.error == if options[info.filenameOption] in files then EmptyFile(options[info.filenameOption])
                              else CouldNotOpen(options[info.filenameOption])
    ensures result.Err? <==>
            && info.filenameOption in options
            && (options[info.filenameOption] in files ==>
                  forall i :: 0 <= i < |files[options[info.filenameOption]]| ==>
                    GetItems(files[options[info.filenameOption]][i], true) == [])
    ensures rest == if info.useLeftover then [] else leftover
  {
    var addOn := if info.useLeftover then leftover else [];
    rest := if info.useLeftover then [] else leftover;
    var found := Gather(addOn, false);
    if info.inlineOption in options {
      found := found + Items(options[info.inlineOption], true);
    }
    if info.filenameOption in options {
      var name := options[info.filenameOption];
      if name !in files {
        return Err(CouldNotOpen(name)), rest;
      }
      var content := Gather(files[name], true);
      NoneOfAll(files[name], true);
      if content == {} {
        return Err(EmptyFile(name)), rest;
      }
      found := found + content;
    }
    result := Ok(found);
  }

  // ------------------------------------------------------- one after another

  /** How many parsers run before one fails. */
  function Parsers(infos: seq<Info>, options: GivenOptions, files: Files): (n: nat)
    ensures n <= |infos|
    ensures forall j :: 0 <= j < n ==> FileFault(infos[j], options, files) == None
    ensures n < |infos| ==> FileFault(infos[n], options, files).Some?
  {
    if infos == [] || FileFault(infos[0], options, files).Some? then 0
    else 1 + Parsers(infos[1..], options, files)
  }

  predicate Taken(infos: seq<Info>, i: nat)
    requires i <= |infos|
  {
    exists j :: 0 <= j < i && infos[j].useLeftover
  }

  /** The arguments that are left for the i-th parser. */
  function ArgumentsAt(infos: seq<Info>, i: nat, args: seq<string>): seq<string>
    requires i <= |infos|
  {
    if Taken(infos, i) then [] else args
  }

  predicate Sets(infos: seq<Info>, a: string) {
    exists i :: 0 <= i < |infos| && infos[i].attribute == a
  }

  /** The i-th parser is the last one to set its attribute. */
  predicate SetsLast(infos: seq<Info>, i: nat) {
    i < |infos| && forall j :: i < j < |infos| ==> infos[j].attribute != infos[i].attribute
  }

  function ValuesAt(infos: seq<Info>, i: nat, options: GivenOptions, files: Files, args: seq<string>): set<string>
    requires i < |infos|
  {
    Values(infos[i], options, files, ArgumentsAt(infos, i, args))
  }

  /** Each attribute that is set has the values of the last parser that sets it;
      the others are as they were. */
  ghost predicate Gathered(before: map<string, set<string>>, infos: seq<Info>, options: GivenOptions, files: Files,
                           args: seq<string>, after: map<string, set<string>>)
  {
    && (forall i: nat :: SetsLast(infos, i) ==>
          infos[i].attribute in after
          && after[infos[i].attribute] == ValuesAt(infos, i, options, files, args))
    && (forall a :: !Sets(infos, a) ==>
          (a in after <==> a in before) && (a in after ==> after[a] == before[a]))
  }

  /** Running one more parser. */
  lemma GatherStep(before: map<string, set<string>>, infos: seq<Info>, options: GivenOptions, files: Files,
                   args: seq<string>, after: map<string, set<string>>, n: nat, values: set<string>)
    requires n < |infos| && Gathered(before, infos[..n], options, files, args, after)
    requires values == ValuesAt(infos, n, options, files, args)
    ensures Gathered(before, infos[..n + 1], options, files, args, after[infos[n].attribute := values])
  {
    var shorter, longer := infos[..n], infos[..n + 1];
    var now := after[infos[n].attribute := values];
    forall i: nat | SetsLast(longer, i)
      ensures longer[i].attribute in now && now[longer[i].attribute] == ValuesAt(longer, i, options, files, args)
    {
      ValuesInPrefix(infos, n + 1, i, options, files, args);
      if i < n {
        LastInPrefix(infos, n, i);
        ValuesInPrefix(infos, n, i, options, files, args);
      }
    }
    forall a | !Sets(longer, a) ensures !Sets(shorter, a) && a != infos[n].attribute {
      SetsInPrefix(infos, n, a);
    }
  }

  lemma TakenStep(infos: seq<Info>, i: nat)
    requires i < |infos|
    ensures Taken(infos, i + 1) <==> Taken(infos, i) || infos[i].useLeftover
  {
  }

  lemma LastInPrefix(infos: seq<Info>, n: nat, i: nat)
    requires i < n < |infos| && SetsLast(infos[..n + 1], i)
    ensures SetsLast(infos[..n], i) && infos[n].attribute != infos[i].attribute
  {
    var longer := infos[..n + 1];
    assert longer[n].attribute != longer[i].attribute;
    forall j | i < j < n ensures infos[..n][j].attribute != infos[..n][i].attribute {
      assert longer[j].attribute != longer[i].attribute;
    }
  }

  lemma SetsInPrefix(infos: seq<Info>, n: nat, a: string)
    requires n < |infos|
    ensures Sets(infos[..n + 1], a) <==> Sets(infos[..n], a) || infos[n].attribute == a
  {
    var shorter, longer := infos[..n], infos[..n + 1];
    assert longer[n] == infos[n];
    if i :| 0 <= i < n && shorter[i].attribute == a {
      assert longer[i].attribute == a;
    }
    if Sets(longer, a) {
      var i :| 0 <= i < |longer| && longer[i].attribute == a;
      assert i < n ==> shorter[i].attribute == a;
    }
  }

  lemma ValuesInPrefix(infos: seq<Info>, n: nat, i: nat, options: GivenOptions, files: Files, args: seq<string>)
    requires i < n <= |infos|
    ensures ValuesAt(infos[..n], i, options, files, args) == ValuesAt(infos, i, options, files, args)
  {
    TakenInPrefix(infos, n, i);
  }

  lemma TakenInPrefix(infos: seq<Info>, n: nat, i: nat)
    requires i <= n <= |infos|
    ensures Taken(infos[..n], i) == Taken(infos, i)
  {
  }

  /** The required attribute, if one is named, has no items. */
  predicate Lacks(attributes: map<string, set<string>>, reqItems: Option<string>) {
    reqItems.Some? && reqItems.value != "" && (reqItems.value !in attributes || attributes[reqItems.value] == {})
  }

  datatype Outcome = Parsed(leftover: seq<string>) | BadItems(error: CliError) | NoRequiredItems

  /** The part of an atest object that parse fills in. */
  class Atest {
    var attributes: map<string, set<string>>
    var topicParseInfo: Info

    constructor ()
      ensures attributes == map[]
      ensures topicParseInfo == Info("not_used", "", "", false)
    {
      attributes, topicParseInfo := map[], Info("not_used", "", "", false);
    }

    /** parse: the first parser that fails, or a required attribute that is empty,
        ends the program. */
    method Parse(parseInfo: seq<Info>, reqItems: Option<string>, options: GivenOptions, files: Files, args: seq<string>)
      returns (outcome: Outcome)
      modifies this`attributes
      ensures var all := parseInfo + [topicParseInfo];
              var n := Parsers(all, options, files);
              && Gathered(old(attributes), all[..n], options, files, args, attributes)
              && (outcome.BadItems? <==> n < |all|)
              && (n < |all| ==> FileFault(all[n], options, files) == Some(outcome.error))
              && (outcome.NoRequiredItems? <==>
                    n == |all| && reqItems.Some? && reqItems.value != ""
                    && (reqItems.value in attributes ==> attributes[reqItems.value] == {}))
              && (outcome.Parsed? ==> outcome.leftover == ArgumentsAt(all, n, args))
    {
      var all := parseInfo + [topicParseInfo];
      var error, leftover := RunParsers(all, options, files, args);
      if error.Some? {
        outcome := BadItems(error.value);
      } else if Lacks(attributes, reqItems) {
        outcome := NoRequiredItems;
      } else {
        outcome := Parsed(leftover);
      }
    }

    /** The loop of parse, up to the first parser that fails. */
    method RunParsers(all: seq<Info>, options: GivenOptions, files: Files, args: seq<string>)
      returns (error: Option<CliError>, leftover: seq<string>)
      modifies this`attributes
      ensures var n := Parsers(all, options, files);
              && Gathered(old(attributes), all[..n], options, files, args, attributes)
              && leftover == ArgumentsAt(all, n, args)
              && error == if n < |all| then FileFault(all[n], options, files) else None
    {
      ghost var before := attributes;
      leftover := args;
      var i := 0;
      while i < |all|
        invariant 0 <= i <= |all| && i <= Parsers(all, options, files)
        invariant leftover == ArgumentsAt(all, i, args)
        invariant Gathered(before, all[..i], options, files, args, attributes)
      {
        var values, rest := GetValues(all[i], options, files, leftover);
        if values.Err? {
          return Some(values.error), leftover;
        }
        GatherStep(before, all, options, files, args, attributes, i, values.value);
        TakenStep(all, i);
        attributes := attributes[all[i].attribute := values.value];
        leftover := rest;
        i := i + 1;
      }
      error := None;
    }
  }

  // -------------------------------------------------------------- the promise

  /** Which parser takes the arguments: the first one that uses them. */
  predicate Takes(infos: seq<Info>, i: nat) {
    i < |infos| && infos[i].useLeftover && !Taken(infos, i)
  }

  function ItemSet(lists: seq<seq<string>>): set<string> {
    set k: nat, x | k < |lists| && x in lists[k] :: x
  }

  /** Item lists written with escapes, one to an argument, are read back from
      the arguments as the union of the lists. */
  lemma ArgumentsRoundTrip(args: seq<string>, lists: seq<seq<string>>)
    requires |args| == |lists|
    requires forall k :: 0 <= k < |lists| ==> args[k] == JoinEscaped(lists[k])
    requires forall k, i :: 0 <= k < |lists| && 0 <= i < |lists[k]| ==> Listable(lists[k][i], false)
    ensures AllItems(args, false) == ItemSet(lists)
  {
    forall k: nat | k < |lists| ensures GetItems(args[k], false) == lists[k] {
      ItemsRoundTrip(lists[k], false);
    }
  }

  /** When every parser sets its own attribute and none fails, the items given as
      arguments reach the attribute of the first parser that uses the leftover
      and no other; every attribute also gets the items of its own option and
      file; and the arguments come back exactly when no parser uses them. */
  lemma {:induction false} ArgumentsReachOneAttribute(before: map<string, set<string>>, infos: seq<Info>,
                                                      options: GivenOptions, files: Files, args: seq<string>,
                                                      lists: seq<seq<string>>, after: map<string, set<string>>)
    requires forall i, j :: 0 <= i < j < |infos| ==> infos[i].attribute != infos[j].attribute
    requires |args| == |lists| && forall k :: 0 <= k < |lists| ==> args[k] == JoinEscaped(lists[k])
    requires forall k, i :: 0 <= k < |lists| && 0 <= i < |lists[k]| ==> Listable(lists[k][i], false)
    requires Gathered(before, infos, options, files, args, after)
    ensures forall i: nat :: i < |infos| ==>
              (infos[i].attribute in after
               && after[infos[i].attribute]
                  == Named(infos[i], options, files) + if Takes(infos, i) then ItemSet(lists) else {})
    ensures ArgumentsAt(infos, |infos|, args) == if exists i :: Takes(infos, i) then [] else args
  {
    ArgumentsRoundTrip(args, lists);
    assert AllItems([], false) == {};
    forall i: nat | i < |infos|
      ensures infos[i].attribute in after
              && after[infos[i].attribute]
                 == Named(infos[i], options, files) + if Takes(infos, i) then ItemSet(lists) else {}
    {
      assert SetsLast(infos, i);
    }
    if Taken(infos, |infos|) {
      FirstTaker(infos, |infos|);
    }
  }

  /** So a required attribute lacks items if and only if its option and, where its
      parser takes the arguments, these hold none, and no file is given for it. */
  lemma RequiredItemsGiven(before: map<string, set<string>>, infos: seq<Info>, options: GivenOptions, files: Files,
                           args: seq<string>, after: map<string, set<string>>, i: nat)
    requires i < |infos| && SetsLast(infos, i) && Gathered(before, infos, options, files, args, after)
    requires FileFault(infos[i], options, files) == None
    ensures infos[i].attribute in after
    ensures after[infos[i].attribute] != {} <==>
            || (infos[i].inlineOption in options && GetItems(options[infos[i].inlineOption], true) != [])
            || infos[i].filenameOption in options
            || (Takes(infos, i) && exists k :: 0 <= k < |args| && GetItems(args[k], false) != [])
  {
    var info := infos[i];
    assert after[info.attribute] == ValuesAt(infos, i, options, files, args);
    if info.inlineOption in options {
      NoItems(options[info.inlineOption], true);
    }
    NoneOfAll(args, false);
    assert AllItems([], false) == {};
  }

  lemma NoItems(text: string, spaces: bool)
    ensures Items(text, spaces) == {} <==> GetItems(text, spaces) == []
  {
    if GetItems(text, spaces) != [] {
      assert GetItems(text, spaces)[0] in Items(text, spaces);
    }
  }

  lemma NoneOfAll(texts: seq<string>, spaces: bool)
    ensures AllItems(texts, spaces) == {} <==> forall i :: 0 <= i < |texts| ==> GetItems(texts[i], spaces) == []
  {
    forall i | 0 <= i < |texts| && GetItems(texts[i], spaces) != [] ensures AllItems(texts, spaces) != {} {
      var x := GetItems(texts[i], spaces)[0];
      assert x in GetItems(texts[i], spaces);
      assert x in AllItems(texts, spaces);
    }
  }

  lemma {:induction false} FirstTaker(infos: seq<Info>, n: nat)
    requires n <= |infos| && Taken(infos, n)
    ensures exists i :: Takes(infos, i)
  {
    if Taken(infos, n - 1) {
      FirstTaker(infos, n - 1);
    } else {
      assert Takes(infos, n - 1);
    }
  }
}
