/**
  The category filter of VRegistry (external/easylogging++/easylogging++.cc): setCategories reads a list
  `category:LEVEL,...` character by character, and allowed asks the last entry whose glob matches.
 */
module Categories {
  import opened Levels
  import Glob

  type Entry = (string, Level)

  // -------------------------------------------------------------------- the parser as a function

  /** The flags and buffers of setCategories, and the characters still to read; the result is what it appends. */
  function Scan(text: string, isCat: bool, isLevel: bool, ss: string, level: Level): seq<Entry>
    decreases |text|
  {
    if text == "" then
      if ss != "" && level != Unknown then [(ss, level)] else []
    else if text[0] == ':' then Scan(text[1..], false, true, ss, level)
    else if text[0] == ',' then
      if ss != "" && level != Unknown then [(ss, level)] + Scan(text[1..], true, false, "", Unknown)
      else Scan(text[1..], true, false, ss, level)
    else if isCat then Scan(text[1..], isCat, isLevel, ss + [text[0]], level)
    else if isLevel then
      var l := FromPrefix(text);
      if l != Unknown then Scan(text[|ToString(l)|..], isCat, isLevel, ss, l)
      else Scan(text[1..], isCat, isLevel, ss, l)
    else Scan(text[1..], isCat, isLevel, ss, level)
  }

  function Parse(text: string): seq<Entry> {
    Scan(text, true, false, "", Unknown)
  }

  class CategoryFilter {
    var entries: seq<Entry>

    constructor ()
      ensures entries == []
    {
      entries := [];
    }

    /** VRegistry::setCategories; a null pointer is None. */
    method SetCategories(categories: Option<string>, clear: bool)
      modifies this
      ensures entries == AfterCall(old(entries), Call(categories, clear))
    {
      hide ToString, LowerName, LevelOfInitial;
      if clear { entries := []; }
      if categories.None? { return; }
      var text := categories.value;
      ghost var before := entries;
      var isCat, isLevel, ss, level := true, false, "", Unknown;
      var i := 0;
      while i < |text|
        invariant i <= |text|
        invariant entries + Scan(text[i..], isCat, isLevel, ss, level) == before + Parse(text)
      {
        ghost var here := entries;
        if text[i] == ':' {
          isLevel, isCat := true, false;
        } else if text[i] == ',' {
          isLevel, isCat := false, true;
          if ss != "" && level != Unknown {
            entries := entries + [(ss, level)];
            ss, level := "", Unknown;
          }
        } else if isCat {
          ss := ss + [text[i]];
        } else if isLevel {
          level := FromPrefix(text[i..]);
          if level != Unknown { i := i + |ToString(level)| - 1; }
        }
        i := i + 1;
      }
      if ss != "" && level != Unknown {
        entries := entries + [(ss, level)];
      }
    }

    /** VRegistry::allowed for categories. */
    method Allowed(level: Level, category: Option<string>) returns (r: bool)
      ensures r <==> category.Some? && Decided(entries, level, category.value)
    {
      if entries == [] || category.None? { return false; }
      var i := |entries|;
      while i > 0
        invariant 0 <= i <= |entries|
        invariant forall j :: i <= j < |entries| ==> !Covers(entries[j], category.value)
      {
        i := i - 1;
        var hit := Glob.WildCardMatch(category.value, entries[i].0);
        if hit {
          PriorityPermits(entries[i].1, level);
          return Priority(level) <= Priority(entries[i].1);
        }
      }
      return false;
    }
  }

  // -------------------------------------------------------------------- whole runs of calls

  datatype SetCall = Call(categories: Option<string>, clear: bool)

  function AfterCall(entries: seq<Entry>, call: SetCall): seq<Entry> {
    (if call.clear then [] else entries) + Added(call)
  }

  function AfterCalls(calls: seq<SetCall>): seq<Entry> {
    if calls == [] then [] else AfterCall(AfterCalls(calls[..|calls| - 1]), calls[|calls| - 1])
  }

  ghost predicate Covers(e: Entry, category: string) {
    Glob.InLanguage(category, e.0)
  }

  /** Entry i is the most recently added one whose glob matches. */
  ghost predicate LastCover(entries: seq<Entry>, category: string, i: nat) {
    && i < |entries|
    && Covers(entries[i], category)
    && forall j :: i < j < |entries| ==> !Covers(entries[j], category)
  }

  ghost predicate Decided(entries: seq<Entry>, level: Level, category: string) {
    exists i: nat :: LastCover(entries, category, i) && Permits(entries[i].1, level)
  }

  /** What a level may do, every more severe level may do. */
  lemma AllowedIsMonotone(entries: seq<Entry>, level: Level, graver: Level, category: string)
    requires Decided(entries, level, category)
    requires Permits(level, graver)
    ensures Decided(entries, graver, category)
  {
    hide Permits;
    var i: nat :| LastCover(entries, category, i) && Permits(entries[i].1, level);
    PermitsGraver(entries[i].1, level, graver);
    assert LastCover(entries, category, i) && Permits(entries[i].1, graver);
  }

  ghost predicate AnyCover(entries: seq<Entry>, category: string) {
    exists i :: 0 <= i < |entries| && Covers(entries[i], category)
  }

  lemma LastCoverInLater(before: seq<Entry>, added: seq<Entry>, category: string, i: nat)
    requires LastCover(added, category, i)
    ensures LastCover(before + added, category, |before| + i)
  {
    var all := before + added;
    forall j | |before| + i < j < |all| ensures !Covers(all[j], category) {
      assert all[j] == added[j - |before|];
    }
  }

  lemma LastCoverInEarlier(before: seq<Entry>, added: seq<Entry>, category: string, i: nat)
    requires LastCover(before, category, i) && !AnyCover(added, category)
    ensures LastCover(before + added, category, i)
  {
    var all := before + added;
    forall j | i < j < |all| ensures !Covers(all[j], category) {
      if j >= |before| { assert all[j] == added[j - |before|]; }
    }
  }

  lemma LastCoverIsUnique(entries: seq<Entry>, category: string, i: nat, j: nat)
    requires LastCover(entries, category, i) && LastCover(entries, category, j)
    ensures i == j
  {
  }

  /** Where anything matches, some match is the last one. */
  lemma {:induction false} LastCoverExists(entries: seq<Entry>, category: string) returns (i: nat)
    requires AnyCover(entries, category)
    ensures LastCover(entries, category, i)
  {
    i := |entries| - 1;
    while !Covers(entries[i], category)
      invariant i < |entries|
      invariant forall j :: i < j < |entries| ==> !Covers(entries[j], category)
      invariant exists j :: 0 <= j <= i && Covers(entries[j], category)
      decreases i
    {
      i := i - 1;
    }
  }

  /** Of two blocks of entries, the later one decides whenever anything in it matches. */
  lemma LaterBlockDecides(before: seq<Entry>, added: seq<Entry>, level: Level, category: string)
    ensures Decided(before + added, level, category) <==>
            if AnyCover(added, category) then Decided(added, level, category) else Decided(before, level, category)
  {
    var all := before + added;
    if AnyCover(added, category) {
      var i := LastCoverExists(added, category);
      LastCoverInLater(before, added, category, i);
      DecidedByLast(all, level, category, |before| + i);
      DecidedByLast(added, level, category, i);
    } else if AnyCover(before, category) {
      var i := LastCoverExists(before, category);
      LastCoverInEarlier(before, added, category, i);
      DecidedByLast(all, level, category, i);
      DecidedByLast(before, level, category, i);
    } else {
      assert !AnyCover(all, category);
    }
  }

  lemma DecidedByLast(entries: seq<Entry>, level: Level, category: string, i: nat)
    requires LastCover(entries, category, i)
    ensures Decided(entries, level, category) <==> Permits(entries[i].1, level)
  {
    if Decided(entries, level, category) {
      var j: nat :| LastCover(entries, category, j) && Permits(entries[j].1, level);
      LastCoverIsUnique(entries, category, i, j);
    }
  }

  function Added(call: SetCall): seq<Entry> {
    if call.categories.Some? then Parse(call.categories.value) else []
  }

  /** After any run of calls, the newest call that says something about a category decides; a
      clearing call that says nothing about it forbids it. */
  lemma NewestCallDecides(earlier: seq<SetCall>, last: SetCall, level: Level, category: string)
    ensures Decided(AfterCalls(earlier + [last]), level, category) <==>
            if AnyCover(Added(last), category) then Decided(Added(last), level, category)
            else !last.clear && Decided(AfterCalls(earlier), level, category)
  {
    assert (earlier + [last])[..|earlier|] == earlier;
    LaterBlockDecides(if last.clear then [] else AfterCalls(earlier), Added(last), level, category);
  }

  // -------------------------------------------------------------------- reading back a printed list

  /** A printed item: a category, and the text after its colon. */
  datatype Item = Item(category: string, text: string)

  predicate Plain(s: string) {
    ':' !in s && ',' !in s
  }

  predicate PlainItems(items: seq<Item>) {
    forall i :: 0 <= i < |items| ==> Plain(items[i].category) && Plain(items[i].text)
  }

  function Print(items: seq<Item>): string {
    if items == [] then ""
    else items[0].category + ":" + items[0].text + if |items| == 1 then "" else "," + Print(items[1..])
  }

  /** The level in force after the text that follows a colon. */
  function LastLevel(text: string, level: Level): Level
    decreases |text|
  {
    if text == "" then level
    else
      var l := FromPrefix(text);
      if l != Unknown then LastLevel(text[|ToString(l)|..], l) else LastLevel(text[1..], l)
  }

  /** The parser item by item: an item whose name or level is missing is carried over into the next one. */
  function Fold(items: seq<Item>, ss: string, level: Level): seq<Entry> {
    if items == [] then []
    else
      var name, l := ss + items[0].category, LastLevel(items[0].text, level);
      if name != "" && l != Unknown then [(name, l)] + Fold(items[1..], "", Unknown)
      else Fold(items[1..], name, l)
  }

  lemma {:induction false} ScanCategory(category: string, rest: string, ss: string, level: Level)
    requires Plain(category)
    ensures Scan(category + rest, true, false, ss, level) == Scan(rest, true, false, ss + category, level)
    decreases |category|
  {
    if category == "" {
      assert category + rest == rest && ss + category == ss;
    } else {
      assert category[0] in category;
      assert (category + rest)[1..] == category[1..] + rest;
      ScanCategory(category[1..], rest, ss + [category[0]], level);
      assert ss + [category[0]] + category[1..] == ss + category;
    }
  }

  lemma NameWithin(text: string, rest: string, name: string)
    requires ',' !in name && (rest == "" || rest[0] == ',')
    ensures name <= text + rest <==> name <= text
  {
    var all := text + rest;
    if name <= all {
      assert forall i :: 0 <= i < |name| ==> all[i] == name[i];
      assert |all| > |text| ==> all[|text|] == ',';
      assert name == all[..|name|];
    }
  }

  lemma NamedWithin(text: string, rest: string, level: Level)
    requires rest == "" || rest[0] == ','
    ensures Named(text + rest, level) <==> Named(text, level)
  {
    NameWithin(text, rest, ToString(level));
    NameWithin(text, rest, LowerName(level));
  }

  /** A name is recognised inside the text exactly when it is recognised in the text alone. */
  lemma PrefixWithin(text: string, rest: string)
    requires rest == "" || rest[0] == ','
    ensures FromPrefix(text + rest) == FromPrefix(text)
  {
    var l, m := FromPrefix(text + rest), FromPrefix(text);
    if l != Unknown {
      NamedWithin(text, rest, l);
      FromPrefixIs(text, l);
    }
    if m != Unknown {
      NamedWithin(text, rest, m);
      FromPrefixIs(text + rest, m);
    }
  }

  lemma {:induction false} ScanText(text: string, rest: string, ss: string, level: Level)
    requires Plain(text) && (rest == "" || rest[0] == ',')
    ensures Scan(text + rest, false, true, ss, level) == Scan(rest, false, true, ss, LastLevel(text, level))
    decreases |text|
  {
    hide ToString, LowerName, FirstNamed;
    if text == "" {
      assert text + rest == rest;
    } else {
      PrefixWithin(text, rest);
      assert text[0] in text;
      var l := FromPrefix(text);
      var k := if l != Unknown then |ToString(l)| else 1;
      assert (text + rest)[k..] == text[k..] + rest;
      ScanText(text[k..], rest, ss, l);
    }
  }

  lemma {:induction false} ScanIsFold(items: seq<Item>, ss: string, level: Level)
    requires PlainItems(items) && items != []
    ensures Scan(Print(items), true, false, ss, level) == Fold(items, ss, level)
    decreases |items|
  {
    var item := items[0];
    var tail := if |items| == 1 then "" else "," + Print(items[1..]);
    assert Print(items) == item.category + (":" + (item.text + tail));
    ScanCategory(item.category, ":" + (item.text + tail), ss, level);
    assert (":" + (item.text + tail))[1..] == item.text + tail;
    ScanText(item.text, tail, ss + item.category, level);
    if |items| > 1 {
      assert tail[1..] == Print(items[1..]);
      var name, l := ss + item.category, LastLevel(item.text, level);
      if name != "" && l != Unknown {
        ScanIsFold(items[1..], "", Unknown);
      } else {
        ScanIsFold(items[1..], name, l);
      }
    }
  }

  lemma {:induction false} FoldIsShort(items: seq<Item>, ss: string, level: Level)
    ensures |Fold(items, ss, level)| <= |items|
    decreases |items|
  {
    if items != [] {
      FoldIsShort(items[1..], "", Unknown);
      FoldIsShort(items[1..], ss + items[0].category, LastLevel(items[0].text, level));
    }
  }

  function Entries(items: seq<Item>): (r: seq<Entry>)
    ensures |r| == |items|
  {
    seq(|items|, i requires 0 <= i < |items| => (items[i].category, LastLevel(items[i].text, Unknown)))
  }

  predicate Complete(item: Item) {
    item.category != "" && LastLevel(item.text, Unknown) != Unknown
  }

  lemma {:induction false} FoldIsEntries(items: seq<Item>)
    ensures Fold(items, "", Unknown) == Entries(items) <==>
            forall i :: 0 <= i < |items| ==> Complete(items[i])
    decreases |items|
  {
    if items != [] {
      var item := items[0];
      assert "" + item.category == item.category;
      assert Entries(items) == [Entries(items)[0]] + Entries(items[1..]);
      if Complete(item) {
        FoldIsEntries(items[1..]);
        assert forall i :: 0 <= i < |items[1..]| ==> items[1..][i] == items[i + 1];
        assert forall i :: 0 < i < |items| ==> items[i] == items[1..][i - 1];
        assert Fold(items, "", Unknown)[1..] == Fold(items[1..], "", Unknown);
        assert Entries(items)[1..] == Entries(items[1..]);
      } else {
        FoldIsShort(items[1..], item.category, LastLevel(item.text, Unknown));
      }
    }
  }

  /** setCategories reads a printed list back, entry by entry, exactly when no name is empty and
      every text ends in a level name. */
  lemma {:induction false} ParseUndoesPrint(items: seq<Item>)
    requires PlainItems(items)
    ensures Parse(Print(items)) == Entries(items) <==>
            forall i :: 0 <= i < |items| ==> Complete(items[i])
  {
    FoldIsEntries(items);
    if items != [] {
      ScanIsFold(items, "", Unknown);
    }
  }

  /** The texts of the eight named levels, in either spelling. */
  lemma NameIsItsLevel(level: Level)
    requires level != Unknown
    ensures LastLevel(ToString(level), Unknown) == level == LastLevel(LowerName(level), Unknown)
  {
    FromPrefixIs(ToString(level), level);
    FromPrefixIs(LowerName(level), level);
    assert ToString(level)[|ToString(level)|..] == "" == LowerName(level)[|ToString(level)|..];
  }

  /** Entries as they are written: each level in its upper-case or its lower-case spelling. */
  function Items(entries: seq<Entry>, upper: seq<bool>): (items: seq<Item>)
    requires |upper| == |entries|
    ensures |items| == |entries|
  {
    seq(|entries|, i requires 0 <= i < |entries| =>
        Item(entries[i].0, if upper[i] then ToString(entries[i].1) else LowerName(entries[i].1)))
  }

  /** The law the filter is used with: a list of non-empty categories with named levels comes back as it was written. */
  lemma NamedLevelsRoundTrip(entries: seq<Entry>, upper: seq<bool>)
    requires |upper| == |entries|
    requires forall i :: 0 <= i < |entries| ==> Plain(entries[i].0) && entries[i].0 != "" && entries[i].1 != Unknown
    ensures Parse(Print(Items(entries, upper))) == entries
  {
    var items := Items(entries, upper);
    forall i | 0 <= i < |items|
      ensures Plain(items[i].text) && LastLevel(items[i].text, Unknown) == entries[i].1
    {
      NameIsItsLevel(entries[i].1);
      NamesArePlain(entries[i].1);
    }
    ParseUndoesPrint(items);
    assert Entries(items) == entries;
  }

  lemma NamesArePlain(level: Level)
    ensures Plain(ToString(level)) && Plain(LowerName(level))
  {
  }
}
