/**
  The per-module verbose levels of VRegistry::setModules (external/easylogging++/easylogging++.cc): a list
  `base=digit,...` whose bases are entered under nine file extensions.
 */
module VModules {
  import opened Strings

  // -------------------------------------------------------------------- extensions

  const EXTENSIONS: seq<string> := [".h", ".c", ".cpp", ".cc", ".cxx", ".-inl.h", ".hxx", ".hpp", ".hh"]

  /** Str::endsWith. */
  predicate EndsWith(s: string, end: string) {
    |s| >= |end| && s[|s| - |end|..] == end
  }

  function Strip(s: string, end: string): string {
    if EndsWith(s, end) then s[..|s| - |end|] else s
  }

  /** The lambda addSuffix; the empty string stands for its null prev. */
  function AddSuffix(ss: string, sfx: string, prev: string): string {
    Strip(Strip(ss, prev), sfx) + sfx
  }

  /** The names the lambda insert enters for a run of extensions, when its stream holds ss and the
      extension entered before was prev. */
  function NamesFrom(ss: string, prev: string, exts: seq<string>): (names: seq<string>)
    ensures |names| == |exts|
    decreases |exts|
  {
    if exts == [] then []
    else
      var name := AddSuffix(ss, exts[0], prev);
      [name] + NamesFrom(name, exts[0], exts[1..])
  }

  function Extended(base: string, exts: seq<string>): (names: seq<string>)
    ensures |names| == |exts|
  {
    seq(|exts|, i requires 0 <= i < |exts| => base + exts[i])
  }

  lemma StripSuffix(base: string, end: string)
    ensures Strip(base + end, end) == base
  {
    assert (base + end)[|base|..] == end;
  }

  lemma StripAppend(base: string, end: string)
    requires end != ""
    ensures Strip(base, end) + end == base + end <==> !EndsWith(base, end)
  {
    if EndsWith(base, end) {
      assert Strip(base, end) + end == base;
    }
  }

  /** The names entered are the base under each extension exactly when the base ends in none of them. */
  lemma {:induction false} NamesAreExtended(base: string, prev: string, exts: seq<string>)
    requires forall i :: 0 <= i < |exts| ==> exts[i] != ""
    ensures NamesFrom(base + prev, prev, exts) == Extended(base, exts) <==>
            forall i :: 0 <= i < |exts| ==> !EndsWith(base, exts[i])
    decreases |exts|
  {
    if exts != [] {
      StripSuffix(base, prev);
      StripAppend(base, exts[0]);
      var names := NamesFrom(base + prev, prev, exts);
      if EndsWith(base, exts[0]) {
        assert names[0] != Extended(base, exts)[0];
      } else {
        NamesAreExtended(base, exts[0], exts[1..]);
        assert names == [base + exts[0]] + NamesFrom(base + exts[0], exts[0], exts[1..]);
        assert Extended(base, exts) == [base + exts[0]] + Extended(base, exts[1..]);
        assert names[1..] == NamesFrom(base + exts[0], exts[0], exts[1..]);
        assert Extended(base, exts)[1..] == Extended(base, exts[1..]);
        assert forall i :: 0 <= i < |exts[1..]| ==> exts[1..][i] == exts[i + 1];
        assert forall i :: 0 < i < |exts| ==> exts[i] == exts[1..][i - 1];
      }
    }
  }

  /** The nine names of a module. */
  lemma NineNames(base: string)
    ensures Names(base, true) == Extended(base, EXTENSIONS) <==>
            forall i :: 0 <= i < |EXTENSIONS| ==> !EndsWith(base, EXTENSIONS[i])
  {
    NamesAreExtended(base, "", EXTENSIONS);
    assert base + "" == base;
  }

  // -------------------------------------------------------------------- the list parser

  type Item = (string, nat)

  /** The flags and buffers of setModules and the characters still to read; -1 is no level yet. The
      result is the sequence of calls of insert. */
  function Scan(text: string, isMod: bool, isLevel: bool, ss: string, level: int): seq<Item>
    decreases |text|
  {
    if text == "" then
      if ss != "" && level >= 0 then [(ss, level)] else []
    else if text[0] == '=' then Scan(text[1..], false, true, ss, level)
    else if text[0] == ',' then
      if ss != "" && level >= 0 then [(ss, level)] + Scan(text[1..], true, false, "", -1)
      else Scan(text[1..], true, false, ss, level)
    else if isMod then Scan(text[1..], isMod, isLevel, ss + [text[0]], level)
    else if isLevel && IsDigit(text[0]) then Scan(text[1..], isMod, isLevel, ss, text[0] as int - 48)
    else Scan(text[1..], isMod, isLevel, ss, level)
  }

  function Parse(text: string): seq<Item> {
    Scan(text, true, false, "", -1)
  }

  predicate Printable(item: Item) {
    item.0 != "" && '=' !in item.0 && ',' !in item.0 && item.1 <= 9
  }

  function Print(items: seq<Item>): string
    requires forall i :: 0 <= i < |items| ==> Printable(items[i])
  {
    if items == [] then ""
    else
      assert Printable(items[0]);
      items[0].0 + (['=', DigitChar(items[0].1)] + if |items| == 1 then "" else "," + Print(items[1..]))
  }

  lemma {:induction false} ScanBase(base: string, rest: string, ss: string, level: int)
    requires '=' !in base && ',' !in base
    ensures Scan(base + rest, true, false, ss, level) == Scan(rest, true, false, ss + base, level)
    decreases |base|
  {
    if base == "" {
      assert base + rest == rest && ss + base == ss;
    } else {
      assert base[0] in base;
      assert (base + rest)[1..] == base[1..] + rest;
      ScanBase(base[1..], rest, ss + [base[0]], level);
      assert ss + [base[0]] + base[1..] == ss + base;
    }
  }

  lemma ScanLevel(base: string, d: nat, tail: string)
    requires d <= 9
    ensures Scan(['=', DigitChar(d)] + tail, true, false, base, -1) == Scan(tail, false, true, base, d)
  {
    var rest := ['=', DigitChar(d)] + tail;
    assert rest[1..] == [DigitChar(d)] + tail;
    assert ([DigitChar(d)] + tail)[1..] == tail;
  }

  /** setModules reads a printed list back item by item. */
  lemma {:induction false} ParseUndoesPrint(items: seq<Item>)
    requires forall i :: 0 <= i < |items| ==> Printable(items[i])
    ensures Parse(Print(items)) == items
  {
    hide DigitChar;
    if items != [] {
      var base, d := items[0].0, items[0].1;
      assert Printable(items[0]);
      var tail := if |items| == 1 then "" else "," + Print(items[1..]);
      ScanBase(base, ['=', DigitChar(d)] + tail, "", -1);
      assert "" + base == base;
      ScanLevel(base, d, tail);
      if |items| > 1 {
        assert tail[1..] == Print(items[1..]);
        ParseUndoesPrint(items[1..]);
      }
    }
  }

  // -------------------------------------------------------------------- the registry

  /** std::map::insert: an existing key keeps its value. */
  function Insert(m: map<string, nat>, name: string, level: nat): map<string, nat> {
    if name in m then m else m[name := level]
  }

  function InsertNames(m: map<string, nat>, names: seq<string>, level: nat): map<string, nat>
    decreases |names|
  {
    if names == [] then m else InsertNames(Insert(m, names[0], level), names[1..], level)
  }

  function Names(base: string, extensions: bool): seq<string> {
    if extensions then NamesFrom(base, "", EXTENSIONS) else [base]
  }

  function InsertAll(m: map<string, nat>, items: seq<Item>, extensions: bool): map<string, nat>
    decreases |items|
  {
    if items == [] then m
    else InsertAll(InsertNames(m, Names(items[0].0, extensions), items[0].1), items[1..], extensions)
  }

  lemma {:induction false} InsertNamesLookup(m: map<string, nat>, names: seq<string>, level: nat, name: string)
    ensures var r := InsertNames(m, names, level);
            && (name in r <==> name in m || name in names)
            && (name in r ==> r[name] == if name in m then m[name] else level)
    decreases |names|
  {
    if names != [] {
      InsertNamesLookup(Insert(m, names[0], level), names[1..], level, name);
      assert name in names <==> name == names[0] || name in names[1..];
    }
  }

  /** Item i is the first one that enters the name. */
  ghost predicate FirstEnters(items: seq<Item>, extensions: bool, name: string, i: nat) {
    && i < |items|
    && name in Names(items[i].0, extensions)
    && forall j :: 0 <= j < i ==> name !in Names(items[j].0, extensions)
  }

  ghost predicate Enters(items: seq<Item>, extensions: bool, name: string) {
    exists i :: 0 <= i < |items| && name in Names(items[i].0, extensions)
  }

  lemma EntersHead(items: seq<Item>, extensions: bool, name: string)
    requires items != []
    ensures Enters(items, extensions, name) <==>
            name in Names(items[0].0, extensions) || Enters(items[1..], extensions, name)
  {
    hide Names;
    if Enters(items[1..], extensions, name) {
      var i :| 0 <= i < |items[1..]| && name in Names(items[1..][i].0, extensions);
      assert items[1..][i] == items[i + 1];
    }
    if Enters(items, extensions, name) {
      var i :| 0 <= i < |items| && name in Names(items[i].0, extensions);
      if i > 0 { assert items[1..][i - 1] == items[i]; }
    }
  }

  lemma FirstEntersTail(items: seq<Item>, extensions: bool, name: string, i: nat)
    requires i > 0 && FirstEnters(items, extensions, name, i)
    ensures FirstEnters(items[1..], extensions, name, i - 1)
  {
    hide Names;
    forall j | 0 <= j < i - 1 ensures name !in Names(items[1..][j].0, extensions) {
      assert items[1..][j] == items[j + 1];
    }
  }

  /** A name that was there keeps its level; a new one gets the level of the first item that enters
      it; nothing else is entered. */
  lemma {:induction false} FirstEntryWins(m: map<string, nat>, items: seq<Item>, extensions: bool, name: string)
    ensures var r := InsertAll(m, items, extensions);
            && (name in r <==> name in m || Enters(items, extensions, name))
            && (name in m ==> r[name] == m[name])
            && forall i: nat :: name !in m && FirstEnters(items, extensions, name, i) ==>
                                  name in r && r[name] == items[i].1
    decreases |items|
  {
    hide Names, InsertNames;
    if items != [] {
      var names := Names(items[0].0, extensions);
      InsertNamesLookup(m, names, items[0].1, name);
      FirstEntryWins(InsertNames(m, names, items[0].1), items[1..], extensions, name);
      EntersHead(items, extensions, name);
      forall i: nat | name !in m && FirstEnters(items, extensions, name, i)
        ensures name in InsertAll(m, items, extensions) && InsertAll(m, items, extensions)[name] == items[i].1
      {
        if i > 0 {
          FirstEntersTail(items, extensions, name, i);
        }
      }
    }
  }

  /** The name is a module under one of the extensions. */
  ghost predicate Extends(base: string, name: string) {
    exists k :: 0 <= k < |EXTENSIONS| && name == base + EXTENSIONS[k]
  }

  ghost predicate FirstExtends(items: seq<Item>, name: string, i: nat) {
    i < |items| && Extends(items[i].0, name) && forall j :: 0 <= j < i ==> !Extends(items[j].0, name)
  }

  /** No module ends in an extension. */
  ghost predicate Bare(items: seq<Item>) {
    forall i :: 0 <= i < |items| ==> forall k :: 0 <= k < |EXTENSIONS| ==> !EndsWith(items[i].0, EXTENSIONS[k])
  }

  lemma ExtendsIs(base: string, name: string)
    requires forall k :: 0 <= k < |EXTENSIONS| ==> !EndsWith(base, EXTENSIONS[k])
    ensures name in Names(base, true) <==> Extends(base, name)
  {
    hide Names, EndsWith;
    NineNames(base);
    var names := Extended(base, EXTENSIONS);
    assert forall k :: 0 <= k < |EXTENSIONS| ==> names[k] == base + EXTENSIONS[k];
    if Extends(base, name) {
      var k :| 0 <= k < |EXTENSIONS| && name == base + EXTENSIONS[k];
      assert names[k] == name;
    }
  }

  /**
    After a printed list of modules, none of which ends in an extension, a new name is there if and only if it is one of
    the modules under one of the extensions, with the level of the first such; names that were there stay as they were.
   */
  lemma ModulesDecide(m: map<string, nat>, items: seq<Item>, name: string)
    requires (forall i :: 0 <= i < |items| ==> Printable(items[i])) && Bare(items)
    ensures var r := InsertAll(m, Parse(Print(items)), true);
      && (name in r <==> name in m || exists i :: 0 <= i < |items| && Extends(items[i].0, name))
      && (name in m ==> r[name] == m[name])
      && forall i: nat :: name !in m && FirstExtends(items, name, i) ==> name in r && r[name] == items[i].1
  {
    hide Names, InsertAll, Print, Parse, EndsWith, Printable, Extends;
    ParseUndoesPrint(items);
    FirstEntryWins(m, items, true, name);
    forall i | 0 <= i < |items| ensures name in Names(items[i].0, true) <==> Extends(items[i].0, name) {
      ExtendsIs(items[i].0, name);
    }
    forall i: nat | name !in m && FirstExtends(items, name, i)
      ensures name in InsertAll(m, items, true) && InsertAll(m, items, true)[name] == items[i].1
    {
      assert FirstEnters(items, true, name, i);
    }
  }

  // -------------------------------------------------------------------- the parser in place

  /** One character of the list. */
  lemma ScanAt(text: string, i: nat, isMod: bool, isLevel: bool, ss: string, level: int)
    requires i < |text|
    ensures Scan(text[i..], isMod, isLevel, ss, level) ==
      var c, rest := text[i], text[i + 1..];
      if c == '=' then Scan(rest, false, true, ss, level)
      else if c == ',' then
        if ss != "" && level >= 0 then [(ss, level)] + Scan(rest, true, false, "", -1)
        else Scan(rest, true, false, ss, level)
      else if isMod then Scan(rest, isMod, isLevel, ss + [c], level)
      else if isLevel && IsDigit(c) then Scan(rest, isMod, isLevel, ss, c as int - 48)
      else Scan(rest, isMod, isLevel, ss, level)
  {
    assert text[i..][0] == text[i] && text[i..][1..] == text[i + 1..];
  }

  lemma ScanEnd(text: string, isMod: bool, isLevel: bool, ss: string, level: int)
    requires text == ""
    ensures Scan(text, isMod, isLevel, ss, level) == if ss != "" && level >= 0 then [(ss, level)] + [] else []
  {
  }

  lemma InsertFirst(m: map<string, nat>, base: string, level: nat, items: seq<Item>, extensions: bool)
    ensures InsertAll(m, [(base, level)] + items, extensions)
            == InsertAll(InsertNames(m, Names(base, extensions), level), items, extensions)
  {
    hide InsertNames, Names;
    assert ([(base, level)] + items)[1..] == items;
  }

  lemma InsertNone(m: map<string, nat>, extensions: bool)
    ensures InsertAll(m, [], extensions) == m
  {
  }

  class ModuleLevels {
    var modules: map<string, nat>
    var extensions: bool

    constructor (extensions: bool)
      ensures modules == map[] && this.extensions == extensions
    {
      modules := map[];
      this.extensions := extensions;
    }

    /** VRegistry::setModules; the flag DisableVModulesExtensions is the negation of the field. */
    method SetModules(text: string)
      modifies this`modules
      ensures modules == InsertAll(old(modules), Parse(text), extensions)
    {
      hide Scan, InsertAll, InsertNames, Names;
      var isMod, isLevel, ss, level := true, false, "", -1;
      var i := 0;
      assert text[0..] == text;
      while i < |text|
        invariant i <= |text| && level >= -1
        invariant InsertAll(modules, Scan(text[i..], isMod, isLevel, ss, level), extensions)
                  == InsertAll(old(modules), Parse(text), extensions)
      {
        ScanAt(text, i, isMod, isLevel, ss, level);
        if ss != "" && level != -1 {
          InsertFirst(modules, ss, level, Scan(text[i + 1..], true, false, "", -1), extensions);
        }
        if text[i] == '=' {
          isLevel, isMod := true, false;
        } else if text[i] == ',' {
          isLevel, isMod := false, true;
          if ss != "" && level != -1 {
            InsertModule(ss, level);
            ss, level := "", -1;
          }
        } else if isMod {
          ss := ss + [text[i]];
        } else if isLevel {
          if IsDigit(text[i]) { level := text[i] as int - 48; }
        }
        i := i + 1;
      }
      ScanEnd(text[i..], isMod, isLevel, ss, level);
      InsertNone(modules, extensions);
      if ss != "" && level != -1 {
        InsertFirst(modules, ss, level, [], extensions);
        InsertModule(ss, level);
        InsertNone(modules, extensions);
      }
    }

    /** The lambda insert. */
    method InsertModule(base: string, level: nat)
      modifies this`modules
      ensures modules == InsertNames(old(modules), Names(base, extensions), level)
    {
      hide AddSuffix, Strip, EndsWith;
      var ss := base;
      if extensions {
        var prev, exts := "", EXTENSIONS;
        while exts != []
          invariant InsertNames(modules, NamesFrom(ss, prev, exts), level)
                    == InsertNames(old(modules), NamesFrom(base, "", EXTENSIONS), level)
          decreases |exts|
        {
          ss := AddSuffix(ss, exts[0], prev);
          modules := Insert(modules, ss, level);
          prev, exts := exts[0], exts[1..];
        }
      } else {
        modules := Insert(modules, ss, level);
      }
    }
  }
}
