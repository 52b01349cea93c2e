/**
  The plaintext dump of a configuration: the order of names, the text, and a reader that recovers the map.
 */
module ConfigText {
  import opened Prelude
  import opened ConfigCache
  import opened StringOrder
  import opened StringSearch

  // ---------------------------------------------------------------- sort.Strings

  predicate Increasing(xs: seq<string>) {
    forall i, j :: 0 <= i < j < |xs| ==> Less(xs[i], xs[j])
  }

  /** `out` lists the elements of `names`, each once. */
  ghost predicate Enumerates(out: seq<string>, names: set<string>) {
    && (forall i, j :: 0 <= i < j < |out| ==> out[i] != out[j])
    && (forall x :: x in out <==> x in names)
  }

  function InsertName(x: string, xs: seq<string>): seq<string> {
    if xs == [] || !Less(xs[0], x) then [x] + xs else [xs[0]] + InsertName(x, xs[1..])
  }

  function SortStrings(xs: seq<string>): seq<string> {
    if xs == [] then [] else InsertName(xs[0], SortStrings(xs[1..]))
  }

  lemma {:induction false} InsertIncreasing(x: string, xs: seq<string>)
    requires Increasing(xs) && x !in xs
    ensures Increasing(InsertName(x, xs))
    ensures forall y :: y in InsertName(x, xs) <==> y == x || y in xs
  {
    if xs == [] {
    } else if !Less(xs[0], x) {
      LessTrichotomy(xs[0], x);
      forall j | 0 < j < |xs| ensures Less(x, xs[j]) {
        LessTransitive(x, xs[0], xs[j]);
      }
    } else {
      InsertIncreasing(x, xs[1..]);
      var rest := InsertName(x, xs[1..]);
      forall j | 0 <= j < |rest| ensures Less(xs[0], rest[j]) {
        assert rest[j] in rest;
        if rest[j] != x {
          assert rest[j] in xs[1..];
        }
      }
      assert xs == [xs[0]] + xs[1..];
    }
  }

  lemma {:induction false} SortIncreasing(xs: seq<string>, names: set<string>)
    requires Enumerates(xs, names)
    ensures Increasing(SortStrings(xs)) && Enumerates(SortStrings(xs), names)
  {
    if xs == [] {
      assert names == {} by { assert forall x :: x in names ==> x in xs; }
    } else {
      assert xs == [xs[0]] + xs[1..];
      SortIncreasing(xs[1..], names - {xs[0]});
      InsertIncreasing(xs[0], SortStrings(xs[1..]));
      IncreasingDistinct(SortStrings(xs));
    }
  }

  lemma IncreasingDistinct(xs: seq<string>)
    requires Increasing(xs)
    ensures forall i, j :: 0 <= i < j < |xs| ==> xs[i] != xs[j]
  {
    forall i, j | 0 <= i < j < |xs| ensures xs[i] != xs[j] {
      LessTrichotomy(xs[i], xs[j]);
    }
  }

  /** Only one increasing list has a given set of elements. */
  lemma {:induction false} IncreasingUnique(xs: seq<string>, ys: seq<string>)
    requires Increasing(xs) && Increasing(ys) && forall x :: x in xs <==> x in ys
    ensures xs == ys
  {
    assert xs == [] || xs[0] in xs;
    assert ys == [] || ys[0] in ys;
    if xs != [] {
      var i :| 0 <= i < |ys| && ys[i] == xs[0];
      var j :| 0 <= j < |xs| && xs[j] == ys[0];
      LessTrichotomy(xs[0], ys[0]);
      assert xs[0] == ys[0];
      IncreasingDistinct(xs);
      IncreasingDistinct(ys);
      assert forall x :: x in xs[1..] <==> x in xs && x != xs[0];
      assert forall x :: x in ys[1..] <==> x in ys && x != ys[0];
      IncreasingUnique(xs[1..], ys[1..]);
      assert xs == [xs[0]] + xs[1..] && ys == [ys[0]] + ys[1..];
    }
  }

  lemma SomeEnumeration(names: set<string>) returns (xs: seq<string>)
    ensures Enumerates(xs, names)
    decreases names
  {
    if names == {} {
      xs := [];
    } else {
      var x :| x in names;
      xs := SomeEnumeration(names - {x});
      xs := [x] + xs;
    }
  }

  lemma SortedEnumerationExists(names: set<string>)
    ensures exists xs :: Increasing(xs) && Enumerates(xs, names)
  {
    var xs := SomeEnumeration(names);
    SortIncreasing(xs, names);
  }

  /** The names in byte order: a function of the set alone. */
  ghost function InOrder(names: set<string>): (xs: seq<string>)
    ensures forall x :: x in xs <==> x in names
  {
    SortedEnumerationExists(names);
    var xs :| Increasing(xs) && Enumerates(xs, names);
    xs
  }

  lemma InOrderIncreasing(names: set<string>)
    ensures Increasing(InOrder(names))
  {
  }

  /** Sorting any listing of a map's keys gives the same list. */
  lemma SortedIsInOrder(xs: seq<string>, names: set<string>)
    requires Enumerates(xs, names)
    ensures SortStrings(xs) == InOrder(names)
  {
    SortIncreasing(xs, names);
    InOrderIncreasing(names);
    IncreasingUnique(SortStrings(xs), InOrder(names));
  }

  // ---------------------------------------------------------------- the text

  function HeaderLine(name: string): string {
    "[" + name + "]"
  }

  function EntryLine(key: string, value: string): string {
    key + " = " + value
  }

  function Line(text: string): string {
    text + "\n"
  }

  lemma Assoc(a: string, b: string, c: string)
    ensures (a + b) + c == a + (b + c)
  {
  }

  function EntriesText(section: Section, keys: seq<string>): string
    requires forall k :: k in keys ==> k in section
  {
    if keys == [] then ""
    else
      var k := keys[|keys| - 1];
      EntriesText(section, keys[..|keys| - 1]) + Line(EntryLine(k, section[k]))
  }

  ghost function SectionText(name: string, section: Section): string {
    Line(HeaderLine(name)) + EntriesText(section, InOrder(section.Keys)) + Line("")
  }

  ghost function SectionsText(data: Config, names: seq<string>): string
    requires forall n :: n in names ==> n in data
  {
    if names == [] then ""
    else
      var n := names[|names| - 1];
      SectionsText(data, names[..|names| - 1]) + SectionText(n, data[n])
  }

  /** The canonical dump, a function of the map. */
  ghost function ConfigToText(data: Config): string {
    SectionsText(data, InOrder(data.Keys))
  }

  lemma {:induction false} EntriesTextCons(section: Section, keys: seq<string>)
    requires keys != [] && forall k :: k in keys ==> k in section
    ensures EntriesText(section, keys) == Line(EntryLine(keys[0], section[keys[0]])) + EntriesText(section, keys[1..])
    decreases |keys|
  {
    var init, tail, last := keys[..|keys| - 1], keys[1..], keys[|keys| - 1];
    if init == [] {
      assert tail == [];
    } else {
      EntriesTextCons(section, init);
      assert init[1..] == tail[..|tail| - 1];
      var h, m, l := Line(EntryLine(keys[0], section[keys[0]])), EntriesText(section, init[1..]),
          Line(EntryLine(last, section[last]));
      assert EntriesText(section, keys) == (h + m) + l && EntriesText(section, tail) == m + l;
      Assoc(h, m, l);
    }
  }

  lemma SectionsTextSnoc(data: Config, names: seq<string>, last: string)
    requires last in data && forall n :: n in names ==> n in data
    ensures SectionsText(data, names + [last]) == SectionsText(data, names) + SectionText(last, data[last])
  {
  }

  lemma {:induction false} SectionsTextCons(data: Config, first: string, names: seq<string>)
    requires first in data && forall n :: n in names ==> n in data
    ensures SectionsText(data, [first] + names) == SectionText(first, data[first]) + SectionsText(data, names)
    decreases |names|
  {
    if names == [] {
      assert [first] + names == [] + [first];
      SectionsTextSnoc(data, [], first);
    } else {
      var init, last := names[..|names| - 1], names[|names| - 1];
      assert names == init + [last] && [first] + names == ([first] + init) + [last];
      SectionsTextCons(data, first, init);
      SectionsTextSnoc(data, init, last);
      SectionsTextSnoc(data, [first] + init, last);
      Assoc(SectionText(first, data[first]), SectionsText(data, init), SectionText(last, data[last]));
    }
  }

  // ---------------------------------------------------------------- a reader for the text

  datatype Reader = Reader(current: Option<string>, data: Config)

  /** A header opens a section, a line with " = " adds to the open one, anything else is skipped. */
  function ReadLine(r: Reader, line: string): Reader {
    if line == "" then r
    else if line[0] == '[' then
      if |line| >= 2 && line[|line| - 1] == ']' then
        var name := line[1..|line| - 1];
        Reader(Some(name), if name in r.data then r.data else r.data[name := map[]])
      else r
    else
      var i := IndexOf(line, '=');
      if r.current.None? || i == |line| || i == 0 || i + 1 == |line| || line[i - 1] != ' ' || line[i + 1] != ' ' then r
      else r.(data := SetValue(r.data, r.current.value, line[..i - 1], line[i + 2..]))
  }

  function Read(r: Reader, text: string): Reader
    decreases |text|
  {
    if text == "" then r
    else
      var i := IndexOf(text, '\n');
      if i == |text| then ReadLine(r, text) else Read(ReadLine(r, text[..i]), text[i + 1..])
  }

  function Parse(text: string): Config {
    Read(Reader(None, map[]), text).data
  }

  predicate CleanKey(k: string) {
    '\n' !in k && '=' !in k && (k == "" || k[0] != '[')
  }

  predicate CleanSection(section: Section) {
    forall k :: k in section ==> CleanKey(k) && '\n' !in section[k]
  }

  predicate Clean(data: Config) {
    forall n :: n in data ==> '\n' !in n && CleanSection(data[n])
  }

  /** Whatever it reads, the reader only ever holds clean data. */
  predicate CleanReader(r: Reader) {
    Clean(r.data) && (r.current.Some? ==> '\n' !in r.current.value)
  }

  lemma LineKeepsClean(r: Reader, line: string)
    requires CleanReader(r) && '\n' !in line
    ensures CleanReader(ReadLine(r, line))
  {
    if line != "" && line[0] != '[' {
      var i := IndexOf(line, '=');
      if 0 < i {
        var key := line[..i - 1];
        assert '=' !in key && '\n' !in key && (key == "" || key[0] == line[0]);
        assert i + 2 <= |line| ==> '\n' !in line[i + 2..];
      }
    }
  }

  lemma {:induction false} ReadKeepsClean(r: Reader, text: string)
    requires CleanReader(r)
    ensures CleanReader(Read(r, text))
    decreases |text|
  {
    if text != "" {
      var i := IndexOf(text, '\n');
      LineKeepsClean(r, text[..i]);
      if i == |text| {
        assert text[..i] == text;
      } else {
        ReadKeepsClean(ReadLine(r, text[..i]), text[i + 1..]);
      }
    }
  }

  lemma ReadOneLine(r: Reader, line: string, rest: string)
    requires '\n' !in line
    ensures Read(r, Line(line) + rest) == Read(ReadLine(r, line), rest)
  {
    var text := Line(line) + rest;
    IndexOfFirst(text, '\n', |line|);
    assert text[..|line|] == line && text[|line| + 1..] == rest;
  }

  lemma ReadEntry(r: Reader, key: string, value: string)
    requires r.current.Some? && CleanKey(key)
    ensures ReadLine(r, EntryLine(key, value)) == r.(data := SetValue(r.data, r.current.value, key, value))
  {
    var line := EntryLine(key, value);
    var i := |key| + 1;
    assert line[i] == '=' && line[|key|] == ' ' && line[i + 1] == ' ';
    assert forall j :: 0 <= j < |key| ==> line[j] == key[j];
    IndexOfFirst(line, '=', i);
    assert line[..i - 1] == key && line[i + 2..] == value;
  }

  /** The entries of a section added to what is there. */
  function WithEntries(data: Config, name: string, section: Section, keys: seq<string>): Config
    requires name in data && forall k :: k in keys ==> k in section
  {
    data[name := data[name] + map k | k in keys :: section[k]]
  }

  lemma WithOneEntry(data: Config, name: string, section: Section, keys: seq<string>)
    requires name in data && keys != [] && forall k :: k in keys ==> k in section
    ensures WithEntries(SetValue(data, name, keys[0], section[keys[0]]), name, section, keys[1..])
         == WithEntries(data, name, section, keys)
  {
    var data' := SetValue(data, name, keys[0], section[keys[0]]);
    EntriesSplit(data[name], section, keys);
    assert data'[name] == data[name][keys[0] := section[keys[0]]];
    assert WithEntries(data', name, section, keys[1..]).Keys == data.Keys;
  }

  lemma EntriesSplit(before: Section, section: Section, keys: seq<string>)
    requires keys != [] && forall k :: k in keys ==> k in section
    ensures before[keys[0] := section[keys[0]]] + (map k | k in keys[1..] :: section[k])
        == before + map k | k in keys :: section[k]
  {
  }

  lemma {:induction false} ReadEntries(name: string, data: Config, section: Section, keys: seq<string>, rest: string)
    requires name in data && CleanSection(section) && forall k :: k in keys ==> k in section
    ensures Read(Reader(Some(name), data), EntriesText(section, keys) + rest)
         == Read(Reader(Some(name), WithEntries(data, name, section, keys)), rest)
    decreases |keys|
  {
    if keys == [] {
      assert EntriesText(section, keys) + rest == rest;
      assert WithEntries(data, name, section, keys)[name] == data[name];
      assert WithEntries(data, name, section, keys) == data;
    } else {
      var k := keys[0];
      var line := EntryLine(k, section[k]);
      var r := Reader(Some(name), data);
      assert k in keys && '\n' !in line;
      EntriesTextCons(section, keys);
      Assoc(Line(line), EntriesText(section, keys[1..]), rest);
      ReadOneLine(r, line, EntriesText(section, keys[1..]) + rest);
      ReadEntry(r, k, section[k]);
      ReadEntries(name, SetValue(data, name, k, section[k]), section, keys[1..], rest);
      WithOneEntry(data, name, section, keys);
    }
  }

  lemma ReadHeader(current: Option<string>, data: Config, name: string)
    requires name !in data
    ensures ReadLine(Reader(current, data), HeaderLine(name)) == Reader(Some(name), data[name := map[]])
    ensures '\n' !in name ==> '\n' !in HeaderLine(name)
  {
  }

  lemma SectionFilled(data: Config, name: string, section: Section)
    ensures WithEntries(data[name := map[]], name, section, InOrder(section.Keys)) == data[name := section]
  {
    var keys := InOrder(section.Keys);
    assert map[] + (map k | k in keys :: section[k]) == section;
  }

  lemma SectionAppended(b: string, name: string, section: Section)
    ensures b + Line(HeaderLine(name)) + EntriesText(section, InOrder(section.Keys)) + Line("")
        == b + SectionText(name, section)
  {
  }

  lemma SectionTextSplit(name: string, section: Section, rest: string)
    ensures SectionText(name, section) + rest
         == Line(HeaderLine(name)) + (EntriesText(section, InOrder(section.Keys)) + (Line("") + rest))
  {
  }

  lemma ReadSection(current: Option<string>, data: Config, name: string, section: Section, rest: string)
    requires name !in data && '\n' !in name && CleanSection(section)
    ensures Read(Reader(current, data), SectionText(name, section) + rest)
         == Read(Reader(Some(name), data[name := section]), rest)
  {
    var keys, tail := InOrder(section.Keys), Line("") + rest;
    SectionTextSplit(name, section, rest);
    ReadHeader(current, data, name);
    ReadOneLine(Reader(current, data), HeaderLine(name), EntriesText(section, keys) + tail);
    ReadEntries(name, data[name := map[]], section, keys, tail);
    SectionFilled(data, name, section);
    ReadOneLine(Reader(Some(name), data[name := section]), "", rest);
  }

  function Restricted(data: Config, names: seq<string>): Config {
    map n | n in names && n in data :: data[n]
  }

  lemma RestOfSections(done: Config, data: Config, names: seq<string>)
    requires names != [] && forall n :: n in names ==> n in data
    ensures done[names[0] := data[names[0]]] + Restricted(data, names[1..]) == done + Restricted(data, names)
  {
  }

  lemma {:induction false} ReadSections(current: Option<string>, done: Config, data: Config, names: seq<string>)
    requires Clean(data) && Increasing(names) && (forall n :: n in names ==> n in data && n !in done)
    ensures Read(Reader(current, done), SectionsText(data, names)).data == done + Restricted(data, names)
    decreases |names|
  {
    if names == [] {
      assert done + Restricted(data, names) == done;
    } else {
      var n, rest := names[0], names[1..];
      assert names == [n] + rest;
      IncreasingDistinct(names);
      SectionsTextCons(data, n, rest);
      ReadSection(current, done, n, data[n], SectionsText(data, rest));
      ReadSections(Some(n), done[n := data[n]], data, rest);
      RestOfSections(done, data, names);
    }
  }

  lemma CleanReadsBack(data: Config)
    requires Clean(data)
    ensures Parse(ConfigToText(data)) == data
  {
    var names := InOrder(data.Keys);
    InOrderIncreasing(data.Keys);
    ReadSections(None, map[], data, names);
    assert map[] + Restricted(data, names) == data;
  }

  /** Reading the dump gives the configuration back exactly when its names, keys and values are clean. */
  lemma DumpReadsBack(data: Config)
    ensures Parse(ConfigToText(data)) == data <==> Clean(data)
  {
    if Clean(data) {
      CleanReadsBack(data);
    }
    ReadKeepsClean(Reader(None, map[]), ConfigToText(data));
  }

  /** So the dump is injective on clean configurations. */
  lemma DumpInjective(a: Config, b: Config)
    requires Clean(a) && Clean(b) && ConfigToText(a) == ConfigToText(b)
    ensures a == b
  {
    DumpReadsBack(a);
    DumpReadsBack(b);
  }

  lemma OneSectionText(name: string, section: Section)
    ensures ConfigToText(map[name := section]) == SectionText(name, section)
  {
    InOrderIncreasing({name});
    IncreasingUnique(InOrder({name}), [name]);
    var data: Config := map[name := section];
    assert data.Keys == {name};
    SectionsTextCons(data, name, []);
    assert [name] + [] == [name];
  }

  lemma OneEntryText(section: Section, k: string)
    requires section.Keys == {k}
    ensures EntriesText(section, InOrder(section.Keys)) == Line(EntryLine(k, section[k]))
  {
    InOrderIncreasing({k});
    IncreasingUnique(InOrder({k}), [k]);
    EntriesTextCons(section, [k]);
    assert [k][1..] == [];
  }

  lemma TwoEntriesText(section: Section, k: string, l: string)
    requires section.Keys == {k, l} && Less(k, l)
    ensures EntriesText(section, InOrder(section.Keys))
        == Line(EntryLine(k, section[k])) + Line(EntryLine(l, section[l]))
  {
    InOrderIncreasing({k, l});
    IncreasingUnique(InOrder({k, l}), [k, l]);
    EntriesTextCons(section, [k, l]);
    assert [k, l][1..] == [l] && [l][1..] == [];
    EntriesTextCons(section, [l]);
  }

  /** The dump of one section with one entry, letter by letter; further entries and sections follow in byte order. */
  lemma DumpOfOne(name: string, k: string, v: string)
    ensures ConfigToText(map[name := map[k := v]]) == "[" + name + "]\n" + k + " = " + v + "\n\n"
  {
    var section: Section := map[k := v];
    OneSectionText(name, section);
    OneEntryText(section, k);
  }

  lemma DumpOfTwo(name: string, k: string, v: string, l: string, w: string)
    requires Less(k, l)
    ensures ConfigToText(map[name := map[k := v, l := w]])
         == Line("[" + name + "]") + (Line(k + " = " + v) + Line(l + " = " + w)) + Line("")
  {
    var section: Section := map[k := v, l := w];
    OneSectionText(name, section);
    TwoEntriesText(section, k, l);
  }

  /** Sections come in byte order of their names. */
  lemma DumpOfTwoSections(m: string, a: Section, n: string, b: Section)
    requires Less(m, n)
    ensures ConfigToText(map[m := a, n := b]) == ConfigToText(map[m := a]) + ConfigToText(map[n := b])
  {
    LessTrichotomy(m, n);
    OneSectionText(m, a);
    OneSectionText(n, b);
    InOrderIncreasing({m, n});
    IncreasingUnique(InOrder({m, n}), [m, n]);
    var data: Config := map[m := a, n := b];
    assert data.Keys == {m, n};
    SectionsTextCons(data, m, [n]);
    SectionsTextCons(data, n, []);
    assert [m] + [n] == [m, n] && [n] + [] == [n];
  }

  lemma JoinedEntries(k: string, v: string, l: string, w: string)
    ensures Line(EntryLine(k, Line(v) + EntryLine(l, w))) == Line(EntryLine(k, v)) + Line(EntryLine(l, w))
  {
  }

  /** Without the restriction it is not. A newline in a value writes what another key would. */
  lemma NewlineIsAmbiguous(r: string, k: string, v: string, l: string, w: string)
    requires Less(k, l)
    ensures var a: Config := map[r := map[k := Line(v) + EntryLine(l, w)]];
            var b: Config := map[r := map[k := v, l := w]];
            a != b && ConfigToText(a) == ConfigToText(b)
  {
    LessTrichotomy(k, l);
    var one: Section := map[k := Line(v) + EntryLine(l, w)];
    var two: Section := map[k := v, l := w];
    OneSectionText(r, one);
    OneSectionText(r, two);
    OneEntryText(one, k);
    TwoEntriesText(two, k, l);
    JoinedEntries(k, v, l, w);
    assert l in two && l !in one;
    var a: Config, b: Config := map[r := one], map[r := two];
    assert a[r] != b[r];
  }

  /** And without any newline, the separator in a value writes what it would in the key. */
  lemma SeparatorIsAmbiguous(r: string, k: string, l: string, v: string)
    ensures var a: Config := map[r := map[k := l + " = " + v]];
            var b: Config := map[r := map[k + " = " + l := v]];
            a != b && ConfigToText(a) == ConfigToText(b)
  {
    var long := k + " = " + l;
    var one: Section := map[k := l + " = " + v];
    var two: Section := map[long := v];
    OneSectionText(r, one);
    OneSectionText(r, two);
    OneEntryText(one, k);
    OneEntryText(two, long);
    assert EntryLine(k, l + " = " + v) == EntryLine(long, v);
    assert |long| > |k| && k in one && k !in two;
    var a: Config, b: Config := map[r := one], map[r := two];
    assert a[r] != b[r];
  }
}
