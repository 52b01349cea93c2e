/** The two commands of the CLI that go through the storage: dump and migrate. */
module CliCommands {
  import opened Prelude
  import opened ConfigCache
  import opened ConfigCipher
  import opened ConfigDocuments
  import opened ConfigStore
  import opened ConfigText

  /** Dump reads the store through its getters, and writes the text Serialize produces. */
  method Dump(store: MongoStorage) returns (text: string)
    ensures text == ConfigToText(store.data)
  {
    var sections := store.GetSectionList();
    sections := Sorted(sections, store.data.Keys);
    text := "";
    for i := 0 to |sections|
      invariant text == SectionsText(store.data, sections[..i])
    {
      text := DumpSection(text, store, sections[i]);
      assert sections[..i + 1][..i] == sections[..i];
    }
    assert sections[..|sections|] == sections;
  }

  method DumpSection(b: string, store: MongoStorage, name: string) returns (text: string)
    requires name in store.data
    ensures text == b + SectionText(name, store.data[name])
  {
    var keys := store.GetKeyList(name);
    keys := Sorted(keys, store.data[name].Keys);
    text := b + Line(HeaderLine(name));
    ghost var head := text;
    for j := 0 to |keys|
      invariant text == head + EntriesText(store.data[name], keys[..j])
    {
      var value := store.GetValue(name, keys[j]);
      var line := Line(EntryLine(keys[j], value.value));
      assert keys[..j + 1][..j] == keys[..j];
      Assoc(head, EntriesText(store.data[name], keys[..j]), line);
      text := text + line;
    }
    assert keys[..|keys|] == keys;
    text := text + Line("");
    SectionAppended(b, name, store.data[name]);
  }

  // ---------------------------------------------------------------- migrate

  function SectionOf(data: Config, name: string): Section {
    if name in data then data[name] else map[]
  }

  /** `data` overridden at exactly the (section, key) pairs of `file`; a file section without keys adds nothing. */
  function Override(data: Config, file: Config): Config {
    map s | s in data.Keys + file.Keys && (s in data || file[s] != map[]) :: SectionOf(data, s) + SectionOf(file, s)
  }

  lemma OverrideAt(data: Config, file: Config, s: string, k: string)
    ensures ConfigCache.GetValue(Override(data, file), s, k)
         == if ConfigCache.GetValue(file, s, k).Some? then ConfigCache.GetValue(file, s, k)
           else ConfigCache.GetValue(data, s, k)
    ensures s in Override(data, file) <==> s in data || (s in file && file[s] != map[])
  {
  }

  lemma OverrideGet(data: Config, file: Config, s: string)
    ensures Get(Override(data, file), s)
         == if s in data || (s in file && file[s] != map[]) then Some(SectionOf(data, s) + SectionOf(file, s)) else None
  {
  }

  lemma PlusNothing(section: Section)
    ensures section + map[] == section && map[] + section == section
  {
  }

  /** Overriding with one section more. */
  lemma OverrideSection(data: Config, some: Config, s: string, section: Section)
    requires s !in some
    ensures Override(data, some[s := section]) == Override(Override(data, some), map[s := section])
  {
    var before, left := Override(data, some), Override(data, some[s := section]);
    var right := Override(before, map[s := section]);
    forall n ensures Get(left, n) == Get(right, n) {
      OverrideGet(data, some, n);
      OverrideGet(data, some[s := section], n);
      OverrideGet(before, map[s := section], n);
      PlusNothing(SectionOf(data, n));
      PlusNothing(SectionOf(before, n));
    }
    MapsEqual(left, right);
  }

  /** Overriding with one key more. */
  lemma OverrideKey(data: Config, s: string, some: Section, k: string, value: string)
    ensures ConfigCache.SetValue(Override(data, map[s := some]), s, k, value)
        == Override(data, map[s := some[k := value]])
  {
    var before, right := Override(data, map[s := some]), Override(data, map[s := some[k := value]]);
    var left := ConfigCache.SetValue(before, s, k, value);
    OverrideKeyAt(data, s, some, k, value);
    forall n ensures Get(left, n) == Get(right, n) {
      if n != s {
        OverrideGet(data, map[s := some], n);
        OverrideGet(data, map[s := some[k := value]], n);
        assert Get(left, n) == Get(before, n);
      }
    }
    MapsEqual(left, right);
  }

  lemma OverrideKeyAt(data: Config, s: string, some: Section, k: string, value: string)
    ensures Get(ConfigCache.SetValue(Override(data, map[s := some]), s, k, value), s)
         == Get(Override(data, map[s := some[k := value]]), s)
  {
    OverrideGet(data, map[s := some], s);
    OverrideGet(data, map[s := some[k := value]], s);
    assert k in some[k := value];
    PlusNothing(SectionOf(data, s));
    PlusUpdate(SectionOf(data, s), some, k, value);
  }

  lemma PlusUpdate(a: Section, b: Section, k: string, value: string)
    ensures (a + b)[k := value] == a + b[k := value]
  {
  }

  lemma OverrideNothing(data: Config, file: Config)
    requires forall s :: s in file ==> file[s] == map[]
    ensures Override(data, file) == data
  {
    forall s ensures Get(Override(data, file), s) == Get(data, s) {
      if s in data {
        assert SectionOf(data, s) + map[] == data[s];
      }
    }
    MapsEqual(Override(data, file), data);
  }

  datatype MigrateOutcome = NothingToMigrate | SaveFailed | Migrated

  /** Copies every key of the file into the cache, then saves. */
  method Migrate(file: Config, store: MongoStorage, random: (string, string) -> Option<string>, faults: Faults)
    returns (outcome: MigrateOutcome)
    requires forall s, k :: random(s, k).Some? ==> |random(s, k).value| == NONCE_SIZE
    modifies store`data, store.collection
    ensures outcome == NothingToMigrate <==> file == map[]
    ensures store.data == Override(old(store.data), file)
    ensures outcome == NothingToMigrate ==> store.collection.docs == old(store.collection.docs)
    ensures outcome == Migrated <==>
            file != map[] && !faults.find && forall s :: s in store.data ==> store.Savable(s, random, faults)
    ensures outcome == Migrated ==>
            FullySaved(store.cipher, old(store.collection.docs), store.collection.docs, store.data,
                       Survivors(old(store.collection.docs), store.data,
                         old(store.collection.docs).Keys - faults.unlisted, faults.delete))
    ensures outcome == SaveFailed ==>
            MidSave(store.cipher, old(store.collection.docs), store.collection.docs, store.data)
  {
    ghost var original := store.data;
    var sections := ListOf(file.Keys);
    if |sections| == 0 {
      assert file == map[];
      OverrideNothing(original, file);
      return NothingToMigrate;
    }
    assert sections[0] in file;
    CopySections(store, file, sections);
    var ok, written := store.Save(random, faults);
    StopsAreMidSave(store.cipher, old(store.collection.docs), store.collection.docs, store.data, written);
    outcome := if ok then Migrated else SaveFailed;
  }

  method CopySections(store: MongoStorage, file: Config, sections: seq<string>)
    requires Enumerates(sections, file.Keys)
    modifies store`data
    ensures store.data == Override(old(store.data), file)
  {
    ghost var original := store.data;
    ghost var copied: Config := map[];
    OverrideNothing(original, map[]);
    for i := 0 to |sections|
      invariant forall s :: s in copied <==> s in sections[..i]
      invariant forall s :: s in copied ==> s in file && copied[s] == file[s]
      invariant store.data == Override(original, copied)
    {
      OverrideSection(original, copied, sections[i], file[sections[i]]);
      CopySection(store, sections[i], file[sections[i]]);
      copied := copied[sections[i] := file[sections[i]]];
    }
    assert copied == file;
  }

  method CopySection(store: MongoStorage, name: string, section: Section)
    modifies store`data
    ensures store.data == Override(old(store.data), map[name := section])
  {
    ghost var original := store.data;
    var keys := ListOf(section.Keys);
    ghost var copied: Section := map[];
    OverrideNothing(original, map[name := map[]]);
    for j := 0 to |keys|
      invariant forall k :: k in copied <==> k in keys[..j]
      invariant forall k :: k in copied ==> k in section && copied[k] == section[k]
      invariant store.data == Override(original, map[name := copied])
    {
      assert keys[..j + 1] == keys[..j] + [keys[j]];
      OverrideKey(original, name, copied, keys[j], section[keys[j]]);
      store.SetValue(name, keys[j], section[keys[j]]);
      copied := copied[keys[j] := section[keys[j]]];
    }
    assert copied == section;
  }

  /**
    What a migration by a process in sync leaves: the decrypted database overridden at the file's pairs, and
    nothing else changed or removed, whatever the copy order, the listing and the failing deletes.
   */
  lemma MigrationIsOverride(c: Aead, before: Database, after: Database, file: Config, kept: set<string>)
    requires c.Opens() && FullySaved(c, before, after, Override(View(c, before), file), kept)
    ensures View(c, after) == Override(View(c, before), file)
    ensures AllLoadable(c, after)
  {
    var data := Override(View(c, before), file);
    assert before.Keys <= data.Keys;
    ViewIsCache(c, before, after, data, kept);
  }
}
