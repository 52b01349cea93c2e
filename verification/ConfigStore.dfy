/**
  The MongoDB-backed rclone configuration: the in-memory cache, the encrypted documents that hold it,
  and the `MongoStorage` object whose methods move data between the two.

  Go strings are byte sequences, so `string` stands for both Go's `string` and `[]byte`.
 */

/** AES-256-GCM under one derived key, as the pair of primitives the store calls. */
module ConfigCipher {
  import opened Prelude

  const NONCE_SIZE: nat := 12

  datatype Aead = Aead(seal: (string, string) -> string, open: (string, string) -> Option<string>) {
    /** The law of the cipher: opening with the nonce that sealed gives the text back. */
    ghost predicate Opens() {
      forall nonce, text :: |nonce| == NONCE_SIZE ==> open(nonce, seal(nonce, text)) == Some(text)
    }
  }

  /** The stored layout is nonce || ciphertext. */
  function Encrypt(c: Aead, nonce: string, plaintext: string): string {
    nonce + c.seal(nonce, plaintext)
  }

  function Decrypt(c: Aead, data: string): Option<string> {
    if |data| < NONCE_SIZE then None else c.open(data[..NONCE_SIZE], data[NONCE_SIZE..])
  }

  lemma DecryptEncrypt(c: Aead, nonce: string, plaintext: string)
    requires c.Opens() && |nonce| == NONCE_SIZE
    ensures Decrypt(c, Encrypt(c, nonce, plaintext)) == Some(plaintext)
    ensures Encrypt(c, nonce, plaintext)[..NONCE_SIZE] == nonce
    ensures Encrypt(c, nonce, plaintext)[NONCE_SIZE..] == c.seal(nonce, plaintext)
  {
  }
}

/** The in-memory cache and its edits. */
module ConfigCache {
  import opened Prelude

  type Section = map<string, string>
  type Config = map<string, Section>

  function GetValue(data: Config, section: string, key: string): Option<string> {
    if section in data then Get(data[section], key) else None
  }

  function SetValue(data: Config, section: string, key: string, value: string): Config {
    data[section := (if section in data then data[section] else map[])[key := value]]
  }

  function DeleteKey(data: Config, section: string, key: string): Config {
    if GetValue(data, section, key).None? then data
    else if data[section] - {key} == map[] then data - {section}
    else data[section := data[section] - {key}]
  }

  /** A delete hides exactly one entry, and leaves no section it emptied. */
  lemma DeleteThenGet(data: Config, section: string, key: string, s: string, k: string)
    ensures GetValue(DeleteKey(data, section, key), s, k)
         == if s == section && k == key then None else GetValue(data, s, k)
    ensures s in DeleteKey(data, section, key) && DeleteKey(data, section, key)[s] == map[]
        ==> s in data && data[s] == map[]
  {
    if s == section && GetValue(data, section, key).Some? {
      assert data[section] - {key} == map[] ==> forall j :: j in data[section] ==> j == key by {
        assert forall j :: j in data[section] && j != key ==> j in data[section] - {key};
      }
    }
  }

  lemma DeletedReads(data: Config, section: string, key: string)
    ensures forall s, k :: GetValue(DeleteKey(data, section, key), s, k)
              == if s == section && k == key then None else GetValue(data, s, k)
    ensures forall s :: s in data && s !in DeleteKey(data, section, key) ==>
              s == section && key in data[s] && data[s].Keys == {key}
  {
    forall s, k
      ensures GetValue(DeleteKey(data, section, key), s, k)
           == if s == section && k == key then None else GetValue(data, s, k)
    {
      DeleteThenGet(data, section, key, s, k);
    }
    if section in data && section !in DeleteKey(data, section, key) {
      assert forall j :: j in data[section] && j != key ==> j in data[section] - {key};
    }
  }

  /**
    Deleting a freshly set key restores the cache, unless the section was there and empty: then the section goes
    too.
   */
  lemma DeleteUndoesSet(data: Config, section: string, key: string, value: string)
    requires GetValue(data, section, key).None?
    ensures DeleteKey(SetValue(data, section, key, value), section, key) == data
       <==> !(section in data && data[section] == map[])
  {
    var set' := SetValue(data, section, key, value);
    if section in data {
      assert set'[section] - {key} == data[section];
      assert set'[section := data[section]] == data;
    } else {
      assert set'[section] - {key} == map[];
      assert set' - {section} == data;
    }
  }
}

/** Documents of the collection and the two ways of reading one. */
module ConfigDocuments {
  import opened Prelude
  import opened ConfigCache
  import opened ConfigCipher

  /** A BSON value as the driver returns it: raw bytes, a Binary wrapper, the string id, or anything else. */
  datatype Field = Bytes(data: string) | Binary(data: string) | Text(text: string) | Other(tag: int)

  const ID := "_id"

  type Document = map<string, Field>
  type Database = map<string, Document>

  function Payload(f: Field): Option<string> {
    match f
    case Bytes(b) => Some(b)
    case Binary(b) => Some(b)
    case _ => None
  }

  function Plain(c: Aead, f: Field): Option<string> {
    match Payload(f)
    case Some(b) => Decrypt(c, b)
    case None => None
  }

  /** The watcher's reading: fields that are not binary or do not decrypt are skipped. */
  function WatchedSection(c: Aead, doc: Document): Section {
    map k | k in doc && k != ID && Plain(c, doc[k]).Some? :: Plain(c, doc[k]).value
  }

  /** Load's reading succeeds only if every binary field decrypts. */
  predicate LoadableField(c: Aead, f: Field) {
    Payload(f).Some? ==> Plain(c, f).Some?
  }

  predicate Loadable(c: Aead, doc: Document) {
    forall k :: k in doc && k != ID ==> LoadableField(c, doc[k])
  }

  predicate AllLoadable(c: Aead, db: Database) {
    forall id :: id in db ==> Loadable(c, db[id])
  }

  /** The decrypted database. */
  function View(c: Aead, db: Database): Config {
    map id | id in db :: WatchedSection(c, db[id])
  }

  function ApplyFullDocument(c: Aead, data: Config, id: string, doc: Option<Document>): Config {
    if id == "" || doc.None? then data else data[id := WatchedSection(c, doc.value)]
  }

  /** A change-stream event as decoded, or one that does not decode. */
  datatype ChangeEvent = ChangeEvent(operation: string, id: string, fullDocument: Option<Document>) | Garbled

  function ApplyEvent(c: Aead, data: Config, e: ChangeEvent): Config {
    match e
    case Garbled => data
    case ChangeEvent(operation, id, doc) =>
      if operation == "insert" || operation == "update" || operation == "replace" then
        ApplyFullDocument(c, data, id, doc)
      else if operation == "delete" then data - {id}
      else data
  }

  function ApplyEvents(c: Aead, data: Config, events: seq<ChangeEvent>): Config {
    if events == [] then data
    else ApplyEvent(c, ApplyEvents(c, data, events[..|events| - 1]), events[|events| - 1])
  }

  /** An encrypted field, under any nonce, in either form in which the driver returns stored bytes. */
  ghost predicate SealedField(c: Aead, f: Field, plaintext: string) {
    exists nonce: string ::
      |nonce| == NONCE_SIZE && (f == Bytes(Encrypt(c, nonce, plaintext)) || f == Binary(Encrypt(c, nonce, plaintext)))
  }

  /** `doc` is what the server keeps of a replacement holding `section` encrypted field by field. */
  ghost predicate Sealed(c: Aead, id: string, doc: Document, section: Section) {
    && ID !in section
    && doc.Keys == section.Keys + {ID}
    && doc[ID] == Text(id)
    && forall k :: k in section ==> SealedField(c, doc[k], section[k])
  }

  lemma SealedReadsBack(c: Aead, id: string, doc: Document, section: Section)
    requires c.Opens() && Sealed(c, id, doc, section)
    ensures WatchedSection(c, doc) == section
    ensures Loadable(c, doc)
    ensures "_id" in doc && doc["_id"] == Text(id) && "_id" !in section && doc.Keys == section.Keys + {"_id"}
  {
  }

  /** A field of a stored document, other than its id, in either form of bytes: both readings give its plaintext. */
  lemma StoredFieldReads(c: Aead, db: Database, data: Config, id: string, k: string, nonce: string, text: string)
    requires c.Opens() && |nonce| == NONCE_SIZE && id in db && k in db[id] && k != ID
    requires db[id][k] == Bytes(Encrypt(c, nonce, text)) || db[id][k] == Binary(Encrypt(c, nonce, text))
    ensures GetValue(View(c, db), id, k) == Some(text)
    ensures id != "" ==> GetValue(ApplyFullDocument(c, data, id, Some(db[id])), id, k) == Some(text)
  {
    DecryptEncrypt(c, nonce, text);
  }

  /** Nothing else is read: no id, no field that is not bytes, and no key the document has not. */
  lemma OtherFieldsAreSkipped(c: Aead, db: Database, data: Config, id: string, k: string)
    requires id in db && (k !in db[id] || k == ID || db[id][k].Text? || db[id][k].Other?)
    ensures id in View(c, db) && GetValue(View(c, db), id, k) == None
    ensures id != "" ==> GetValue(ApplyFullDocument(c, data, id, Some(db[id])), id, k) == None
  {
  }

  /** Bytes, in either form, that are shorter than a nonce or that the cipher does not open. */
  ghost predicate Unreadable(c: Aead, f: Field) {
    exists b: string ::
      && (f == Bytes(b) || f == Binary(b))
      && (|b| < NONCE_SIZE || c.open(b[..NONCE_SIZE], b[NONCE_SIZE..]).None?)
  }

  /** The watcher skips such a field, and a load fails exactly when some document has one. */
  lemma UnreadableStopsLoad(c: Aead, db: Database)
    ensures AllLoadable(c, db)
       <==> forall id, k :: id in db && k in db[id] && k != ID ==> !Unreadable(c, db[id][k])
    ensures forall id, k :: id in db && k in db[id] && k != ID && Unreadable(c, db[id][k]) ==>
              GetValue(View(c, db), id, k) == None
  {
    forall id, k | id in db && k in db[id] && k != ID
      ensures Unreadable(c, db[id][k]) <==> !LoadableField(c, db[id][k])
      ensures Unreadable(c, db[id][k]) ==> GetValue(View(c, db), id, k) == None
    {
      UnreadableField(c, db[id][k]);
    }
  }

  lemma UnreadableField(c: Aead, f: Field)
    ensures Unreadable(c, f) <==> !LoadableField(c, f)
    ensures Unreadable(c, f) ==> Plain(c, f) == None
  {
    if !LoadableField(c, f) {
      var b := Payload(f).value;
      assert f == Bytes(b) || f == Binary(b);
    }
  }

  // ---------------------------------------------------------------- what a save may leave behind

  /** One document is as it was before the save, or is the whole new section: never a mixture. */
  ghost predicate WhollyOldOrNew(c: Aead, before: Database, after: Database, data: Config, id: string) {
    || Get(after, id) == Get(before, id)
    || (id in data && id in after && Sealed(c, id, after[id], data[id]))
  }

  /** The state of the collection after the sections in `done` were upserted and nothing was deleted. */
  ghost predicate PartlySaved(c: Aead, before: Database, after: Database, data: Config, done: set<string>) {
    && done <= data.Keys
    && after.Keys == before.Keys + done
    && (forall id :: id in done ==> Sealed(c, id, after[id], data[id]))
    && (forall id :: id in before && id !in done ==> after[id] == before[id])
  }

  /** The state after a save that returned nil, when the deletes of the ids in `kept` failed. */
  ghost predicate FullySaved(c: Aead, before: Database, after: Database, data: Config, kept: set<string>) {
    && kept <= before.Keys - data.Keys
    && after.Keys == data.Keys + kept
    && (forall id :: id in data ==> Sealed(c, id, after[id], data[id]))
    && (forall id :: id in kept ==> after[id] == before[id])
  }

  /** One more upsert. */
  lemma UpsertStep(c: Aead, before: Database, mid: Database, data: Config, done: set<string>, id: string, doc: Document)
    requires PartlySaved(c, before, mid, data, done)
    requires id in data
    ensures Sealed(c, id, doc, data[id]) ==> PartlySaved(c, before, mid[id := doc], data, done + {id})
  {
  }

  /** The deletes still to come are in `todo`, those that failed in `kept`. */
  ghost predicate Deleting(c: Aead, before: Database, after: Database, data: Config, todo: set<string>,
      kept: set<string>) {
    todo !! kept && FullySaved(c, before, after, data, kept + todo)
  }

  lemma DeleteStep(c: Aead, before: Database, mid: Database, data: Config, todo: set<string>, kept: set<string>,
      id: string)
    requires Deleting(c, before, mid, data, todo, kept) && id in todo
    ensures Deleting(c, before, mid - {id}, data, todo - {id}, kept)
    ensures Deleting(c, before, mid, data, todo - {id}, kept + {id})
  {
    assert id !in data;
    assert kept + (todo - {id}) == (kept + todo) - {id};
    assert (mid - {id}).Keys == data.Keys + (kept + (todo - {id}));
    assert (kept + {id}) + (todo - {id}) == kept + todo;
  }

  /** The documents a save keeps once it has been through `ids` but for `todo`. */
  function Kept(spared: set<string>, ids: set<string>, todo: set<string>, failing: set<string>): set<string> {
    spared + (ids - todo) * failing
  }

  lemma AllDeleted(c: Aead, before: Database, after: Database, data: Config, spared: set<string>, ids: set<string>,
                   failing: set<string>)
    requires Deleting(c, before, after, data, {}, Kept(spared, ids, {}, failing))
    ensures FullySaved(c, before, after, data, spared + ids * failing)
  {
    assert Kept(spared, ids, {}, failing) + {} == spared + ids * failing;
  }

  lemma DeleteOneMore(c: Aead, before: Database, mid: Database, data: Config,
                      spared: set<string>, ids: set<string>, todo: set<string>, failing: set<string>, id: string)
    requires todo <= ids && id in todo && Deleting(c, before, mid, data, todo, Kept(spared, ids, todo, failing))
    ensures Deleting(c, before, if id in failing then mid else mid - {id}, data, todo - {id},
                     Kept(spared, ids, todo - {id}, failing))
  {
    DeleteStep(c, before, mid, data, todo, Kept(spared, ids, todo, failing), id);
    if id in failing {
      assert Kept(spared, ids, todo - {id}, failing) == Kept(spared, ids, todo, failing) + {id};
    } else {
      assert Kept(spared, ids, todo - {id}, failing) == Kept(spared, ids, todo, failing);
    }
  }

  /**
    What a save, or any number of saves stopped anywhere, may leave of `before`: nothing mixed, nothing lost too
    early.
   */
  ghost predicate MidSave(c: Aead, before: Database, after: Database, data: Config) {
    && (forall id :: id in data ==> WhollyOldOrNew(c, before, after, data, id))
    && (forall id :: id !in data && id in after ==> id in before && after[id] == before[id])
    && (before.Keys <= after.Keys || forall id :: id in data ==> id in after && Sealed(c, id, after[id], data[id]))
  }

  /** Where an error stops a save, and where a save is while and after it deletes, are such points. */
  lemma StopsAreMidSave(c: Aead, before: Database, after: Database, data: Config, ids: set<string>)
    ensures PartlySaved(c, before, after, data, ids) ==> MidSave(c, before, after, data)
    ensures FullySaved(c, before, after, data, ids) ==> MidSave(c, before, after, data)
  {
  }

  /** After a complete save the decrypted database is the cache plus the documents whose delete failed. */
  lemma SavedView(c: Aead, before: Database, after: Database, data: Config, kept: set<string>)
    requires c.Opens() && FullySaved(c, before, after, data, kept)
    ensures forall id :: id in data ==> id in View(c, after) && View(c, after)[id] == data[id]
    ensures View(c, after).Keys == data.Keys + kept
    ensures forall id :: id in kept ==> View(c, after)[id] == View(c, before)[id]
    ensures forall id :: id in data ==> Loadable(c, after[id])
  {
    forall id | id in data
      ensures id in after && WatchedSection(c, after[id]) == data[id] && Loadable(c, after[id])
    {
      SealedReadsBack(c, id, after[id], data[id]);
    }
  }

  lemma ViewIsCache(c: Aead, before: Database, after: Database, data: Config, kept: set<string>)
    requires c.Opens() && FullySaved(c, before, after, data, kept)
    ensures View(c, after) == data <==> kept == {}
    ensures kept == {} ==> AllLoadable(c, after)
  {
    SavedView(c, before, after, data, kept);
    var view := View(c, after);
    if kept == {} {
      forall id ensures Get(view, id) == Get(data, id) {
      }
      MapsEqual(view, data);
    } else {
      var id :| id in kept;
      assert id in view && id !in data;
    }
  }

  /** The documents of removed sections that a save leaves: those not listed, and those listed whose delete fails. */
  function Survivors(before: Database, data: Config, listed: set<string>, failed: set<string>): set<string> {
    before.Keys - data.Keys - (listed - failed)
  }

  /**
    The decrypted database equals the cache exactly when the listing reached every document to be removed and
    every such delete worked; and then a load succeeds, whatever was unreadable before.
   */
  lemma SaveThenLoad(c: Aead, before: Database, after: Database, data: Config, listed: set<string>, failed: set<string>)
    requires c.Opens() && FullySaved(c, before, after, data, Survivors(before, data, listed, failed))
    ensures View(c, after) == data <==> before.Keys - data.Keys <= listed && before.Keys - data.Keys !! failed
    ensures View(c, after) == data ==> AllLoadable(c, after)
  {
    ViewIsCache(c, before, after, data, Survivors(before, data, listed, failed));
    forall id | id in before.Keys - data.Keys
      ensures id in Survivors(before, data, listed, failed) <==> id !in listed || id in failed
    {
    }
  }

  /** Wherever it stops and whatever fails, a save by a process that is in sync changes no decrypted value. */
  lemma InSyncSaveChangesNothing(c: Aead, before: Database, after: Database, data: Config)
    requires c.Opens() && MidSave(c, before, after, data) && View(c, before) == data
    ensures View(c, after) == View(c, before)
  {
    assert data.Keys == before.Keys;
    forall id ensures Get(View(c, after), id) == Get(View(c, before), id) {
      if id in data && id in after && Sealed(c, id, after[id], data[id]) {
        SealedReadsBack(c, id, after[id], data[id]);
      } else if id in data {
        assert Get(after, id) == Get(before, id);
      }
    }
    MapsEqual(View(c, after), View(c, before));
  }

  /**
    A complete save after saves that stopped anywhere, during the deletes too, is an outcome of one uninterrupted
    save of the same cache: the same survivors, and so the same decrypted database.
   */
  lemma RerunEqualsUninterrupted(c: Aead, before: Database, stopped: Database, rerun: Database, data: Config,
      kept: set<string>)
    requires MidSave(c, before, stopped, data) && FullySaved(c, stopped, rerun, data, kept)
    ensures FullySaved(c, before, rerun, data, kept)
  {
    forall id | id in kept ensures id in before && rerun[id] == before[id] {
      assert id in stopped && id !in data;
    }
  }

  // ---------------------------------------------------------------- load against replay

  /** The cache built by applying the documents one at a time, as the watcher would. */
  function ReplayDocuments(c: Aead, db: Database, order: seq<string>): Config
    requires forall id :: id in order ==> id in db
  {
    if order == [] then map[]
    else ApplyFullDocument(c, ReplayDocuments(c, db, order[..|order| - 1]), order[|order| - 1],
      Some(db[order[|order| - 1]]))
  }

  lemma {:induction false} ReplayedPrefix(c: Aead, db: Database, order: seq<string>)
    requires forall id :: id in order ==> id in db
    ensures ReplayDocuments(c, db, order) == map id | id in order && id != "" :: WatchedSection(c, db[id])
  {
    if order != [] {
      var init, last := order[..|order| - 1], order[|order| - 1];
      ReplayedPrefix(c, db, init);
      assert order == init + [last];
    }
  }

  /**
    Loading agrees with replaying every document through the watcher, in any order, exactly when no
    document has the empty id, which the watcher drops and Load keeps.
   */
  lemma LoadAgreesWithReplay(c: Aead, db: Database, order: seq<string>)
    requires forall id :: id in order <==> id in db
    ensures ReplayDocuments(c, db, order) == View(c, db) <==> "" !in db
  {
    ReplayedPrefix(c, db, order);
    var replayed := ReplayDocuments(c, db, order);
    if "" in db {
      assert "" !in replayed && "" in View(c, db);
    } else {
      assert replayed == View(c, db);
    }
  }
}

/** The storage object and the collection it talks to. */
module ConfigStore {
  import opened Prelude
  import opened ConfigCache
  import opened ConfigCipher
  import opened ConfigDocuments
  import opened ConfigText

  /** Ranging over a Go map: every name once, in an order the program cannot rely on. */
  method ListOf(names: set<string>) returns (out: seq<string>)
    ensures Enumerates(out, names)
  {
    out := [];
    var todo := names;
    while todo != {}
      invariant todo <= names
      invariant Enumerates(out, names - todo)
      decreases todo
    {
      var name :| name in todo;
      out := out + [name];
      todo := todo - {name};
    }
  }

  /** sort.Strings on a listing of `names`. */
  method Sorted(xs: seq<string>, ghost names: set<string>) returns (out: seq<string>)
    requires Enumerates(xs, names)
    ensures out == InOrder(names)
  {
    SortedIsInOrder(xs, names);
    out := SortStrings(xs);
  }

  /**
    What goes wrong during one call of Load or Save: a failing query or cursor, the ids that Save's listing does not
    reach because its cursor ends early, and the ids on which writes fail.
   */
  datatype Faults =
    Faults(find: bool, cursor: bool, unlisted: set<string>, replace: set<string>, delete: set<string>)

  /** A MongoDB collection with string ids. Each call is atomic and without effect when it fails. */
  class Collection {
    var docs: Database

    constructor (docs: Database)
      ensures this.docs == docs
    {
      this.docs := docs;
    }

    /** Replaces or inserts one document. The server refuses a replacement that tries to set `_id`. */
    method ReplaceOne(id: string, doc: Document, fault: bool) returns (ok: bool)
      modifies this
      ensures ok <==> !fault && ID !in doc
      ensures docs == if ok then old(docs)[id := doc[ID := Text(id)]] else old(docs)
    {
      ok := !fault && ID !in doc;
      if ok {
        docs := docs[id := doc[ID := Text(id)]];
      }
    }

    method DeleteOne(id: string, fault: bool)
      modifies this
      ensures docs == if fault then old(docs) else old(docs) - {id}
    {
      if !fault {
        docs := docs - {id};
      }
    }
  }

  class MongoStorage {
    var data: Config
    const collection: Collection
    const cipher: Aead

    constructor (collection: Collection, cipher: Aead)
      ensures data == map[] && this.collection == collection && this.cipher == cipher
    {
      this.data := map[];
      this.collection := collection;
      this.cipher := cipher;
    }

    method SetValue(section: string, key: string, value: string)
      modifies this`data
      ensures data == ConfigCache.SetValue(old(data), section, key, value)
      ensures forall s, k :: ConfigCache.GetValue(data, s, k)
                == if s == section && k == key then Some(value) else ConfigCache.GetValue(old(data), s, k)
      ensures data.Keys == old(data).Keys + {section}
    {
      if section !in data {
        data := data[section := map[]];
      }
      data := data[section := data[section][key := value]];
    }

    method DeleteSection(section: string)
      modifies this`data
      ensures data == old(data) - {section}
    {
      data := data - {section};
    }

    method DeleteKey(section: string, key: string) returns (found: bool)
      modifies this`data
      ensures data == ConfigCache.DeleteKey(old(data), section, key)
      ensures forall s, k :: ConfigCache.GetValue(data, s, k)
                == if s == section && k == key then None else ConfigCache.GetValue(old(data), s, k)
      ensures forall s :: s in old(data) && s !in data ==> s == section && found && old(data)[s].Keys == {key}
      ensures found <==> ConfigCache.GetValue(old(data), section, key).Some?
    {
      DeletedReads(data, section, key);
      if section !in data {
        return false;
      }
      found := key in data[section];
      if found {
        data := data[section := data[section] - {key}];
        if |data[section]| == 0 {
          data := data - {section};
        }
      }
    }

    method GetValue(section: string, key: string) returns (r: Option<string>)
      ensures r == ConfigCache.GetValue(data, section, key)
    {
      if section !in data || key !in data[section] {
        return None;
      }
      r := Some(data[section][key]);
    }

    /** The section names, each once, in an unspecified order. */
    method GetSectionList() returns (out: seq<string>)
      ensures Enumerates(out, data.Keys)
    {
      out := ListOf(data.Keys);
    }

    method GetKeyList(section: string) returns (out: seq<string>)
      ensures Enumerates(out, if section in data then data[section].Keys else {})
    {
      if section !in data {
        return [];
      }
      out := ListOf(data[section].Keys);
    }

    /** The INI-style dump, with sections and keys in byte order. */
    method Serialize() returns (text: string)
      ensures text == ConfigToText(data)
    {
      var sections := ListOf(data.Keys);
      sections := Sorted(sections, data.Keys);
      text := "";
      for i := 0 to |sections|
        invariant text == SectionsText(data, sections[..i])
      {
        text := SerializeSection(text, sections[i], data[sections[i]]);
        assert sections[..i + 1][..i] == sections[..i];
      }
      assert sections[..|sections|] == sections;
    }

    /** Appends one section of the dump to what is written so far. */
    method SerializeSection(b: string, name: string, section: Section) returns (text: string)
      ensures text == b + SectionText(name, section)
    {
      var keys := ListOf(section.Keys);
      keys := Sorted(keys, section.Keys);
      text := b + Line(HeaderLine(name));
      ghost var head := text;
      for j := 0 to |keys|
        invariant text == head + EntriesText(section, keys[..j])
      {
        var line := Line(EntryLine(keys[j], section[keys[j]]));
        assert keys[..j + 1][..j] == keys[..j];
        Assoc(head, EntriesText(section, keys[..j]), line);
        text := text + line;
      }
      assert keys[..|keys|] == keys;
      text := text + Line("");
      SectionAppended(b, name, section);
    }

    /** Applies the full document of one change event to the cache. */
    method ApplyFullDocument(id: string, doc: Option<Document>)
      modifies this`data
      ensures data == ConfigDocuments.ApplyFullDocument(cipher, old(data), id, doc)
    {
      if id == "" || doc.None? {
        return;
      }
      var section: Section := map[];
      var todo := doc.value.Keys;
      while todo != {}
        invariant todo <= doc.value.Keys
        invariant section == map k | k in doc.value.Keys - todo && k != ID && Plain(cipher, doc.value[k]).Some?
                                  :: Plain(cipher, doc.value[k]).value
        invariant data == old(data)
        decreases todo
      {
        var k :| k in todo;
        todo := todo - {k};
        if k == ID {
          continue;
        }
        var encrypted := Payload(doc.value[k]);
        if encrypted.None? {
          continue;
        }
        var plaintext := Decrypt(cipher, encrypted.value);
        if plaintext.None? {
          continue;
        }
        section := section[k := plaintext.value];
      }
      assert section == WatchedSection(cipher, doc.value);
      data := data[id := section];
    }

    /** Applies the events of a change stream in order. */
    method ProcessChangeStream(events: seq<ChangeEvent>)
      modifies this`data
      ensures data == ApplyEvents(cipher, old(data), events)
    {
      for i := 0 to |events|
        invariant data == ApplyEvents(cipher, old(data), events[..i])
      {
        assert events[..i + 1][..i] == events[..i];
        if events[i].Garbled? {
          continue;
        }
        var operation := events[i].operation;
        if operation == "insert" || operation == "update" || operation == "replace" {
          ApplyFullDocument(events[i].id, events[i].fullDocument);
        } else if operation == "delete" {
          data := data - {events[i].id};
        }
      }
      assert events[..|events|] == events;
    }

    /**
      Reads the whole collection into the cache. A cursor failure or one undecryptable binary field makes it
      fail, and then the cache is untouched.
     */
    method Load(faults: Faults) returns (ok: bool)
      modifies this`data
      ensures ok <==> !faults.find && !faults.cursor && AllLoadable(cipher, collection.docs)
      ensures data == if ok then View(cipher, collection.docs) else old(data)
    {
      if faults.find {
        return false;
      }
      var loaded: Config := map[];
      var ids := collection.docs.Keys;
      while ids != {}
        invariant ids <= collection.docs.Keys
        invariant loaded == map id | id in collection.docs.Keys - ids :: WatchedSection(cipher, collection.docs[id])
        invariant forall id :: id in collection.docs.Keys - ids ==> Loadable(cipher, collection.docs[id])
        invariant data == old(data)
        decreases ids
      {
        var id :| id in ids;
        var section := LoadSection(collection.docs[id]);
        if section.Err? {
          return false;
        }
        loaded := loaded[id := section.value];
        ids := ids - {id};
      }
      if faults.cursor {
        return false;
      }
      data := loaded;
      return true;
    }

    /** Decrypts one document, stopping at the first binary field that does not decrypt. */
    method LoadSection(doc: Document) returns (r: Result<Section>)
      ensures r.Ok? <==> Loadable(cipher, doc)
      ensures r.Ok? ==> r.value == WatchedSection(cipher, doc)
    {
      var section: Section := map[];
      var todo := doc.Keys;
      while todo != {}
        invariant todo <= doc.Keys
        invariant section == map k | k in doc.Keys - todo && k != ID && Plain(cipher, doc[k]).Some?
                                  :: Plain(cipher, doc[k]).value
        invariant forall k :: k in doc.Keys - todo && k != ID ==> LoadableField(cipher, doc[k])
        decreases todo
      {
        var k :| k in todo;
        todo := todo - {k};
        if k == ID {
          continue;
        }
        var encrypted := Payload(doc[k]);
        if encrypted.None? {
          continue;
        }
        var plaintext := Decrypt(cipher, encrypted.value);
        if plaintext.None? {
          assert !LoadableField(cipher, doc[k]);
          return Err;
        }
        section := section[k := plaintext.value];
      }
      return Ok(section);
    }

    /** Encrypts every value of a section; it fails exactly when the random source fails for one of its keys. */
    method SealFields(section: Section, random: string -> Option<string>) returns (ok: bool, doc: Document)
      requires forall k :: random(k).Some? ==> |random(k).value| == NONCE_SIZE
      ensures ok <==> forall k :: k in section ==> random(k).Some?
      ensures ok ==> doc.Keys == section.Keys
      ensures ok ==> forall k :: k in section ==>
        random(k).Some? && doc[k] == Bytes(Encrypt(cipher, random(k).value, section[k]))
      ensures ok ==> forall k :: k in section ==> SealedField(cipher, doc[k], section[k])
    {
      doc := map[];
      var todo := section.Keys;
      while todo != {}
        invariant todo <= section.Keys
        invariant doc.Keys == section.Keys - todo
        invariant forall k :: k in doc ==>
          random(k).Some? && doc[k] == Bytes(Encrypt(cipher, random(k).value, section[k]))
        invariant forall k :: k in doc ==> SealedField(cipher, doc[k], section[k])
        decreases todo
      {
        var k :| k in todo;
        var nonce := random(k);
        if nonce.None? {
          return false, doc;
        }
        doc := doc[k := Bytes(Encrypt(cipher, nonce.value, section[k]))];
        assert SealedField(cipher, doc[k], section[k]);
        todo := todo - {k};
      }
      ok := true;
    }

    /** No fault of this call hits the section, and it has no `_id` key. */
    ghost predicate Savable(section: string, random: (string, string) -> Option<string>, faults: Faults)
      requires section in data
      reads this
    {
      && section !in faults.replace
      && ID !in data[section]
      && forall k :: k in data[section] ==> random(section, k).Some?
    }

    /** Encrypts and upserts one section. */
    method UpsertSection(section: string, random: (string, string) -> Option<string>, faults: Faults) returns (ok: bool)
      requires forall s, k :: random(s, k).Some? ==> |random(s, k).value| == NONCE_SIZE
      requires section in data
      modifies collection
      ensures ok <==> Savable(section, random, faults)
      ensures ok ==> section in collection.docs && Sealed(cipher, section, collection.docs[section], data[section])
      ensures ok ==> collection.docs == old(collection.docs)[section := collection.docs[section]]
      ensures !ok ==> collection.docs == old(collection.docs)
    {
      var sealed, doc := SealFields(data[section], k => random(section, k));
      if !sealed {
        return false;
      }
      ok := collection.ReplaceOne(section, doc, section in faults.replace);
    }

    /** First half of a save: upserts every section whole, marking its id as accounted for. */
    method UpsertSections(random: (string, string) -> Option<string>, faults: Faults)
      returns (ok: bool, leftover: set<string>, ghost done: set<string>)
      requires forall s, k :: random(s, k).Some? ==> |random(s, k).value| == NONCE_SIZE
      modifies collection
      ensures ok <==> forall s :: s in data ==> Savable(s, random, faults)
      ensures ok ==> done == data.Keys
      ensures leftover == old(collection.docs).Keys - faults.unlisted - done
      ensures PartlySaved(cipher, old(collection.docs), collection.docs, data, done)
    {
      ghost var before := collection.docs;
      leftover, done := collection.docs.Keys - faults.unlisted, {};
      var todo := data.Keys;
      while todo != {}
        invariant todo <= data.Keys && done == data.Keys - todo
        invariant leftover == before.Keys - faults.unlisted - done
        invariant PartlySaved(cipher, before, collection.docs, data, done)
        invariant forall s :: s in done ==> Savable(s, random, faults)
        decreases todo
      {
        var section :| section in todo;
        ghost var mid := collection.docs;
        ok := UpsertSection(section, random, faults);
        if !ok {
          return;
        }
        UpsertStep(cipher, before, mid, data, done, section, collection.docs[section]);
        leftover := leftover - {section};
        todo := todo - {section};
        done := done + {section};
      }
      ok := true;
    }

    /** Second half of a save: deletes the documents of no section that were listed, ignoring the errors. */
    method DeleteSections(ids: set<string>, faults: Faults, ghost before: Database, ghost spared: set<string>)
      requires Deleting(cipher, before, collection.docs, data, ids, spared)
      modifies collection
      ensures FullySaved(cipher, before, collection.docs, data, spared + ids * faults.delete)
    {
      var todo := ids;
      while todo != {}
        invariant todo <= ids
        invariant Deleting(cipher, before, collection.docs, data, todo, Kept(spared, ids, todo, faults.delete))
        decreases todo
      {
        var id :| id in todo;
        DeleteOneMore(cipher, before, collection.docs, data, spared, ids, todo, faults.delete, id);
        todo := todo - {id};
        collection.DeleteOne(id, id in faults.delete);
      }
      AllDeleted(cipher, before, collection.docs, data, spared, ids, faults.delete);
    }

    /**
      Writes the cache to the collection: every section is upserted whole, then the documents that were
      listed at the start and are in no section are deleted. On an error the upserts in `done` have happened
      and nothing has been deleted. Otherwise the documents that survive are those whose delete failed and, because
      the listing's cursor is not asked for its error, those the listing did not reach.
     */
    method Save(random: (string, string) -> Option<string>, faults: Faults) returns (ok: bool, ghost done: set<string>)
      requires forall s, k :: random(s, k).Some? ==> |random(s, k).value| == NONCE_SIZE
      modifies collection
      ensures ok <==> !faults.find && forall s :: s in data ==> Savable(s, random, faults)
      ensures ok <==>
              && !faults.find
              && (forall s :: s in data ==> s !in faults.replace && "_id" !in data[s])
              && (forall s, k :: s in data && k in data[s] ==> random(s, k).Some?)
      ensures !ok ==> PartlySaved(cipher, old(collection.docs), collection.docs, data, done)
      ensures ok ==>
        FullySaved(cipher, old(collection.docs), collection.docs, data,
                   Survivors(old(collection.docs), data, old(collection.docs).Keys - faults.unlisted, faults.delete))
    {
      done := {};
      ghost var before := collection.docs;
      if faults.find {
        return false, done;
      }
      var existing;
      ok, existing, done := UpsertSections(random, faults);
      if ok {
        ghost var spared := (before.Keys - data.Keys) * faults.unlisted;
        assert spared + existing == before.Keys - data.Keys;
        DeleteSections(existing, faults, before, spared);
        assert spared + existing * faults.delete
            == Survivors(before, data, before.Keys - faults.unlisted, faults.delete);
      }
    }
  }
}
