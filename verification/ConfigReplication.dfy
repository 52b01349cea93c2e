/**
  Several processes sharing the collection. Each has a cache fed by the change stream; saves interleave with
  each other, with foreign writes, with local edits and with event deliveries, one database operation at a time.
 */
module ConfigReplication {
  import opened Prelude
  import opened ConfigCache
  import opened ConfigCipher
  import opened ConfigDocuments

  /** An effective write to the collection, and so an entry of the change stream. `doc` is the document afterwards. */
  datatype Write = Put(id: string, doc: Document) | Update(id: string, doc: Document) | Remove(id: string)

  function Apply(db: Database, w: Write): Database {
    match w
    case Put(id, doc) => db[id := doc]
    case Update(id, doc) => db[id := doc]
    case Remove(id) => db - {id}
  }

  function Replay(base: Database, log: seq<Write>): Database {
    if log == [] then base else Apply(Replay(base, log[..|log| - 1]), log[|log| - 1])
  }

  /** Where a process stands in its current save. */
  datatype Phase = Idle | Upserting(existing: set<string>, todo: set<string>) | Deleting(todo: set<string>)

  /**
    One process. `pos` is how much of the log has reached it. Two ghosts of the proof: `unsaved` holds the
    sections edited locally and neither saved nor overwritten since, `missed` those written between the start of
    the load and the start of the watch.
   */
  datatype Replica = Replica(data: Config, pos: nat, watching: bool, phase: Phase, unsaved: set<string>,
      missed: set<string>)

  datatype World = World(base: Database, log: seq<Write>, replicas: seq<Replica>) {
    function Db(): Database {
      Replay(base, log)
    }

    /** A write that changes nothing leaves no event. */
    function Record(w: Write): World {
      if Apply(Db(), w) == Db() then this else this.(log := log + [w])
    }

    function With(p: nat, r: Replica): World
      requires p < |replicas|
    {
      this.(replicas := replicas[p := r])
    }
  }

  datatype Edit = Set(section: string, key: string, value: string) | DropKey(section: string, key: string)
      | DropSection(section: string)

  function Edited(data: Config, e: Edit): Config {
    match e
    case Set(section, key, value) => SetValue(data, section, key, value)
    case DropKey(section, key) => DeleteKey(data, section, key)
    case DropSection(section) => data - {section}
  }

  /**
    `at` is the log length at which the server looked up the document of an `update` event. `seen` is what the cursor
    of a load returned, each document as it was at some moment since the load began, when the log had length `start`.
   */
  datatype Step =
    | Foreign(w: Write)
    | Load(p: nat, start: nat, seen: Database)
    | StartWatching(p: nat)
    | LocalEdit(p: nat, edit: Edit)
    | Deliver(p: nat, at: nat)
    | BeginSave(p: nat, listed: set<string>)
    | Upsert(p: nat, section: string, doc: Document)
    | EndUpserts(p: nat)
    | DeleteOne(p: nat, id: string)
    | DeleteFails(p: nat, id: string)
    | EndSave(p: nat)

  /** Each edit does to what is read what the call of the store does. */
  lemma EditedReads(data: Config, e: Edit, s: string, k: string)
    ensures GetValue(Edited(data, e), s, k)
         == if e.section != s || (!e.DropSection? && e.key != k) then GetValue(data, s, k)
            else if e.Set? then Some(e.value) else None
    ensures e.DropSection? ==> e.section !in Edited(data, e)
  {
    if e.DropKey? {
      DeleteThenGet(data, e.section, e.key, s, k);
    }
  }

  /** The event the process receives: an update carries the document as it was at the lookup, or none. */
  function EventOf(w: World, pos: nat, at: nat): ChangeEvent
    requires pos < at <= |w.log|
  {
    match w.log[pos]
    case Put(id, doc) => ChangeEvent(if id in Replay(w.base, w.log[..pos]) then "replace" else "insert", id, Some(doc))
    case Update(id, _) => ChangeEvent("update", id, Get(Replay(w.base, w.log[..at]), id))
    case Remove(id) => ChangeEvent("delete", id, None)
  }

  /** Whether the event overwrites its section in the cache. */
  predicate Overwrites(e: ChangeEvent) {
    e.ChangeEvent? && (e.operation == "delete" || (e.id != "" && e.fullDocument.Some?))
  }

  /** The replica after the delivery. */
  function Delivered(c: Aead, w: World, r: Replica, at: nat): Replica
    requires r.pos < at <= |w.log|
  {
    var e := EventOf(w, r.pos, at);
    var settled := if Overwrites(e) then {e.id} else {};
    r.(data := ApplyEvent(c, r.data, e), pos := r.pos + 1, unsaved := r.unsaved - settled, missed := r.missed - settled)
  }

  /** The document, or its absence, is that of some moment since the log had length `start`. */
  ghost predicate SeenSince(w: World, start: nat, seen: Database, id: string) {
    exists at :: start <= at <= |w.log| && Get(seen, id) == Get(Replay(w.base, w.log[..at]), id)
  }

  ghost predicate Enabled(c: Aead, w: World, step: Step) {
    match step
    case Foreign(write) => write.Put? || write.id in w.Db()
    case Load(p, start, seen) =>
      && p < |w.replicas| && w.replicas[p].phase.Idle? && !w.replicas[p].watching
      && start <= |w.log| && AllLoadable(c, seen) && forall id :: SeenSince(w, start, seen, id)
    case StartWatching(p) => p < |w.replicas| && w.replicas[p].phase.Idle? && !w.replicas[p].watching
    case LocalEdit(p, _) => p < |w.replicas| && w.replicas[p].phase.Idle?
    case Deliver(p, at) =>
      p < |w.replicas| && w.replicas[p].phase.Idle? && w.replicas[p].watching && w.replicas[p].pos < at <= |w.log|
    case BeginSave(p, _) => p < |w.replicas| && w.replicas[p].phase.Idle?
    case Upsert(p, section, doc) =>
      && p < |w.replicas|
      && var r := w.replicas[p];
         r.phase.Upserting? && section in r.phase.todo && section in r.data && Sealed(c, section, doc, r.data[section])
    case EndUpserts(p) => p < |w.replicas| && w.replicas[p].phase.Upserting? && w.replicas[p].phase.todo == {}
    case DeleteOne(p, id) => p < |w.replicas| && w.replicas[p].phase.Deleting? && id in w.replicas[p].phase.todo
    case DeleteFails(p, id) => p < |w.replicas| && w.replicas[p].phase.Deleting? && id in w.replicas[p].phase.todo
    case EndSave(p) => p < |w.replicas| && !w.replicas[p].phase.Idle?
  }

  /**
    One atomic step. A save freezes its own cache, because it holds the read lock to the end; `EndSave` is
    its return, with or without an error, at any point. `listed` is what the id cursor returned, which need
    not be a snapshot when others write.
   */
  ghost function Next(c: Aead, w: World, step: Step): World
    requires Enabled(c, w, step)
  {
    match step
    case Foreign(write) => w.Record(write)
    case Load(p, start, seen) =>
      w.With(p, w.replicas[p].(data := View(c, seen), pos := |w.log|, unsaved := {}, missed := Ids(w.log[start..])))
    case StartWatching(p) =>
      var r := w.replicas[p];
      var late := Ids(w.log[if r.pos <= |w.log| then r.pos else 0..]);
      w.With(p, r.(watching := true, pos := |w.log|, missed := r.missed + late))
    case LocalEdit(p, edit) =>
      var r := w.replicas[p];
      w.With(p, r.(data := Edited(r.data, edit), unsaved := r.unsaved + {edit.section}))
    case Deliver(p, at) =>
      w.With(p, Delivered(c, w, w.replicas[p], at))
    case BeginSave(p, listed) =>
      w.With(p, w.replicas[p].(phase := Upserting(listed, w.replicas[p].data.Keys)))
    case Upsert(p, section, doc) =>
      var r := w.replicas[p];
      w.Record(Put(section, doc)).With(p, r.(phase := Upserting(r.phase.existing - {section}, r.phase.todo - {section}),
                                             unsaved := r.unsaved - {section}, missed := r.missed - {section}))
    case EndUpserts(p) =>
      w.With(p, w.replicas[p].(phase := Deleting(w.replicas[p].phase.existing)))
    case DeleteOne(p, id) =>
      var r := w.replicas[p];
      w.Record(Remove(id)).With(p,
        r.(phase := Deleting(r.phase.todo - {id}), unsaved := r.unsaved - {id}, missed := r.missed - {id}))
    case DeleteFails(p, id) =>
      w.With(p, w.replicas[p].(phase := Deleting(w.replicas[p].phase.todo - {id})))
    case EndSave(p) =>
      w.With(p, w.replicas[p].(phase := Idle))
  }

  function Ids(log: seq<Write>): set<string> {
    set i | 0 <= i < |log| :: log[i].id
  }

  ghost predicate Legal(c: Aead, w: World, steps: seq<Step>)
    decreases |steps|
  {
    steps == [] || (Enabled(c, w, steps[0]) && Legal(c, Next(c, w, steps[0]), steps[1..]))
  }

  ghost function Run(c: Aead, w: World, steps: seq<Step>): World
    requires Legal(c, w, steps)
    decreases |steps|
  {
    if steps == [] then w else Run(c, Next(c, w, steps[0]), steps[1..])
  }

  // ---------------------------------------------------------------- the invariant

  predicate Pending(w: World, r: Replica, s: string) {
    exists i :: r.pos <= i < |w.log| && w.log[i].id == s
  }

  /** The cache and the decrypted database agree on the section. */
  ghost predicate Agrees(c: Aead, w: World, r: Replica, s: string) {
    Get(r.data, s) == Get(View(c, w.Db()), s)
  }

  ghost predicate InSync(c: Aead, w: World, r: Replica) {
    forall s :: s != "" && s !in r.unsaved && s !in r.missed && !Pending(w, r, s) ==> Agrees(c, w, r, s)
  }

  predicate PhaseFits(r: Replica) {
    match r.phase
    case Idle => true
    case Upserting(existing, todo) => todo <= r.data.Keys && existing * r.data.Keys <= todo
    case Deleting(todo) => todo !! r.data.Keys
  }

  ghost predicate Valid(c: Aead, w: World) {
    forall p :: 0 <= p < |w.replicas| ==>
      w.replicas[p].pos <= |w.log| && PhaseFits(w.replicas[p]) && InSync(c, w, w.replicas[p])
  }

  /** A process that has just been created: an empty cache, nothing loaded. */
  function NewReplica(base: Database): Replica {
    Replica(map[], 0, false, Idle, {}, base.Keys)
  }

  ghost predicate Init(w: World) {
    w.log == [] && forall p :: 0 <= p < |w.replicas| ==> w.replicas[p] == NewReplica(w.base)
  }

  lemma InitValid(c: Aead, w: World)
    requires Init(w)
    ensures Valid(c, w)
  {
  }

  lemma RecordDb(w: World, write: Write)
    ensures w.Record(write).Db() == Apply(w.Db(), write)
  {
    var log := w.log + [write];
    assert log[..|log| - 1] == w.log;
  }

  /** A section without an entry between two points of the log is the same document at both. */
  lemma {:induction false} QuietBetween(base: Database, log: seq<Write>, i: nat, j: nat, s: string)
    requires i <= j <= |log|
    requires forall k :: i <= k < j ==> log[k].id != s
    ensures Get(Replay(base, log[..i]), s) == Get(Replay(base, log[..j]), s)
    decreases j
  {
    if i < j {
      assert log[..j][..j - 1] == log[..j - 1];
      QuietBetween(base, log, i, j - 1, s);
    }
  }

  lemma WrittenAt(base: Database, log: seq<Write>, i: nat)
    requires i < |log|
    ensures Get(Replay(base, log[..i + 1]), log[i].id) == if log[i].Remove? then None else Some(log[i].doc)
  {
  }

  lemma ViewGet(c: Aead, db: Database, s: string)
    ensures Get(View(c, db), s) == if s in db then Some(WatchedSection(c, db[s])) else None
  {
  }

  lemma SamePending(w: World, w': World, r: Replica, r': Replica, s: string)
    requires w.log == w'.log && r.pos == r'.pos
    ensures Pending(w, r, s) == Pending(w', r', s)
  {
  }

  /** Writing keeps every replica that did not write in sync. */
  lemma RecordKeepsSync(c: Aead, w: World, write: Write, r: Replica)
    requires r.pos <= |w.log| && InSync(c, w, r)
    ensures InSync(c, w.Record(write), r)
  {
  }

  /** The last write of a section left what the database holds, and what any later lookup finds. */
  lemma LastWriteStands(w: World, i: nat, at: nat)
    requires i < at <= |w.log| && forall k :: i + 1 <= k < |w.log| ==> w.log[k].id != w.log[i].id
    ensures Get(w.Db(), w.log[i].id) == if w.log[i].Remove? then None else Some(w.log[i].doc)
    ensures Get(Replay(w.base, w.log[..at]), w.log[i].id) == Get(w.Db(), w.log[i].id)
  {
    var s := w.log[i].id;
    QuietBetween(w.base, w.log, i + 1, |w.log|, s);
    QuietBetween(w.base, w.log, i + 1, at, s);
    WrittenAt(w.base, w.log, i);
    assert w.log[..|w.log|] == w.log;
  }

  /** The last pending event of a section brings the cache to the current document. */
  lemma LastEventSettles(c: Aead, w: World, r: Replica, at: nat)
    requires r.pos < at <= |w.log| && w.log[r.pos].id != ""
    requires !Pending(w, Delivered(c, w, r, at), w.log[r.pos].id)
    ensures Agrees(c, w, Delivered(c, w, r, at), w.log[r.pos].id)
  {
    var r' := Delivered(c, w, r, at);
    assert forall k :: r'.pos <= k < |w.log| ==> w.log[k].id != w.log[r.pos].id;
    LastWriteStands(w, r.pos, at);
    ViewGet(c, w.Db(), w.log[r.pos].id);
  }

  lemma OtherSectionsStay(c: Aead, w: World, r: Replica, at: nat, s: string)
    requires r.pos < at <= |w.log| && s != w.log[r.pos].id
    ensures var r' := Delivered(c, w, r, at);
            && Get(r'.data, s) == Get(r.data, s) && Pending(w, r', s) == Pending(w, r, s)
            && (s in r'.unsaved <==> s in r.unsaved) && (s in r'.missed <==> s in r.missed)
  {
  }

  lemma DeliverKeepsSync(c: Aead, w: World, r: Replica, at: nat)
    requires r.pos < at <= |w.log| && InSync(c, w, r)
    ensures InSync(c, w, Delivered(c, w, r, at))
  {
    var r' := Delivered(c, w, r, at);
    forall s | s != "" && s !in r'.unsaved && s !in r'.missed && !Pending(w, r', s)
      ensures Agrees(c, w, r', s)
    {
      if s == w.log[r.pos].id {
        LastEventSettles(c, w, r, at);
      } else {
        OtherSectionsStay(c, w, r, at, s);
      }
    }
  }

  lemma UpsertKeepsSync(c: Aead, w: World, p: nat, section: string, doc: Document)
    requires c.Opens() && Enabled(c, w, Upsert(p, section, doc))
    requires w.replicas[p].pos <= |w.log| && InSync(c, w, w.replicas[p])
    ensures var w' := Next(c, w, Upsert(p, section, doc)); InSync(c, w', w'.replicas[p])
  {
    var r := w.replicas[p];
    var w' := Next(c, w, Upsert(p, section, doc));
    RecordKeepsSync(c, w, Put(section, doc), r);
    RecordDb(w, Put(section, doc));
    SealedReadsBack(c, section, doc, r.data[section]);
    forall s | s != "" && s !in w'.replicas[p].unsaved && s !in w'.replicas[p].missed && !Pending(w', w'.replicas[p], s)
      ensures Agrees(c, w', w'.replicas[p], s)
    {
      ViewGet(c, w'.Db(), s);
      SamePending(w.Record(Put(section, doc)), w', r, w'.replicas[p], s);
    }
  }

  lemma DeleteKeepsSync(c: Aead, w: World, p: nat, id: string)
    requires Enabled(c, w, DeleteOne(p, id)) && PhaseFits(w.replicas[p])
    requires w.replicas[p].pos <= |w.log| && InSync(c, w, w.replicas[p])
    ensures var w' := Next(c, w, DeleteOne(p, id)); InSync(c, w', w'.replicas[p])
  {
    var r := w.replicas[p];
    var w' := Next(c, w, DeleteOne(p, id));
    RecordKeepsSync(c, w, Remove(id), r);
    RecordDb(w, Remove(id));
    forall s | s != "" && s !in w'.replicas[p].unsaved && s !in w'.replicas[p].missed && !Pending(w', w'.replicas[p], s)
      ensures Agrees(c, w', w'.replicas[p], s)
    {
      ViewGet(c, w'.Db(), s);
      SamePending(w.Record(Remove(id)), w', r, w'.replicas[p], s);
    }
  }

  lemma LoadInSync(c: Aead, w: World, r: Replica, start: nat, seen: Database)
    requires start <= |w.log| && forall id :: SeenSince(w, start, seen, id)
    ensures InSync(c, w, r.(data := View(c, seen), pos := |w.log|, unsaved := {}, missed := Ids(w.log[start..])))
  {
    var r' := r.(data := View(c, seen), pos := |w.log|, unsaved := {}, missed := Ids(w.log[start..]));
    forall s | s !in r'.missed ensures Agrees(c, w, r', s) {
      assert SeenSince(w, start, seen, s);
      var at :| start <= at <= |w.log| && Get(seen, s) == Get(Replay(w.base, w.log[..at]), s);
      forall k | at <= k < |w.log| ensures w.log[k].id != s {
        assert w.log[start..][k - start].id in r'.missed;
      }
      QuietBetween(w.base, w.log, at, |w.log|, s);
      assert w.log[..|w.log|] == w.log;
      ViewGet(c, w.Db(), s);
      ViewGet(c, seen, s);
    }
  }

  lemma EditKeepsSync(c: Aead, w: World, r: Replica, edit: Edit)
    requires InSync(c, w, r)
    ensures InSync(c, w, r.(data := Edited(r.data, edit), unsaved := r.unsaved + {edit.section}))
  {
  }

  lemma WatchKeepsSync(c: Aead, w: World, r: Replica)
    requires r.pos <= |w.log| && InSync(c, w, r)
    ensures InSync(c, w, r.(watching := true, pos := |w.log|, missed := r.missed + Ids(w.log[r.pos..])))
  {
  }

  /** A change of phase alone. */
  lemma PhaseKeepsSync(c: Aead, w: World, r: Replica, phase: Phase)
    requires InSync(c, w, r)
    ensures InSync(c, w, r.(phase := phase))
  {
  }

  /** Sync depends on the documents and the log only. */
  lemma SameWorldSync(c: Aead, w: World, w': World, r: Replica)
    requires w.base == w'.base && w.log == w'.log && InSync(c, w, r)
    ensures InSync(c, w', r)
  {
  }

  lemma StepKeepsOwnSync(c: Aead, w: World, step: Step, p: nat)
    requires c.Opens() && Valid(c, w) && Enabled(c, w, step)
    requires !step.Foreign? && step.p == p
    ensures var w' := Next(c, w, step);
            w'.replicas[p].pos <= |w'.log| && PhaseFits(w'.replicas[p]) && InSync(c, w', w'.replicas[p])
  {
    var r := w.replicas[p];
    var w' := Next(c, w, step);
    var r' := w'.replicas[p];
    match step
    case Load(_, start, seen) =>
      LoadInSync(c, w, r, start, seen);
      SameWorldSync(c, w, w', r');
    case StartWatching(_) =>
      WatchKeepsSync(c, w, r);
      SameWorldSync(c, w, w', r');
    case LocalEdit(_, edit) =>
      EditKeepsSync(c, w, r, edit);
      SameWorldSync(c, w, w', r');
    case Deliver(_, at) =>
      DeliverKeepsSync(c, w, r, at);
      SameWorldSync(c, w, w', r');
    case Upsert(_, section, doc) =>
      UpsertKeepsSync(c, w, p, section, doc);
    case DeleteOne(_, id) =>
      DeleteKeepsSync(c, w, p, id);
    case EndUpserts(_) =>
      assert forall id :: id in r.phase.existing && id in r.data ==> id in r.phase.existing * r.data.Keys;
      PhaseKeepsSync(c, w, r, r'.phase);
      SameWorldSync(c, w, w', r');
    case BeginSave(_, _) =>
      PhaseKeepsSync(c, w, r, r'.phase);
      SameWorldSync(c, w, w', r');
    case DeleteFails(_, _) =>
      PhaseKeepsSync(c, w, r, r'.phase);
      SameWorldSync(c, w, w', r');
    case EndSave(_) =>
      PhaseKeepsSync(c, w, r, r'.phase);
      SameWorldSync(c, w, w', r');
  }

  lemma StepKeepsOtherSync(c: Aead, w: World, step: Step, q: nat)
    requires Valid(c, w) && Enabled(c, w, step) && q < |w.replicas|
    requires step.Foreign? || step.p != q
    ensures var w' := Next(c, w, step);
            w'.replicas[q] == w.replicas[q] && w'.replicas[q].pos <= |w'.log| && InSync(c, w', w'.replicas[q])
  {
    var w' := Next(c, w, step);
    var r := w.replicas[q];
    match step
    case Foreign(write) =>
      RecordKeepsSync(c, w, write, r);
    case Upsert(p, section, doc) =>
      RecordKeepsSync(c, w, Put(section, doc), r);
      SameWorldSync(c, w.Record(Put(section, doc)), w', r);
    case DeleteOne(p, id) =>
      RecordKeepsSync(c, w, Remove(id), r);
      SameWorldSync(c, w.Record(Remove(id)), w', r);
    case _ =>
      SameWorldSync(c, w, w', r);
  }

  lemma StepKeepsValid(c: Aead, w: World, step: Step)
    requires c.Opens() && Valid(c, w) && Enabled(c, w, step)
    ensures Valid(c, Next(c, w, step))
  {
    var w' := Next(c, w, step);
    forall q | 0 <= q < |w'.replicas|
      ensures w'.replicas[q].pos <= |w'.log| && PhaseFits(w'.replicas[q]) && InSync(c, w', w'.replicas[q])
    {
      if !step.Foreign? && step.p == q {
        StepKeepsOwnSync(c, w, step, q);
      } else {
        StepKeepsOtherSync(c, w, step, q);
      }
    }
  }

  /** In every interleaving, every process keeps in sync on all sections that are settled for it. */
  lemma {:induction false} Convergence(c: Aead, w: World, steps: seq<Step>)
    requires c.Opens() && Valid(c, w) && Legal(c, w, steps)
    ensures Valid(c, Run(c, w, steps))
    decreases |steps|
  {
    if steps != [] {
      StepKeepsValid(c, w, steps[0]);
      Convergence(c, Next(c, w, steps[0]), steps[1..]);
    }
  }

  ghost predicate Drained(w: World, p: nat) {
    p < |w.replicas| && w.replicas[p].pos == |w.log| && w.replicas[p].unsaved == {} && w.replicas[p].missed == {}
  }

  /** Processes that have received everything and hold no unsaved edit all hold the decrypted database. */
  lemma DrainedReplicasAgree(c: Aead, w: World, steps: seq<Step>, p: nat, q: nat)
    requires c.Opens() && Init(w) && Legal(c, w, steps)
    requires Drained(Run(c, w, steps), p) && Drained(Run(c, w, steps), q)
    ensures var w' := Run(c, w, steps);
            w'.replicas[p].data - {""} == View(c, w'.Db()) - {""} == w'.replicas[q].data - {""}
  {
    InitValid(c, w);
    Convergence(c, w, steps);
    var w' := Run(c, w, steps);
    DrainedHoldsDatabase(c, w', p);
    DrainedHoldsDatabase(c, w', q);
  }

  lemma DrainedHoldsDatabase(c: Aead, w: World, p: nat)
    requires Valid(c, w) && Drained(w, p)
    ensures w.replicas[p].data - {""} == View(c, w.Db()) - {""}
  {
  }

  // ---------------------------------------------------------------- where agreement stops

  lemma RunOne(c: Aead, w: World, step: Step)
    requires Enabled(c, w, step)
    ensures Legal(c, w, [step]) && Run(c, w, [step]) == Next(c, w, step)
  {
  }

  lemma RunStep(c: Aead, w: World, step: Step, steps: seq<Step>)
    requires Enabled(c, w, step) && Legal(c, Next(c, w, step), steps)
    ensures Legal(c, w, [step] + steps) && Run(c, w, [step] + steps) == Run(c, Next(c, w, step), steps)
  {
    assert ([step] + steps)[1..] == steps;
  }

  const FRESH: World := World(map[], [], [NewReplica(map[])])

  /** A process that has loaded an empty database, before or after it starts to watch. */
  function Started(watching: bool): World {
    World(map[], [], [Replica(map[], 0, watching, Idle, {}, {})])
  }

  /** The load of an empty collection. */
  const LOADED: Step := Load(0, 0, map[])

  lemma StartUp(c: Aead)
    ensures Enabled(c, FRESH, LOADED) && Next(c, FRESH, LOADED) == Started(false)
    ensures Enabled(c, Started(false), StartWatching(0)) && Next(c, Started(false), StartWatching(0)) == Started(true)
  {
    assert FRESH.log[0..] == [] && Ids([]) == {};
    forall id ensures SeenSince(FRESH, 0, map[], id) {
      assert FRESH.log[..0] == [] && Get(map[], id) == Get(Replay(FRESH.base, FRESH.log[..0]), id);
    }
    var w := Started(false);
    assert w.log[0..] == [];
    assert Next(c, w, StartWatching(0)).replicas[0].missed == {};
    assert Next(c, w, StartWatching(0)).replicas == Started(true).replicas;
  }

  lemma FirstWrite(c: Aead, watching: bool, id: string, doc: Document)
    ensures var w := Started(watching); var put := Foreign(Put(id, doc));
            Enabled(c, w, put) && Next(c, w, put) == w.(log := [Put(id, doc)]) && Next(c, w, put).Db() == map[id := doc]
  {
    var w := Started(watching);
    assert w.Db() == map[] && id in Apply(w.Db(), Put(id, doc));
    RecordDb(w, Put(id, doc));
  }

  lemma Alone(w: World, r: Replica)
    requires |w.replicas| == 1
    ensures w.With(0, r) == World(w.base, w.log, [r])
  {
    assert w.replicas[0 := r] == [r];
  }

  lemma EmptyIdDelivered(c: Aead, doc: Document)
    ensures var written := Started(true).(log := [Put("", doc)]);
            && Enabled(c, written, Deliver(0, 1))
            && Next(c, written, Deliver(0, 1)) == written.(replicas := [Replica(map[], 1, true, Idle, {}, {})])
            && "" in written.Db()
  {
    var written := Started(true).(log := [Put("", doc)]);
    var none: set<string> := {};
    assert none - {} == none;
    assert Delivered(c, written, written.replicas[0], 1) == Replica(map[], 1, true, Idle, {}, {});
    Alone(written, Delivered(c, written, written.replicas[0], 1));
    RecordDb(Started(true), Put("", doc));
  }

  /** The watcher ignores documents with an empty id, so a drained, clean process can differ from the database there. */
  lemma EmptyIdIsNotReplicated(c: Aead, doc: Document)
    ensures var steps := [LOADED] + ([StartWatching(0)] + ([Foreign(Put("", doc))] + [Deliver(0, 1)]));
            Init(FRESH) && Legal(c, FRESH, steps) && Drained(Run(c, FRESH, steps), 0)
            && "" in Run(c, FRESH, steps).Db() && "" !in Run(c, FRESH, steps).replicas[0].data
  {
    var put, deliver := Foreign(Put("", doc)), Deliver(0, 1);
    StartUp(c);
    FirstWrite(c, true, "", doc);
    EmptyIdDelivered(c, doc);
    RunOne(c, Started(true).(log := [Put("", doc)]), deliver);
    RunStep(c, Started(true), put, [deliver]);
    RunStep(c, Started(false), StartWatching(0), [put] + [deliver]);
    RunStep(c, FRESH, LOADED, [StartWatching(0)] + ([put] + [deliver]));
  }

  lemma WatchedTooLate(c: Aead, id: string, doc: Document)
    ensures var written := Started(false).(log := [Put(id, doc)]);
            && Enabled(c, written, StartWatching(0))
            && Next(c, written, StartWatching(0)) == written.(replicas := [Replica(map[], 1, true, Idle, {}, {id})])
            && id in written.Db()
  {
    var written := Started(false).(log := [Put(id, doc)]);
    var none: set<string> := {};
    assert written.log[0..] == written.log && written.log[0].id == id;
    assert Ids(written.log) == {id} && none + {id} == {id};
    Alone(written, Replica(map[], 1, true, Idle, {}, {id}));
    RecordDb(Started(false), Put(id, doc));
  }

  /**
    A write between the load and the start of the watch never reaches the process: in no run after it, until the
    section is written again by another or the process edits it or loads once more, is it in the cache.
   */
  lemma MissedWriteStaysMissed(c: Aead, id: string, doc: Document)
    ensures var steps := [LOADED] + ([Foreign(Put(id, doc))] + [StartWatching(0)]);
            Legal(c, FRESH, steps) && var w := Run(c, FRESH, steps);
            && |w.replicas| == 1 && w.replicas[0].pos == |w.log| && w.replicas[0].unsaved == {}
              && w.replicas[0].missed == {id}
            && id in w.Db() && id !in w.replicas[0].data
            && (c.Opens() ==> forall more :: Legal(c, w, more) && AllSpare(more, 0, id) ==> StaysOut(c, w, more, id))
  {
    StartUp(c);
    FirstWrite(c, false, id, doc);
    WatchedTooLate(c, id, doc);
    RunOne(c, Started(false).(log := [Put(id, doc)]), StartWatching(0));
    RunStep(c, Started(false), Foreign(Put(id, doc)), [StartWatching(0)]);
    RunStep(c, FRESH, LOADED, [Foreign(Put(id, doc))] + [StartWatching(0)]);
    if c.Opens() {
      NeverComes(c, Started(false).(log := [Put(id, doc)], replicas := [Replica(map[], 1, true, Idle, {}, {id})]), id);
    }
  }

  ghost predicate StaysOut(c: Aead, w: World, steps: seq<Step>, id: string)
    requires Legal(c, w, steps) && |w.replicas| == 1
  {
    |Run(c, w, steps).replicas| == 1 && id !in Run(c, w, steps).replicas[0].data
  }

  /** The processes stay the same in number. */
  lemma {:induction false} SameProcesses(c: Aead, w: World, steps: seq<Step>)
    requires Legal(c, w, steps)
    ensures |Run(c, w, steps).replicas| == |w.replicas|
    decreases |steps|
  {
    if steps != [] {
      SameProcesses(c, Next(c, w, steps[0]), steps[1..]);
    }
  }

  lemma NeverComes(c: Aead, w: World, id: string)
    requires c.Opens() && |w.replicas| == 1 && id !in w.replicas[0].data
    requires w.replicas[0] == Replica(map[], |w.log|, true, Idle, {}, {id}) && w.base == map[] && |w.log| == 1
        && w.log[0].id == id
    ensures forall more :: Legal(c, w, more) && AllSpare(more, 0, id) ==> StaysOut(c, w, more, id)
  {
    forall more | Legal(c, w, more) && AllSpare(more, 0, id) ensures StaysOut(c, w, more, id) {
      OnlyMissed(c, w, id);
      assert Settled(c, w, w.replicas[0], id);
      SectionRun(c, w, more, 0, id);
      SameProcesses(c, w, more);
    }
  }

  lemma OnlyMissed(c: Aead, w: World, id: string)
    requires |w.replicas| == 1 && w.replicas[0] == Replica(map[], |w.log|, true, Idle, {}, {id})
    requires w.base == map[] && |w.log| == 1 && w.log[0].id == id
    ensures Valid(c, w)
  {
    forall s | s != id ensures Get(View(c, w.Db()), s) == None {
      QuietBetween(w.base, w.log, 0, 1, s);
      assert w.log[..1] == w.log && w.log[..0] == [] && Replay(w.base, []) == w.base;
      ViewGet(c, w.Db(), s);
    }
  }

  // ---------------------------------------------------------------- what echoes do to a section

  /** What an event makes of its section, if it does anything to it. */
  function Effect(c: Aead, e: ChangeEvent): Option<Section>
    requires Overwrites(e)
  {
    if e.operation == "delete" then None else Some(WatchedSection(c, e.fullDocument.value))
  }

  lemma EffectOnSection(c: Aead, w: World, r: Replica, at: nat, s: string)
    requires r.pos < at <= |w.log|
    ensures var e := EventOf(w, r.pos, at);
            Get(Delivered(c, w, r, at).data, s)
            == if s == w.log[r.pos].id && Overwrites(e) then Effect(c, e) else Get(r.data, s)
  {
  }

  /** Event `i`, whenever its document is looked up, says of its section what `current` says, or says nothing. */
  predicate Fits(c: Aead, w: World, current: Option<Section>, i: nat, at: nat)
    requires i < at <= |w.log|
  {
    Overwrites(EventOf(w, i, at)) ==> Effect(c, EventOf(w, i, at)) == current
  }

  /** No pending event of the section would change it in the cache. */
  ghost predicate Settled(c: Aead, w: World, r: Replica, s: string) {
    forall i, at {:trigger Fits(c, w, Get(r.data, s), i, at)} ::
      r.pos <= i < at <= |w.log| && w.log[i].id == s ==> Fits(c, w, Get(r.data, s), i, at)
  }

  /** Steps that leave the section of `p` alone: nobody else writes it, and `p` neither edits it nor loads. */
  predicate Spares(step: Step, p: nat, s: string) {
    match step
    case Foreign(write) => write.id != s
    case Load(q, _, _) => q != p
    case LocalEdit(q, edit) => q != p || edit.section != s
    case Upsert(q, section, _) => q == p || section != s
    case DeleteOne(q, id) => q == p || id != s
    case _ => true
  }

  predicate AllSpare(steps: seq<Step>, p: nat, s: string) {
    forall i :: 0 <= i < |steps| ==> Spares(steps[i], p, s)
  }

  /** A write that leaves the section as the cache has it. */
  ghost predicate Agreeable(c: Aead, write: Write, current: Option<Section>) {
    match write
    case Put(id, doc) => current.Some? && WatchedSection(c, doc) == current.value
    case Update(_, _) => false
    case Remove(_) => current.None?
  }

  /** Such a write, or one of another section, changes no event that was there. */
  lemma OldEventFits(c: Aead, w: World, write: Write, current: Option<Section>, i: nat, at: nat)
    requires i < at <= |w.log| + 1 && i < |w.log|
    requires write.id != w.log[i].id || Agreeable(c, write, current)
    requires at <= |w.log| ==> Fits(c, w, current, i, at)
    requires Fits(c, w, current, i, |w.log|)
    ensures Fits(c, w.(log := w.log + [write]), current, i, at)
  {
    var w' := w.(log := w.log + [write]);
    assert w'.log[..i] == w.log[..i];
    if at <= |w.log| {
      assert w'.log[..at] == w.log[..at];
    } else {
      assert w'.log[..at] == w'.log && w'.log[..|w'.log| - 1] == w.log && w.log[..|w.log|] == w.log;
    }
  }

  lemma NewEventFits(c: Aead, w: World, write: Write, current: Option<Section>)
    requires Agreeable(c, write, current)
    ensures Fits(c, w.(log := w.log + [write]), current, |w.log|, |w.log| + 1)
  {
  }

  lemma RecordKeepsSettled(c: Aead, w: World, write: Write, r: Replica, s: string)
    requires r.pos <= |w.log| && Settled(c, w, r, s) && (write.id != s || Agreeable(c, write, Get(r.data, s)))
    ensures Settled(c, w.Record(write), r, s)
  {
    var w', current := w.Record(write), Get(r.data, s);
    if w'.log != w.log {
      forall i, at | r.pos <= i < at <= |w'.log| && w'.log[i].id == s ensures Fits(c, w', current, i, at) {
        if i < |w.log| {
          assert Fits(c, w, current, i, |w.log|);
          assert at <= |w.log| ==> Fits(c, w, current, i, at);
          OldEventFits(c, w, write, current, i, at);
        } else {
          NewEventFits(c, w, write, current);
        }
      }
    }
  }

  /** Being settled depends on the log, the position and the section alone. */
  lemma SameSettled(c: Aead, w: World, w': World, r: Replica, r': Replica, s: string)
    requires w.base == w'.base && w.log == w'.log && r.pos <= r'.pos && Get(r.data, s) == Get(r'.data, s)
        && Settled(c, w, r, s)
    ensures Settled(c, w', r', s)
  {
    forall i, at | r'.pos <= i < at <= |w'.log| && w'.log[i].id == s ensures Fits(c, w', Get(r'.data, s), i, at) {
      assert Fits(c, w, Get(r.data, s), i, at);
    }
  }

  lemma WriteStands(c: Aead, w: World, p: nat, r': Replica, write: Write, s: string)
    requires p < |w.replicas| && w.replicas[p].pos <= |w.log| && Settled(c, w, w.replicas[p], s)
    requires write.id != s || Agreeable(c, write, Get(w.replicas[p].data, s))
    requires r'.pos == w.replicas[p].pos && r'.data == w.replicas[p].data
    ensures Settled(c, w.Record(write), r', s)
  {
    RecordKeepsSettled(c, w, write, w.replicas[p], s);
    SameSettled(c, w.Record(write), w.Record(write), w.replicas[p], r', s);
  }

  lemma SectionStep(c: Aead, w: World, step: Step, p: nat, s: string)
    requires c.Opens() && Valid(c, w) && Enabled(c, w, step) && p < |w.replicas|
    requires Spares(step, p, s) && Settled(c, w, w.replicas[p], s)
    ensures var w' := Next(c, w, step);
            && p < |w'.replicas| && Get(w'.replicas[p].data, s) == Get(w.replicas[p].data, s)
            && Settled(c, w', w'.replicas[p], s)
  {
    var r, w' := w.replicas[p], Next(c, w, step);
    var r' := w'.replicas[p];
    match step
    case Foreign(write) =>
      WriteStands(c, w, p, r', write, s);
    case Upsert(q, section, doc) =>
      if q == p {
        SealedReadsBack(c, section, doc, r.data[section]);
      }
      WriteStands(c, w, p, r', Put(section, doc), s);
      SameSettled(c, w.Record(Put(section, doc)), w', r', r', s);
    case DeleteOne(q, id) =>
      WriteStands(c, w, p, r', Remove(id), s);
      SameSettled(c, w.Record(Remove(id)), w', r', r', s);
    case Deliver(q, at) =>
      if q == p {
        EffectOnSection(c, w, r, at, s);
        assert w.log[r.pos].id == s ==> Fits(c, w, Get(r.data, s), r.pos, at);
      }
      SameSettled(c, w, w', r, r', s);
    case _ =>
      SameSettled(c, w, w', r, r', s);
  }

  ghost predicate Stands(c: Aead, w: World, steps: seq<Step>, p: nat, s: string)
    requires Legal(c, w, steps) && p < |w.replicas|
  {
    p < |Run(c, w, steps).replicas| && Get(Run(c, w, steps).replicas[p].data, s) == Get(w.replicas[p].data, s)
  }

  lemma {:induction false} SectionRun(c: Aead, w: World, steps: seq<Step>, p: nat, s: string)
    requires c.Opens() && Valid(c, w) && Legal(c, w, steps) && p < |w.replicas|
    requires AllSpare(steps, p, s) && Settled(c, w, w.replicas[p], s)
    ensures Stands(c, w, steps, p, s) && Settled(c, Run(c, w, steps), Run(c, w, steps).replicas[p], s)
    decreases |steps|
  {
    if steps != [] {
      assert Spares(steps[0], p, s);
      SectionStep(c, w, steps[0], p, s);
      StepKeepsValid(c, w, steps[0]);
      SectionRun(c, Next(c, w, steps[0]), steps[1..], p, s);
    }
  }

  /** Deliveries up to a pending event that does not fit change the section on the way. */
  lemma {:induction false} DeliveryUndoes(c: Aead, w: World, p: nat, s: string, i: nat, at: nat)
      returns (steps: seq<Step>)
    requires p < |w.replicas| && w.replicas[p].phase.Idle? && w.replicas[p].watching
    requires w.replicas[p].pos <= i < at <= |w.log| && w.log[i].id == s
        && !Fits(c, w, Get(w.replicas[p].data, s), i, at)
    ensures Legal(c, w, steps) && !Stands(c, w, steps, p, s)
    ensures forall k :: 0 <= k < |steps| ==> steps[k].Deliver? && steps[k].p == p
    decreases i - w.replicas[p].pos
  {
    var r := w.replicas[p];
    var lookup := if i == r.pos then at else |w.log|;
    var deliver := Deliver(p, lookup);
    EffectOnSection(c, w, r, lookup, s);
    if w.log[r.pos].id == s && !Fits(c, w, Get(r.data, s), r.pos, lookup) {
      RunOne(c, w, deliver);
      steps := [deliver];
    } else {
      var rest := DeliveryUndoes(c, Next(c, w, deliver), p, s, i, at);
      RunStep(c, w, deliver, rest);
      steps := [deliver] + rest;
    }
  }

  /**
    A section of a watching process, edited or not, reads the same in every run that spares it, saves and echoes
    included, exactly when no pending event of the section says otherwise.
   */
  lemma SectionStandsExactly(c: Aead, w: World, p: nat, s: string)
    requires c.Opens() && Valid(c, w) && p < |w.replicas| && w.replicas[p].phase.Idle? && w.replicas[p].watching
    ensures (forall steps :: Legal(c, w, steps) && AllSpare(steps, p, s) ==> Stands(c, w, steps, p, s))
       <==> Settled(c, w, w.replicas[p], s)
  {
    if Settled(c, w, w.replicas[p], s) {
      forall steps | Legal(c, w, steps) && AllSpare(steps, p, s) ensures Stands(c, w, steps, p, s) {
        SectionRun(c, w, steps, p, s);
      }
    } else {
      var i, at :| w.replicas[p].pos <= i < at <= |w.log| && w.log[i].id == s
          && !Fits(c, w, Get(w.replicas[p].data, s), i, at);
      var steps := DeliveryUndoes(c, w, p, s, i, at);
      assert AllSpare(steps, p, s);
    }
  }

  /** So an edit made when no event of its section is pending is what the section's next upsert stores. */
  lemma EditReachesUpsert(c: Aead, w: World, p: nat, edit: Edit, steps: seq<Step>, doc: Document)
    requires c.Opens() && Valid(c, w) && Enabled(c, w, LocalEdit(p, edit)) && !Pending(w, w.replicas[p], edit.section)
    requires Legal(c, Next(c, w, LocalEdit(p, edit)), steps) && AllSpare(steps, p, edit.section)
    requires Enabled(c, Run(c, Next(c, w, LocalEdit(p, edit)), steps), Upsert(p, edit.section, doc))
    ensures var stored := Next(c, Run(c, Next(c, w, LocalEdit(p, edit)), steps), Upsert(p, edit.section, doc));
            Get(View(c, stored.Db()), edit.section) == Get(Edited(w.replicas[p].data, edit), edit.section)
  {
    var s, w1 := edit.section, Next(c, w, LocalEdit(p, edit));
    StepKeepsValid(c, w, LocalEdit(p, edit));
    assert Settled(c, w1, w1.replicas[p], s);
    SectionRun(c, w1, steps, p, s);
    var w2 := Run(c, w1, steps);
    RecordDb(w2, Put(s, doc));
    SealedReadsBack(c, s, doc, w2.replicas[p].data[s]);
    ViewGet(c, Next(c, w2, Upsert(p, s, doc)).Db(), s);
  }

  /** One process that watches a collection without documents, up to its first save. */
  function Editing(log: seq<Write>, s: string, section: Section, phase: Phase, unsaved: set<string>): World {
    World(map[], log, [Replica(map[s := section], 0, true, phase, unsaved, {})])
  }

  lemma FirstEdit(c: Aead, s: string, k: string, v: string)
    ensures Next(c, Started(true), LocalEdit(0, Set(s, k, v))) == Editing([], s, map[k := v], Idle, {s})
    ensures Next(c, Editing([], s, map[k := v], Idle, {s}), BeginSave(0, {}))
         == Editing([], s, map[k := v], Upserting({}, {s}), {s})
  {
    var none: set<string> := {};
    var empty: Config := map[];
    assert none + {s} == {s} && SetValue(empty, s, k, v) == map[s := map[k := v]];
    Alone(Started(true), Replica(map[s := map[k := v]], 0, true, Idle, {s}, {}));
    var edited := Editing([], s, map[k := v], Idle, {s});
    assert edited.replicas[0].data.Keys == {s};
    Alone(edited, edited.replicas[0].(phase := Upserting({}, {s})));
  }

  lemma FirstUpsert(c: Aead, s: string, k: string, v: string, doc: Document)
    requires Sealed(c, s, doc, map[k := v])
    ensures var w := Editing([], s, map[k := v], Upserting({}, {s}), {s});
            && Enabled(c, w, Upsert(0, s, doc))
            && Next(c, w, Upsert(0, s, doc)) == Editing([Put(s, doc)], s, map[k := v], Upserting({}, {}), {})
  {
    var w := Editing([], s, map[k := v], Upserting({}, {s}), {s});
    var none: set<string> := {};
    assert {s} - {s} == none && none - {s} == none;
    assert w.Db() == map[] && s in Apply(w.Db(), Put(s, doc));
    Alone(w.Record(Put(s, doc)), Replica(map[s := map[k := v]], 0, true, Upserting({}, {}), {}, {}));
  }

  lemma SecondEdit(c: Aead, log: seq<Write>, s: string, k: string, first: string, second: string)
    ensures Next(c, Editing(log, s, map[k := first], Upserting({}, {}), {}), EndSave(0))
        == Editing(log, s, map[k := first], Idle, {})
    ensures Next(c, Editing(log, s, map[k := first], Idle, {}), LocalEdit(0, Set(s, k, second)))
         == Editing(log, s, map[k := second], Idle, {s})
  {
    var none: set<string> := {};
    var section: Section := map[k := first];
    var saved, idle := Editing(log, s, section, Upserting({}, {}), {}), Editing(log, s, section, Idle, {});
    Alone(saved, idle.replicas[0]);
    assert none + {s} == {s} && section[k := second] == map[k := second];
    assert SetValue(idle.replicas[0].data, s, k, second) == map[s := map[k := second]];
    Alone(idle, Editing(log, s, map[k := second], Idle, {s}).replicas[0]);
  }

  lemma EchoOfFirst(c: Aead, s: string, k: string, first: string, second: string, doc: Document)
    requires c.Opens() && s != "" && Sealed(c, s, doc, map[k := first])
    ensures var log := [Put(s, doc)];
            && Enabled(c, Editing(log, s, map[k := second], Idle, {s}), Deliver(0, 1))
            && Next(c, Editing(log, s, map[k := second], Idle, {s}), Deliver(0, 1))
               == World(map[], log, [Replica(map[s := map[k := first]], 1, true, Idle, {}, {})])
  {
    var none: set<string> := {};
    var edited := Editing([Put(s, doc)], s, map[k := second], Idle, {s});
    assert {s} - {s} == none && none - {s} == none;
    SealedReadsBack(c, s, doc, map[k := first]);
    assert Delivered(c, edited, edited.replicas[0], 1).data == map[s := map[k := first]];
    Alone(edited, Delivered(c, edited, edited.replicas[0], 1));
  }

  /**
    An edit made while the echo of an earlier save is on its way is gone when the echo arrives, and no longer
    unsaved.
   */
  lemma EditLostToEcho(c: Aead, s: string, k: string, first: string, second: string, doc: Document)
    requires c.Opens() && s != "" && Sealed(c, s, doc, map[k := first])
    ensures var steps := [LocalEdit(0, Set(s, k, first))] + ([BeginSave(0, {})] + ([Upsert(0, s, doc)] + ([EndSave(0)]
                         + ([LocalEdit(0, Set(s, k, second))] + [Deliver(0, 1)]))));
            && Legal(c, Started(true), steps)
            && Run(c, Started(true), steps)
               == World(map[], [Put(s, doc)], [Replica(map[s := map[k := first]], 1, true, Idle, {}, {})])
  {
    var log := [Put(s, doc)];
    var edit, again, deliver := LocalEdit(0, Set(s, k, first)), LocalEdit(0, Set(s, k, second)), Deliver(0, 1);
    FirstEdit(c, s, k, first);
    FirstUpsert(c, s, k, first, doc);
    SecondEdit(c, log, s, k, first, second);
    EchoOfFirst(c, s, k, first, second, doc);
    RunOne(c, Editing(log, s, map[k := second], Idle, {s}), deliver);
    RunStep(c, Editing(log, s, map[k := first], Idle, {}), again, [deliver]);
    RunStep(c, Editing(log, s, map[k := first], Upserting({}, {}), {}), EndSave(0), [again] + [deliver]);
    RunStep(c, Editing([], s, map[k := first], Upserting({}, {s}), {s}), Upsert(0, s, doc), [EndSave(0)]
      + ([again] + [deliver]));
    RunStep(c, Editing([], s, map[k := first], Idle, {s}), BeginSave(0, {}), [Upsert(0, s, doc)]
      + ([EndSave(0)] + ([again] + [deliver])));
    RunStep(c, Started(true), edit, [BeginSave(0, {})]
      + ([Upsert(0, s, doc)] + ([EndSave(0)] + ([again] + [deliver]))));
  }

  // ---------------------------------------------------------------- saves without other writers

  /**
    Any step, of any process, that is no write by another and no load or edit of `p`: its saves and its echoes go
    on.
   */
  predicate Undisturbed(step: Step, p: nat) {
    match step
    case Foreign(_) => false
    case Load(q, _, _) => q != p
    case LocalEdit(q, _) => q != p
    case Upsert(q, _, _) => q == p
    case DeleteOne(q, _) => q == p
    case _ => true
  }

  predicate AllUndisturbed(steps: seq<Step>, p: nat) {
    forall i :: 0 <= i < |steps| ==> Undisturbed(steps[i], p)
  }

  /** Nothing pending would change the cache; a process that has received everything is quiet. */
  ghost predicate Quiet(c: Aead, w: World, r: Replica) {
    forall s: string :: Settled(c, w, r, s)
  }

  lemma DrainedIsQuiet(c: Aead, w: World, r: Replica)
    requires r.pos == |w.log|
    ensures Quiet(c, w, r)
  {
  }

  ghost predicate SameCache(c: Aead, w: World, steps: seq<Step>, p: nat)
    requires Legal(c, w, steps) && p < |w.replicas|
  {
    p < |Run(c, w, steps).replicas| && Run(c, w, steps).replicas[p].data == w.replicas[p].data
  }

  lemma QuietStep(c: Aead, w: World, step: Step, p: nat)
    requires c.Opens() && Valid(c, w) && Enabled(c, w, step) && p < |w.replicas|
    requires Undisturbed(step, p) && Quiet(c, w, w.replicas[p])
    ensures var w' := Next(c, w, step);
            p < |w'.replicas| && w'.replicas[p].data == w.replicas[p].data && Quiet(c, w', w'.replicas[p])
  {
    var w' := Next(c, w, step);
    forall s: string
      ensures Get(w'.replicas[p].data, s) == Get(w.replicas[p].data, s) && Settled(c, w', w'.replicas[p], s)
    {
      SectionStep(c, w, step, p, s);
    }
    MapsEqual(w'.replicas[p].data, w.replicas[p].data);
  }

  lemma {:induction false} QuietRun(c: Aead, w: World, steps: seq<Step>, p: nat)
    requires c.Opens() && Valid(c, w) && Legal(c, w, steps) && p < |w.replicas|
    requires AllUndisturbed(steps, p) && Quiet(c, w, w.replicas[p])
    ensures SameCache(c, w, steps, p)
    decreases |steps|
  {
    if steps != [] {
      assert Undisturbed(steps[0], p);
      QuietStep(c, w, steps[0], p);
      StepKeepsValid(c, w, steps[0]);
      QuietRun(c, Next(c, w, steps[0]), steps[1..], p);
    }
  }

  /**
    The cache of a watching process is the same after every undisturbed run, of saves stopped and rerun with
    deliveries in between, exactly when it is quiet at the start.
   */
  lemma CacheStandsExactly(c: Aead, w: World, p: nat)
    requires c.Opens() && Valid(c, w) && p < |w.replicas| && w.replicas[p].phase.Idle? && w.replicas[p].watching
    ensures (forall steps :: Legal(c, w, steps) && AllUndisturbed(steps, p) ==> SameCache(c, w, steps, p))
       <==> Quiet(c, w, w.replicas[p])
  {
    var r := w.replicas[p];
    if Quiet(c, w, r) {
      forall steps | Legal(c, w, steps) && AllUndisturbed(steps, p) ensures SameCache(c, w, steps, p) {
        QuietRun(c, w, steps, p);
      }
    } else {
      var s: string :| !Settled(c, w, r, s);
      var i, at :| r.pos <= i < at <= |w.log| && w.log[i].id == s && !Fits(c, w, Get(r.data, s), i, at);
      var steps := DeliveryUndoes(c, w, p, s, i, at);
      assert AllUndisturbed(steps, p);
      assert !SameCache(c, w, steps, p);
    }
  }

  /** The documents after a step. */
  function Written(db: Database, step: Step): Database {
    match step
    case Foreign(write) => Apply(db, write)
    case Upsert(_, section, doc) => db[section := doc]
    case DeleteOne(_, id) => db - {id}
    case _ => db
  }

  lemma DbAfter(c: Aead, w: World, step: Step)
    requires Enabled(c, w, step)
    ensures Next(c, w, step).Db() == Written(w.Db(), step)
  {
    match step
    case Foreign(write) => RecordDb(w, write);
    case Upsert(_, section, doc) => RecordDb(w, Put(section, doc));
    case DeleteOne(_, id) => RecordDb(w, Remove(id));
    case _ =>
  }

  /** What the phase adds to MidSave: the sections a save is through with, or all of them, are written. */
  ghost predicate PhaseSaved(c: Aead, db: Database, r: Replica) {
    match r.phase
    case Idle => true
    case Upserting(_, todo) => forall s :: s in r.data && s !in todo ==> s in db && Sealed(c, s, db[s], r.data[s])
    case Deleting(_) => forall s :: s in r.data ==> s in db && Sealed(c, s, db[s], r.data[s])
  }

  lemma UpsertMidSave(c: Aead, before: Database, db: Database, data: Config, id: string, doc: Document)
    requires MidSave(c, before, db, data) && id in data && Sealed(c, id, doc, data[id])
    ensures MidSave(c, before, db[id := doc], data)
  {
  }

  lemma DeleteMidSave(c: Aead, before: Database, db: Database, data: Config, id: string)
    requires MidSave(c, before, db, data) && id !in data
    requires forall s :: s in data ==> s in db && Sealed(c, s, db[s], data[s])
    ensures MidSave(c, before, db - {id}, data)
  {
  }

  lemma SaveStepMidSave(c: Aead, before: Database, w: World, step: Step, p: nat)
    requires Valid(c, w) && Enabled(c, w, step) && p < |w.replicas| && (step.Upsert? || step.DeleteOne?) && step.p == p
    requires MidSave(c, before, w.Db(), w.replicas[p].data) && PhaseSaved(c, w.Db(), w.replicas[p])
    ensures var w' := Next(c, w, step);
            MidSave(c, before, w'.Db(), w.replicas[p].data) && PhaseSaved(c, w'.Db(), w'.replicas[p])
  {
    DbAfter(c, w, step);
    if step.Upsert? {
      UpsertMidSave(c, before, w.Db(), w.replicas[p].data, step.section, step.doc);
    } else {
      DeleteMidSave(c, before, w.Db(), w.replicas[p].data, step.id);
    }
  }

  lemma MidSaveStep(c: Aead, before: Database, w: World, step: Step, p: nat)
    requires Valid(c, w) && Enabled(c, w, step) && p < |w.replicas| && Undisturbed(step, p)
    requires MidSave(c, before, w.Db(), w.replicas[p].data) && PhaseSaved(c, w.Db(), w.replicas[p])
    requires Next(c, w, step).replicas[p].data == w.replicas[p].data
    ensures var w' := Next(c, w, step);
            MidSave(c, before, w'.Db(), w.replicas[p].data) && PhaseSaved(c, w'.Db(), w'.replicas[p])
  {
    if step.Upsert? || step.DeleteOne? {
      SaveStepMidSave(c, before, w, step, p);
    } else {
      DbAfter(c, w, step);
    }
  }

  lemma {:induction false} MidSaveRun(c: Aead, before: Database, w: World, steps: seq<Step>, p: nat)
    requires c.Opens() && Valid(c, w) && Legal(c, w, steps) && p < |w.replicas|
    requires AllUndisturbed(steps, p) && Quiet(c, w, w.replicas[p])
    requires MidSave(c, before, w.Db(), w.replicas[p].data) && PhaseSaved(c, w.Db(), w.replicas[p])
    ensures SameCache(c, w, steps, p) && MidSave(c, before, Run(c, w, steps).Db(), w.replicas[p].data)
    decreases |steps|
  {
    if steps != [] {
      assert Undisturbed(steps[0], p);
      QuietStep(c, w, steps[0], p);
      StepKeepsValid(c, w, steps[0]);
      MidSaveStep(c, before, w, steps[0], p);
      MidSaveRun(c, before, Next(c, w, steps[0]), steps[1..], p);
    }
  }

  /** The steps of one save of `p`, among undisturbing steps of the other processes. */
  predicate DuringSave(step: Step, p: nat) {
    Undisturbed(step, p) && (step.p == p ==> step.Upsert? || step.EndUpserts? || step.DeleteOne? || step.DeleteFails?)
  }

  predicate AllDuringSave(steps: seq<Step>, p: nat) {
    forall i :: 0 <= i < |steps| ==> DuringSave(steps[i], p)
  }

  /** The ids whose delete by `p` failed. */
  function FailedDelete(step: Step, p: nat): set<string> {
    if step.DeleteFails? && step.p == p then {step.id} else {}
  }

  function FailedDeletes(steps: seq<Step>, p: nat): set<string> {
    if steps == [] then {} else FailedDelete(steps[0], p) + FailedDeletes(steps[1..], p)
  }

  /** How far a save with this listing has got, against the database `before` it began. */
  ghost predicate Progress(c: Aead, before: Database, listed: set<string>, w: World, p: nat, failed: set<string>)
    requires p < |w.replicas|
  {
    var r := w.replicas[p];
    match r.phase
    case Idle => false
    case Upserting(existing, todo) =>
      && todo <= r.data.Keys && failed == {}
      && existing == listed - (r.data.Keys - todo)
      && PartlySaved(c, before, w.Db(), r.data, r.data.Keys - todo)
    case Deleting(todo) =>
      ConfigDocuments.Deleting(c, before, w.Db(), r.data, todo, before.Keys - r.data.Keys - listed + failed)
  }

  lemma UpsertProgress(c: Aead, before: Database, listed: set<string>, w: World, p: nat, section: string, doc: Document)
    requires p < |w.replicas| && Progress(c, before, listed, w, p, {}) && Enabled(c, w, Upsert(p, section, doc))
    ensures Progress(c, before, listed, Next(c, w, Upsert(p, section, doc)), p, {})
  {
    var r := w.replicas[p];
    var w' := Next(c, w, Upsert(p, section, doc));
    DbAfter(c, w, Upsert(p, section, doc));
    UpsertStep(c, before, w.Db(), r.data, r.data.Keys - r.phase.todo, section, doc);
    assert r.data.Keys - r.phase.todo + {section} == r.data.Keys - w'.replicas[p].phase.todo;
  }

  lemma DeleteProgress(c: Aead, before: Database, listed: set<string>, w: World, p: nat, failed: set<string>,
      id: string)
    requires p < |w.replicas| && Progress(c, before, listed, w, p, failed) && Enabled(c, w, DeleteOne(p, id))
    ensures Progress(c, before, listed, Next(c, w, DeleteOne(p, id)), p, failed)
    ensures Progress(c, before, listed, Next(c, w, DeleteFails(p, id)), p, failed + {id})
  {
    var r := w.replicas[p];
    var kept := before.Keys - r.data.Keys - listed + failed;
    DbAfter(c, w, DeleteOne(p, id));
    DbAfter(c, w, DeleteFails(p, id));
    DeleteStep(c, before, w.Db(), r.data, r.phase.todo, kept, id);
    assert kept + {id} == before.Keys - r.data.Keys - listed + (failed + {id});
  }

  lemma EndUpsertsProgress(c: Aead, before: Database, listed: set<string>, w: World, p: nat)
    requires p < |w.replicas| && Progress(c, before, listed, w, p, {}) && Enabled(c, w, EndUpserts(p))
        && listed <= before.Keys
    ensures Progress(c, before, listed, Next(c, w, EndUpserts(p)), p, {})
  {
    var r := w.replicas[p];
    var kept := before.Keys - r.data.Keys - listed;
    assert r.data.Keys - {} == r.data.Keys && kept + {} == kept;
    assert kept + r.phase.existing == before.Keys - r.data.Keys;
    DbAfter(c, w, EndUpserts(p));
    assert ConfigDocuments.Deleting(c, before, w.Db(), r.data, r.phase.existing, kept);
  }

  lemma OthersKeepProgress(c: Aead, before: Database, listed: set<string>, w: World, p: nat, failed: set<string>,
      step: Step)
    requires p < |w.replicas| && Progress(c, before, listed, w, p, failed)
    requires Undisturbed(step, p) && step.p != p && Enabled(c, w, step)
    ensures var w' := Next(c, w, step);
            p < |w'.replicas| && w'.replicas[p] == w.replicas[p] && Progress(c, before, listed, w', p, failed)
  {
    DbAfter(c, w, step);
  }

  lemma OwnProgress(c: Aead, before: Database, listed: set<string>, w: World, p: nat, failed: set<string>, step: Step)
    requires p < |w.replicas| && Progress(c, before, listed, w, p, failed) && listed <= before.Keys
    requires DuringSave(step, p) && step.p == p && Enabled(c, w, step)
    ensures p < |Next(c, w, step).replicas|
    ensures Progress(c, before, listed, Next(c, w, step), p, if step.DeleteFails? then failed + {step.id} else failed)
  {
    match step
    case Upsert(_, section, doc) => UpsertProgress(c, before, listed, w, p, section, doc);
    case EndUpserts(_) => EndUpsertsProgress(c, before, listed, w, p);
    case DeleteOne(_, id) => DeleteProgress(c, before, listed, w, p, failed, id);
    case DeleteFails(_, id) => DeleteProgress(c, before, listed, w, p, failed, id);
  }

  lemma ProgressStep(c: Aead, before: Database, listed: set<string>, w: World, p: nat, failed: set<string>, step: Step)
    requires p < |w.replicas| && Progress(c, before, listed, w, p, failed) && listed <= before.Keys
    requires DuringSave(step, p) && Enabled(c, w, step)
    ensures var w' := Next(c, w, step);
            && p < |w'.replicas| && w'.replicas[p].data == w.replicas[p].data
            && Progress(c, before, listed, w', p, failed + FailedDelete(step, p))
  {
    assert failed + {} == failed;
    if step.p != p {
      OthersKeepProgress(c, before, listed, w, p, failed, step);
    } else {
      OwnProgress(c, before, listed, w, p, failed, step);
    }
  }

  lemma {:induction false} ProgressRun(c: Aead, before: Database, listed: set<string>, w: World, p: nat,
      failed: set<string>,
                                       steps: seq<Step>)
    requires p < |w.replicas| && Progress(c, before, listed, w, p, failed) && listed <= before.Keys
    requires Legal(c, w, steps) && AllDuringSave(steps, p)
    ensures var w' := Run(c, w, steps);
            && p < |w'.replicas| && w'.replicas[p].data == w.replicas[p].data
            && Progress(c, before, listed, w', p, failed + FailedDeletes(steps, p))
    decreases |steps|
  {
    if steps == [] {
      assert failed + FailedDeletes(steps, p) == failed;
    } else {
      var now := FailedDelete(steps[0], p);
      assert DuringSave(steps[0], p);
      ProgressStep(c, before, listed, w, p, failed, steps[0]);
      ProgressRun(c, before, listed, Next(c, w, steps[0]), p, failed + now, steps[1..]);
      assert (failed + now) + FailedDeletes(steps[1..], p) == failed + FailedDeletes(steps, p);
    }
  }

  ghost function SavedBy(c: Aead, w: World, p: nat, listed: set<string>, steps: seq<Step>): World
    requires Enabled(c, w, BeginSave(p, listed)) && Legal(c, Next(c, w, BeginSave(p, listed)), steps)
  {
    Run(c, Next(c, w, BeginSave(p, listed)), steps)
  }

  /**
    Wherever a save without other writers stops, in whatever order it visits sections and whatever its listing
    reached: every document is wholly old, wholly new, or a removed section's and gone; nothing is gone before every
    section is written; and once its deletes are through, the decrypted database is the cache exactly when the
    listing reached every document to be removed and no delete failed.
   */
  lemma InterruptibleSave(c: Aead, w: World, p: nat, listed: set<string>, steps: seq<Step>)
    requires c.Opens() && Enabled(c, w, BeginSave(p, listed)) && listed <= w.Db().Keys
    requires Legal(c, Next(c, w, BeginSave(p, listed)), steps) && AllDuringSave(steps, p)
    ensures var data, w' := w.replicas[p].data, SavedBy(c, w, p, listed, steps);
            && p < |w'.replicas| && w'.replicas[p].data == data
            && MidSave(c, w.Db(), w'.Db(), data)
            && (w'.replicas[p].phase == Phase.Deleting({}) ==>
                  && (View(c, w'.Db()) == data <==> w.Db().Keys - data.Keys <= listed && FailedDeletes(steps, p) == {})
                  && FullySaved(c, w.Db(), w'.Db(), data, w.Db().Keys - data.Keys - listed + FailedDeletes(steps, p)))
  {
    var data := w.replicas[p].data;
    var begun := Next(c, w, BeginSave(p, listed));
    var failed := FailedDeletes(steps, p);
    assert data.Keys - data.Keys == {} && listed - {} == listed;
    assert Progress(c, w.Db(), listed, begun, p, {});
    ProgressRun(c, w.Db(), listed, begun, p, {}, steps);
    assert {} + failed == failed;
    var w' := Run(c, begun, steps);
    match w'.replicas[p].phase
    case Upserting(_, todo) =>
      StopsAreMidSave(c, w.Db(), w'.Db(), data, data.Keys - todo);
    case Deleting(todo) =>
      var kept := w.Db().Keys - data.Keys - listed + failed;
      StopsAreMidSave(c, w.Db(), w'.Db(), data, kept + todo);
      if todo == {} {
        assert kept + {} == kept;
        ViewIsCache(c, w.Db(), w'.Db(), data, kept);
      }
  }

  /**
    Saves stopped anywhere, any number of times, with echoes delivered in between, and then one that runs to the
    end: if the process was quiet at first, this is an outcome of one uninterrupted save of the database there was,
    and at every point on the way no document was mixed and none lost too early.
   */
  lemma RerunAfterStop(c: Aead, w: World, p: nat, stopped: seq<Step>, listed: set<string>, again: seq<Step>)
    requires c.Opens() && Valid(c, w) && p < |w.replicas| && w.replicas[p].phase.Idle? && Quiet(c, w, w.replicas[p])
    requires Legal(c, w, stopped) && AllUndisturbed(stopped, p)
    requires var w1 := Run(c, w, stopped);
             && Enabled(c, w1, BeginSave(p, listed)) && listed <= w1.Db().Keys
             && Legal(c, Next(c, w1, BeginSave(p, listed)), again) && AllDuringSave(again, p)
    ensures var data, w1 := w.replicas[p].data, Run(c, w, stopped);
            var w' := SavedBy(c, w1, p, listed, again);
            && MidSave(c, w.Db(), w1.Db(), data)
            && p < |w'.replicas|
            && (w'.replicas[p].phase == Phase.Deleting({}) ==>
                  && (View(c, w'.Db()) == data <==> w1.Db().Keys - data.Keys <= listed && FailedDeletes(again, p) == {})
                  && FullySaved(c, w.Db(), w'.Db(), data, w1.Db().Keys - data.Keys - listed + FailedDeletes(again, p)))
  {
    var data, w1 := w.replicas[p].data, Run(c, w, stopped);
    MidSaveRun(c, w.Db(), w, stopped, p);
    InterruptibleSave(c, w1, p, listed, again);
    var w' := SavedBy(c, w1, p, listed, again);
    if w'.replicas[p].phase == Phase.Deleting({}) {
      RerunEqualsUninterrupted(c, w.Db(), w1.Db(), w'.Db(), data,
                               w1.Db().Keys - data.Keys - listed + FailedDeletes(again, p));
    }
  }

  /**
    A process that has received everything may stop its save anywhere and run it again: with a complete listing and
    no failed delete the database is then the cache it first set out to save.
   */
  lemma RerunByDrained(c: Aead, w: World, p: nat, stopped: seq<Step>, listed: set<string>, again: seq<Step>)
    requires c.Opens() && Valid(c, w) && p < |w.replicas| && w.replicas[p].phase.Idle? && w.replicas[p].pos == |w.log|
    requires Legal(c, w, stopped) && AllUndisturbed(stopped, p)
    requires var w1 := Run(c, w, stopped);
             && Enabled(c, w1, BeginSave(p, listed)) && listed == w1.Db().Keys
             && Legal(c, Next(c, w1, BeginSave(p, listed)), again) && AllDuringSave(again, p)
    requires var w' := SavedBy(c, Run(c, w, stopped), p, listed, again);
             p < |w'.replicas| && w'.replicas[p].phase == Phase.Deleting({})
    ensures View(c, SavedBy(c, Run(c, w, stopped), p, listed, again).Db()) == w.replicas[p].data
       <==> FailedDeletes(again, p) == {}
  {
    DrainedIsQuiet(c, w, w.replicas[p]);
    RerunAfterStop(c, w, p, stopped, listed, again);
  }

  // ---------------------------------------------------------------- a save among other writers

  /** The step writes the document with this id, or deletes it. */
  predicate Writes(step: Step, id: string) {
    match step
    case Foreign(write) => write.id == id
    case Upsert(_, section, _) => section == id
    case DeleteOne(_, i) => i == id
    case _ => false
  }

  predicate Removes(step: Step, id: string) {
    match step
    case Foreign(write) => write.Remove? && write.id == id
    case DeleteOne(_, i) => i == id
    case _ => false
  }

  predicate WrittenFrom(steps: seq<Step>, i: nat, id: string) {
    exists j :: i <= j < |steps| && Writes(steps[j], id)
  }

  /** Any steps of the other processes and writers, and of `p` those of the one save it is in. */
  predicate SaveGoesOn(step: Step, p: nat) {
    step.Foreign? || step.p != p || step.Upsert? || step.EndUpserts? || step.DeleteOne? || step.DeleteFails?
  }

  predicate SaveRun(steps: seq<Step>, p: nat) {
    forall i :: 0 <= i < |steps| ==> SaveGoesOn(steps[i], p)
  }

  ghost predicate Finishes(c: Aead, w: World, p: nat, steps: seq<Step>)
    requires Legal(c, w, steps)
  {
    p < |Run(c, w, steps).replicas| && Run(c, w, steps).replicas[p].phase == Phase.Deleting({})
  }

  lemma SaveGoesOnStep(c: Aead, w: World, p: nat, step: Step)
    requires p < |w.replicas| && Enabled(c, w, step) && SaveGoesOn(step, p)
    ensures var w' := Next(c, w, step);
            && p < |w'.replicas| && w'.replicas[p].data == w.replicas[p].data
            && w'.Db() == Written(w.Db(), step)
            && (step.Foreign? || step.p != p ==> w'.replicas[p] == w.replicas[p])
  {
    DbAfter(c, w, step);
  }

  lemma {:induction false} UnwrittenStays(c: Aead, w: World, steps: seq<Step>, id: string)
    requires Legal(c, w, steps) && !WrittenFrom(steps, 0, id)
    ensures Get(Run(c, w, steps).Db(), id) == Get(w.Db(), id)
    decreases |steps|
  {
    if steps != [] {
      DbAfter(c, w, steps[0]);
      assert !Writes(steps[0], id);
      RestUnwritten(steps, id);
      UnwrittenStays(c, Next(c, w, steps[0]), steps[1..], id);
    }
  }

  lemma RestUnwritten(steps: seq<Step>, id: string)
    requires steps != [] && !WrittenFrom(steps, 0, id)
    ensures !WrittenFrom(steps[1..], 0, id)
  {
    forall j | 0 <= j < |steps[1..]| ensures !Writes(steps[1..][j], id) {
      assert steps[1..][j] == steps[j + 1];
    }
  }

  lemma WrittenShift(steps: seq<Step>, i: nat, id: string)
    requires steps != []
    ensures WrittenFrom(steps[1..], i, id) <==> WrittenFrom(steps, i + 1, id)
  {
    if WrittenFrom(steps, i + 1, id) {
      var j :| i + 1 <= j < |steps| && Writes(steps[j], id);
      assert Writes(steps[1..][j - 1], id);
    }
    if WrittenFrom(steps[1..], i, id) {
      var j :| i <= j < |steps[1..]| && Writes(steps[1..][j], id);
      assert Writes(steps[j + 1], id);
    }
  }

  /** A save that is through with its upserts has upserted every section, whole; the rest is up to later writes. */
  lemma {:induction false} SectionSaved(c: Aead, w: World, p: nat, steps: seq<Step>, s: string) returns (k: nat)
    requires p < |w.replicas| && Legal(c, w, steps) && SaveRun(steps, p) && Finishes(c, w, p, steps)
    requires w.replicas[p].phase.Upserting? && s in w.replicas[p].phase.todo && s in w.replicas[p].data
    ensures k < |steps| && steps[k].Upsert? && steps[k].p == p && steps[k].section == s
    ensures Sealed(c, s, steps[k].doc, w.replicas[p].data[s])
    ensures !WrittenFrom(steps, k + 1, s) ==> Get(Run(c, w, steps).Db(), s) == Some(steps[k].doc)
    decreases |steps|
  {
    assert steps != [];
    var w1 := Next(c, w, steps[0]);
    assert SaveGoesOn(steps[0], p);
    SaveGoesOnStep(c, w, p, steps[0]);
    WrittenShift(steps, 0, s);
    if steps[0].Upsert? && steps[0].p == p && steps[0].section == s {
      k := 0;
      if !WrittenFrom(steps, 1, s) {
        UnwrittenStays(c, w1, steps[1..], s);
      }
    } else {
      var rest := SectionSaved(c, w1, p, steps[1..], s);
      k := rest + 1;
      WrittenShift(steps, rest + 1, s);
    }
  }

  /** The save will still delete the document, or try to. */
  predicate Doomed(r: Replica, id: string) {
    match r.phase
    case Idle => false
    case Upserting(existing, _) => id in existing
    case Deleting(todo) => id in todo
  }

  predicate Saving(r: Replica) {
    r.phase.Deleting? || (r.phase.Upserting? && r.phase.todo <= r.data.Keys)
  }

  /** No other process or writer removes the document. */
  predicate OthersKeep(steps: seq<Step>, p: nat, id: string) {
    forall i :: 0 <= i < |steps| && Removes(steps[i], id) ==> steps[i].DeleteOne? && steps[i].p == p
  }

  lemma OthersKeepFirst(steps: seq<Step>, p: nat, id: string)
    requires steps != [] && OthersKeep(steps, p, id)
    ensures !Removes(steps[0], id) || steps[0] == DeleteOne(p, id)
    ensures OthersKeep(steps[1..], p, id)
  {
    assert forall i :: 0 <= i < |steps[1..]| ==> steps[1..][i] == steps[i + 1];
  }

  /** The save's own delete of the document, and a write after it. */
  predicate WrittenAfterDelete(steps: seq<Step>, p: nat, id: string) {
    exists k :: 0 <= k < |steps| && steps[k] == DeleteOne(p, id) && WrittenFrom(steps, k + 1, id)
  }

  lemma {:induction false} SparedSurvives(c: Aead, w: World, p: nat, steps: seq<Step>, id: string)
    requires p < |w.replicas| && Legal(c, w, steps) && SaveRun(steps, p) && OthersKeep(steps, p, id)
    requires Saving(w.replicas[p]) && id !in w.replicas[p].data && !Doomed(w.replicas[p], id)
    ensures id in Run(c, w, steps).Db() <==> id in w.Db() || WrittenFrom(steps, 0, id)
    ensures DeleteOne(p, id) !in steps && DeleteFails(p, id) !in steps
    decreases |steps|
  {
    if steps != [] {
      var w1 := Next(c, w, steps[0]);
      assert SaveGoesOn(steps[0], p);
      SaveGoesOnStep(c, w, p, steps[0]);
      OthersKeepFirst(steps, p, id);
      assert forall i :: 0 <= i < |steps[1..]| ==> steps[1..][i] == steps[i + 1];
      SparedSurvives(c, w1, p, steps[1..], id);
      WrittenShift(steps, 0, id);
      assert WrittenFrom(steps, 0, id) <==> Writes(steps[0], id) || WrittenFrom(steps, 1, id);
      assert steps == [steps[0]] + steps[1..];
    }
  }

  /** One step while the document is still to be deleted: it stays doomed, or the delete is tried. */
  lemma DoomedStep(c: Aead, w: World, p: nat, step: Step, id: string)
    requires p < |w.replicas| && Enabled(c, w, step) && SaveGoesOn(step, p)
    requires Saving(w.replicas[p]) && id !in w.replicas[p].data && Doomed(w.replicas[p], id)
    ensures var w' := Next(c, w, step);
            && p < |w'.replicas| && Saving(w'.replicas[p]) && w'.replicas[p].data == w.replicas[p].data
            && (Doomed(w'.replicas[p], id) <==> step != DeleteOne(p, id) && step != DeleteFails(p, id))
  {
  }

  lemma {:induction false} DoomedSurvives(c: Aead, w: World, p: nat, steps: seq<Step>, id: string)
    requires p < |w.replicas| && Legal(c, w, steps) && SaveRun(steps, p) && Finishes(c, w, p, steps)
        && OthersKeep(steps, p, id)
    requires Saving(w.replicas[p]) && id !in w.replicas[p].data && Doomed(w.replicas[p], id) && id in w.Db()
    ensures id in Run(c, w, steps).Db() <==> DeleteFails(p, id) in steps || WrittenAfterDelete(steps, p, id)
    decreases |steps|
  {
    assert steps != [];
    var w1, rest := Next(c, w, steps[0]), steps[1..];
    assert SaveGoesOn(steps[0], p);
    SaveGoesOnStep(c, w, p, steps[0]);
    DoomedStep(c, w, p, steps[0], id);
    OthersKeepFirst(steps, p, id);
    assert forall i :: 0 <= i < |rest| ==> rest[i] == steps[i + 1];
    assert steps == [steps[0]] + rest;
    DeleteShift(steps, p, id);
    if steps[0] == DeleteOne(p, id) {
      SparedSurvives(c, w1, p, rest, id);
      WrittenShift(steps, 0, id);
      NoDeleteNoRewrite(rest, p, id);
    } else if steps[0] == DeleteFails(p, id) {
      SparedSurvives(c, w1, p, rest, id);
    } else {
      DoomedSurvives(c, w1, p, rest, id);
    }
  }

  lemma NoDeleteNoRewrite(steps: seq<Step>, p: nat, id: string)
    requires DeleteOne(p, id) !in steps
    ensures !WrittenAfterDelete(steps, p, id)
  {
  }

  lemma DeleteShift(steps: seq<Step>, p: nat, id: string)
    requires steps != []
    ensures WrittenAfterDelete(steps, p, id)
       <==> (steps[0] == DeleteOne(p, id) && WrittenFrom(steps, 1, id)) || WrittenAfterDelete(steps[1..], p, id)
  {
    if WrittenAfterDelete(steps, p, id) {
      var k :| 0 <= k < |steps| && steps[k] == DeleteOne(p, id) && WrittenFrom(steps, k + 1, id);
      if k > 0 {
        WrittenShift(steps, k, id);
        assert steps[1..][k - 1] == steps[k];
      }
    }
    if WrittenAfterDelete(steps[1..], p, id) {
      var k :| 0 <= k < |steps[1..]| && steps[1..][k] == DeleteOne(p, id) && WrittenFrom(steps[1..], k + 1, id);
      WrittenShift(steps, k + 1, id);
      assert steps[k + 1] == DeleteOne(p, id);
    }
  }

  /**
    What a completed save leaves of a document that was there when it began and is of no section of the cache, however
    new it is, if nobody else removes it: it survives exactly when the listing missed it, its delete failed, or it was
    written after its delete.
   */
  lemma UnseenSurvives(c: Aead, w: World, p: nat, listed: set<string>, steps: seq<Step>, id: string)
    requires Enabled(c, w, BeginSave(p, listed)) && Legal(c, Next(c, w, BeginSave(p, listed)), steps)
    requires SaveRun(steps, p) && OthersKeep(steps, p, id) && Finishes(c, Next(c, w, BeginSave(p, listed)), p, steps)
    requires id in w.Db() && id !in w.replicas[p].data
    ensures id in SavedBy(c, w, p, listed, steps).Db()
       <==> id !in listed || DeleteFails(p, id) in steps || WrittenAfterDelete(steps, p, id)
  {
    var begun := Next(c, w, BeginSave(p, listed));
    DbAfter(c, w, BeginSave(p, listed));
    if id in listed {
      DoomedSurvives(c, begun, p, steps, id);
    } else {
      SparedSurvives(c, begun, p, steps, id);
    }
  }

  /** And of a section of the cache: the entry as the cache has it, sealed, unless it was written after its upsert. */
  lemma SectionsStored(c: Aead, w: World, p: nat, listed: set<string>, steps: seq<Step>, s: string) returns (k: nat)
    requires Enabled(c, w, BeginSave(p, listed)) && Legal(c, Next(c, w, BeginSave(p, listed)), steps)
    requires SaveRun(steps, p) && Finishes(c, Next(c, w, BeginSave(p, listed)), p, steps) && s in w.replicas[p].data
    ensures k < |steps| && steps[k].Upsert? && steps[k].p == p && steps[k].section == s
    ensures Sealed(c, s, steps[k].doc, w.replicas[p].data[s])
    ensures !WrittenFrom(steps, k + 1, s) ==> Get(SavedBy(c, w, p, listed, steps).Db(), s) == Some(steps[k].doc)
  {
    k := SectionSaved(c, Next(c, w, BeginSave(p, listed)), p, steps, s);
  }

  /** After a load nothing is unsaved or pending, and only what was written during it is missed. */
  lemma LoadSettles(c: Aead, w: World, p: nat, start: nat, seen: Database, s: string)
    requires Enabled(c, w, Load(p, start, seen))
    ensures var w' := Next(c, w, Load(p, start, seen));
            && s !in w'.replicas[p].unsaved && !Pending(w', w'.replicas[p], s)
            && (s in w'.replicas[p].missed <==> exists i :: start <= i < |w.log| && w.log[i].id == s)
  {
    if i :| start <= i < |w.log| && w.log[i].id == s {
      assert w.log[start..][i - start].id == s;
    }
  }

  /** A section deleted by a save, or overwritten by an event, is neither unsaved nor missed. */
  lemma DeleteSettles(c: Aead, w: World, p: nat, id: string, at: nat)
    ensures Enabled(c, w, DeleteOne(p, id)) ==>
              var r := Next(c, w, DeleteOne(p, id)).replicas[p];
              id !in r.unsaved && id !in r.missed
    ensures Enabled(c, w, Deliver(p, at)) && Overwrites(EventOf(w, w.replicas[p].pos, at)) ==>
              var r, s := Next(c, w, Deliver(p, at)).replicas[p], w.log[w.replicas[p].pos].id;
              s !in r.unsaved && s !in r.missed
  {
  }

  /** A save through with its upserts leaves no section of the cache unsaved, and none that it has missed. */
  lemma {:induction false} SaveSettles(c: Aead, w: World, p: nat, steps: seq<Step>, s: string)
    requires p < |w.replicas| && Legal(c, w, steps) && SaveRun(steps, p) && Finishes(c, w, p, steps)
    requires Saving(w.replicas[p]) && s in w.replicas[p].data
    requires s in w.replicas[p].unsaved + w.replicas[p].missed ==>
               w.replicas[p].phase.Upserting? && s in w.replicas[p].phase.todo
    ensures s !in Run(c, w, steps).replicas[p].unsaved + Run(c, w, steps).replicas[p].missed
    decreases |steps|
  {
    if steps != [] {
      var w1 := Next(c, w, steps[0]);
      assert SaveGoesOn(steps[0], p);
      SaveGoesOnStep(c, w, p, steps[0]);
      SaveSettles(c, w1, p, steps[1..], s);
    }
  }

  /** A save removes what another process has written and this one has not received, unless the delete fails. */
  lemma SaveRemovesUnseen(c: Aead, id: string, doc: Document)
    ensures var w := Next(c, Started(true), Foreign(Put(id, doc)));
            var steps, failing := [EndUpserts(0)] + ([DeleteOne(0, id)] + []), [EndUpserts(0)]
                + ([DeleteFails(0, id)] + []);
            && Enabled(c, Started(true), Foreign(Put(id, doc))) && w.Db() == map[id := doc]
            && Enabled(c, w, BeginSave(0, {id})) && Legal(c, Next(c, w, BeginSave(0, {id})), steps)
            && id !in SavedBy(c, w, 0, {id}, steps).Db()
            && Legal(c, Next(c, w, BeginSave(0, {id})), failing) && id in SavedBy(c, w, 0, {id}, failing).Db()
  {
    FirstWrite(c, true, id, doc);
    var w := Started(true).(log := [Put(id, doc)]);
    var begun := w.(replicas := [Replica(map[], 0, true, Upserting({id}, {}), {}, {})]);
    var ended := w.(replicas := [Replica(map[], 0, true, Phase.Deleting({id}), {}, {})]);
    var none: Config := map[];
    assert none.Keys == {};
    Alone(w, begun.replicas[0]);
    Alone(begun, ended.replicas[0]);
    DbAfter(c, ended, DeleteOne(0, id));
    DbAfter(c, ended, DeleteFails(0, id));
    RunStep(c, ended, DeleteOne(0, id), []);
    RunStep(c, ended, DeleteFails(0, id), []);
    RunStep(c, begun, EndUpserts(0), [DeleteOne(0, id)] + []);
    RunStep(c, begun, EndUpserts(0), [DeleteFails(0, id)] + []);
  }
}
