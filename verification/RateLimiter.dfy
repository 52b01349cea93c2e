/**
  The per-address rate limiter: token buckets in a map that is swept of idle entries, against the same
  buckets in a map that never forgets.
 */

/** A token bucket with exact arithmetic: times are nanoseconds, and a bucket gains one unit a nanosecond. */
module TokenBucket {
  /** One request. At 5 requests a second it takes 200 ms to earn. */
  const COST: int := 200_000_000

  /** The capacity of 20 requests, earned in four seconds. */
  const BURST: int := 20 * COST

  datatype Bucket = Bucket(level: int, last: nat)

  const FRESH: Bucket := Bucket(BURST, 0)

  function Available(b: Bucket, now: nat): int {
    var earned := b.level + if now > b.last then now - b.last else 0;
    if earned < BURST then earned else BURST
  }

  function Allowed(b: Bucket, now: nat): bool {
    Available(b, now) >= COST
  }

  /** A refused request leaves the bucket alone. */
  function Spend(b: Bucket, now: nat): Bucket {
    if Allowed(b, now) then Bucket(Available(b, now) - COST, now) else b
  }

  /** What the bucket will hold later is determined by what it holds now. */
  lemma AvailableLater(b: Bucket, now: nat, later: nat)
    requires b.last <= now <= later && b.level <= BURST
    ensures Available(b, later) ==
            if Available(b, now) + (later - now) < BURST then Available(b, now) + (later - now) else BURST
  {
  }

  /** Decisions of a bucket on requests at the given times. */
  function Decisions(b: Bucket, times: seq<nat>): seq<bool>
    decreases |times|
  {
    if times == [] then [] else [Allowed(b, times[0])] + Decisions(Spend(b, times[0]), times[1..])
  }

  predicate Monotone(from: nat, times: seq<nat>) {
    (forall i :: 0 <= i < |times| ==> from <= times[i]) && forall i, j :: 0 <= i < j < |times| ==> times[i] <= times[j]
  }

  /** Buckets holding the same decide the same from then on. */
  lemma {:induction false} EqualFromNowOn(a: Bucket, b: Bucket, now: nat, times: seq<nat>)
    requires a.last <= now && b.last <= now && a.level <= BURST && b.level <= BURST
    requires Available(a, now) == Available(b, now) && Monotone(now, times)
    ensures Decisions(a, times) == Decisions(b, times)
    decreases |times|
  {
    if times != [] {
      AvailableLater(a, now, times[0]);
      AvailableLater(b, now, times[0]);
      var t := times[0];
      assert Available(Spend(a, t), t) == Available(Spend(b, t), t);
      EqualFromNowOn(Spend(a, t), Spend(b, t), t, times[1..]);
    }
  }

  function Repeat(t: nat, n: nat): seq<nat> {
    seq(n, _ => t)
  }

  /** `n` requests at one instant: the last is allowed exactly when there was enough for all. */
  lemma {:induction false} AtOneInstant(b: Bucket, t: nat, n: nat)
    requires n > 0 && b.last <= t && b.level <= BURST
    ensures |Decisions(b, Repeat(t, n))| == n
    ensures Decisions(b, Repeat(t, n))[n - 1] <==> Available(b, t) >= n * COST
    decreases n
  {
    var times := Repeat(t, n);
    if n > 1 {
      assert times[1..] == Repeat(t, n - 1);
      AtOneInstant(Spend(b, t), t, n - 1);
      assert Decisions(b, times)[n - 1] == Decisions(Spend(b, t), times[1..])[n - 2];
    } else {
      assert times[1..] == [];
    }
  }

  /** Forgetting a bucket cannot be noticed, whatever requests follow, exactly when it has refilled. */
  lemma ForgettingUnnoticed(b: Bucket, now: nat)
    requires b.last <= now && b.level <= BURST
    ensures (forall times :: Monotone(now, times) ==> Decisions(b, times) == Decisions(FRESH, times))
       <==> Available(b, now) == BURST
  {
    if Available(b, now) == BURST {
      forall times | Monotone(now, times)
        ensures Decisions(b, times) == Decisions(FRESH, times)
      {
        EqualFromNowOn(b, FRESH, now, times);
      }
    } else {
      var times := Repeat(now, 20);
      AtOneInstant(b, now, 20);
      AtOneInstant(FRESH, now, 20);
      assert Monotone(now, times) && Decisions(b, times)[19] != Decisions(FRESH, times)[19];
    }
  }
}

module RateLimiter {
  import opened TokenBucket

  const IDLE: nat := 180_000_000_000

  datatype Visitor = Visitor(limiter: nat, lastSeen: nat)

  /** The table of visitors, and the limiter objects they or a running request point to. */
  datatype Table = Table(visitors: map<string, Visitor>, limiters: seq<Bucket>)

  function SeenAt(t: Table, ip: string, now: nat): Table {
    if ip in t.visitors then t.(visitors := t.visitors[ip := Visitor(t.visitors[ip].limiter, now)])
    else Table(t.visitors[ip := Visitor(|t.limiters|, now)], t.limiters + [FRESH])
  }

  predicate Expired(v: Visitor, now: nat) {
    now - v.lastSeen > IDLE
  }

  function Swept(t: Table, now: nat): Table {
    t.(visitors := map ip | ip in t.visitors && !Expired(t.visitors[ip], now) :: t.visitors[ip])
  }

  function SpentOn(t: Table, limiter: nat, now: nat): Table
    requires limiter < |t.limiters|
  {
    t.(limiters := t.limiters[limiter := Spend(t.limiters[limiter], now)])
  }

  /** The package state of the middleware. */
  class Limiter {
    var visitors: map<string, Visitor>
    var limiters: seq<Bucket>

    ghost function State(): Table
      reads this
    {
      Table(visitors, limiters)
    }

    constructor ()
      ensures State() == Table(map[], [])
    {
      visitors := map[];
      limiters := [];
    }

    method GetVisitor(ip: string, now: nat) returns (limiter: nat)
      modifies this
      ensures State() == SeenAt(old(State()), ip, now)
      ensures ip in visitors && limiter == visitors[ip].limiter
    {
      if ip !in visitors {
        limiter := |limiters|;
        limiters := limiters + [FRESH];
        visitors := visitors[ip := Visitor(limiter, now)];
        return;
      }
      visitors := visitors[ip := Visitor(visitors[ip].limiter, now)];
      limiter := visitors[ip].limiter;
    }

    method Allow(limiter: nat, now: nat) returns (ok: bool)
      requires limiter < |limiters|
      modifies this
      ensures State() == SpentOn(old(State()), limiter, now)
      ensures ok <==> Allowed(old(limiters[limiter]), now)
    {
      var b := limiters[limiter];
      var available := b.level;
      if now > b.last {
        available := available + (now - b.last);
      }
      if available > BURST {
        available := BURST;
      }
      ok := available >= COST;
      if ok {
        limiters := limiters[limiter := Bucket(available - COST, now)];
      }
      assert !ok ==> limiters[limiter := b] == limiters;
    }

    /** Deletes the entries idle for more than three minutes. */
    method Sweep(now: nat)
      modifies this
      ensures State() == Swept(old(State()), now)
      ensures forall ip :: ip in visitors ==> now - visitors[ip].lastSeen <= IDLE
    {
      var todo := visitors.Keys;
      while todo != {}
        invariant todo <= old(visitors).Keys && limiters == old(limiters)
        invariant visitors == map ip | ip in old(visitors)
            && (ip in todo || !Expired(old(visitors)[ip], now)) :: old(visitors)[ip]
        decreases todo
      {
        var ip :| ip in todo;
        todo := todo - {ip};
        if now - visitors[ip].lastSeen > IDLE {
          visitors := visitors - {ip};
        }
      }
    }
  }

  // ---------------------------------------------------------------- runs

  /** A request looks its visitor up, and asks the limiter some time later; the sweep runs in between. */
  datatype Event = Arrive(request: nat, ip: string, at: nat) | Decide(request: nat, at: nat) | Sweep(at: nat)

  datatype Decision = Decision(ip: string, at: nat, admitted: bool)

  datatype Waiting = Waiting(ip: string, limiter: nat, since: nat)

  datatype Server = Server(now: nat, table: Table, waiting: map<nat, Waiting>, log: seq<Decision>)

  /** The simple limiter: a bucket for every address ever seen. */
  datatype Keeper = Keeper(buckets: map<string, Bucket>, log: seq<Decision>)

  /** The longest a request may take from its lookup to its decision: three minutes and a tick, less a refill. */
  const PATIENCE: nat := 176_000_000_001

  /** Time does not run backwards, and a request decides once, after it arrived. */
  predicate Possible(s: Server, e: Event) {
    && e.at >= s.now
    && (e.Arrive? ==> e.request !in s.waiting)
    && (e.Decide? ==> e.request in s.waiting && s.waiting[e.request].limiter < |s.table.limiters|)
  }

  predicate Prompt(s: Server, e: Event, patience: nat) {
    e.Decide? && e.request in s.waiting ==> e.at - s.waiting[e.request].since <= patience
  }

  function ServerStep(s: Server, e: Event): Server
    requires Possible(s, e)
  {
    match e
    case Arrive(request, ip, at) =>
      var table := SeenAt(s.table, ip, at);
      Server(at, table, s.waiting[request := Waiting(ip, table.visitors[ip].limiter, at)], s.log)
    case Decide(request, at) =>
      var w := s.waiting[request];
      Server(at, SpentOn(s.table, w.limiter, at), s.waiting - {request},
             s.log + [Decision(w.ip, at, Allowed(s.table.limiters[w.limiter], at))])
    case Sweep(at) =>
      Server(at, Swept(s.table, at), s.waiting, s.log)
  }

  function BucketOf(k: Keeper, ip: string): Bucket {
    if ip in k.buckets then k.buckets[ip] else FRESH
  }

  /** The keeper sees only the decisions. */
  function KeeperStep(k: Keeper, s: Server, e: Event): Keeper
    requires Possible(s, e)
  {
    if e.Decide? then
      var ip := s.waiting[e.request].ip;
      Keeper(k.buckets[ip := Spend(BucketOf(k, ip), e.at)],
             k.log + [Decision(ip, e.at, Allowed(BucketOf(k, ip), e.at))])
    else k
  }

  /** A run in which no request takes longer than `patience` from its lookup to its decision. */
  predicate Run(s: Server, events: seq<Event>, patience: nat)
    decreases |events|
  {
    events == [] ||
    (Possible(s, events[0]) && Prompt(s, events[0], patience) && Run(ServerStep(s, events[0]), events[1..], patience))
  }

  /** The server after the events, or after the first of them that is impossible. */
  function RunServer(s: Server, events: seq<Event>): Server
    decreases |events|
  {
    if events == [] || !Possible(s, events[0]) then s else RunServer(ServerStep(s, events[0]), events[1..])
  }

  function RunKeeper(k: Keeper, s: Server, events: seq<Event>): Keeper
    decreases |events|
  {
    if events == [] || !Possible(s, events[0]) then k
    else RunKeeper(KeeperStep(k, s, events[0]), ServerStep(s, events[0]), events[1..])
  }

  const EMPTY_SERVER: Server := Server(0, Table(map[], []), map[], [])
  const EMPTY_KEEPER: Keeper := Keeper(map[], [])

  // ---------------------------------------------------------------- the refinement

  predicate SaneBucket(b: Bucket, now: nat) {
    b.last <= now && 0 <= b.level <= BURST
  }

  predicate Sane(s: Server, k: Keeper) {
    && (forall i :: 0 <= i < |s.table.limiters| ==> SaneBucket(s.table.limiters[i], s.now))
    && (forall ip :: ip in k.buckets ==> SaneBucket(k.buckets[ip], s.now))
    && (forall ip :: ip in s.table.visitors ==>
          s.table.visitors[ip].limiter < |s.table.limiters| && s.table.visitors[ip].lastSeen <= s.now)
    && (forall r :: r in s.waiting ==> s.waiting[r].limiter < |s.table.limiters|)
    && (forall ip, jp :: ip in s.table.visitors && jp in s.table.visitors && ip != jp
          ==> s.table.visitors[ip].limiter != s.table.visitors[jp].limiter)
  }

  /**
    The entry in the table holds what the keeper's bucket holds, and was last used within patience of its last
    visit.
   */
  predicate EntryMatches(s: Server, k: Keeper, ip: string)
    requires ip in s.table.visitors && s.table.visitors[ip].limiter < |s.table.limiters|
  {
    && Available(s.table.limiters[s.table.visitors[ip].limiter], s.now) == Available(BucketOf(k, ip), s.now)
    && (BucketOf(k, ip).last <= s.table.visitors[ip].lastSeen + PATIENCE || BucketOf(k, ip).level == BURST)
  }

  /** A request that may still decide holds the limiter of its address's current entry. */
  predicate Held(s: Server, w: Waiting) {
    s.now - w.since <= PATIENCE ==>
      w.ip in s.table.visitors && s.table.visitors[w.ip].limiter == w.limiter
        && w.since <= s.table.visitors[w.ip].lastSeen
  }

  predicate Matches(s: Server, k: Keeper) {
    && Sane(s, k)
    && s.log == k.log
    && (forall ip :: ip in s.table.visitors ==> EntryMatches(s, k, ip))
    && (forall ip :: ip in k.buckets && ip !in s.table.visitors ==> Available(k.buckets[ip], s.now) == BURST)
    && (forall r :: r in s.waiting ==> Held(s, s.waiting[r]))
  }

  /** Waiting keeps the match. */
  lemma TimePasses(s: Server, k: Keeper, at: nat)
    requires Matches(s, k) && at >= s.now
    ensures Matches(s.(now := at), k)
  {
    var s' := s.(now := at);
    forall ip | ip in s.table.visitors ensures EntryMatches(s', k, ip) {
      AvailableLater(s.table.limiters[s.table.visitors[ip].limiter], s.now, at);
      AvailableLater(BucketOf(k, ip), s.now, at);
      assert EntryMatches(s, k, ip);
    }
    forall ip | ip in k.buckets && ip !in s.table.visitors ensures Available(k.buckets[ip], at) == BURST {
      AvailableLater(k.buckets[ip], s.now, at);
    }
    forall r | r in s.waiting ensures Held(s', s.waiting[r]) {
      assert Held(s, s.waiting[r]);
    }
  }

  lemma ArriveSane(s: Server, k: Keeper, e: Event)
    requires Sane(s, k) && e.Arrive? && Possible(s, e) && e.at == s.now
    ensures Sane(ServerStep(s, e), k)
  {
  }

  lemma ArriveMatches(s: Server, k: Keeper, e: Event)
    requires Matches(s, k) && e.Arrive? && Possible(s, e) && e.at == s.now
    ensures Matches(ServerStep(s, e), k)
  {
    var s' := ServerStep(s, e);
    ArriveSane(s, k, e);
    forall ip | ip in s'.table.visitors ensures EntryMatches(s', k, ip) {
      if ip in s.table.visitors {
        assert EntryMatches(s, k, ip);
      }
    }
    forall r | r in s'.waiting ensures Held(s', s'.waiting[r]) {
      if r != e.request {
        assert Held(s, s.waiting[r]);
      }
    }
  }

  lemma DecideMatches(s: Server, k: Keeper, e: Event)
    requires Matches(s, k) && e.Decide? && Possible(s, e) && Prompt(s, e, PATIENCE) && e.at == s.now
    ensures Matches(ServerStep(s, e), KeeperStep(k, s, e))
  {
    var s', k' := ServerStep(s, e), KeeperStep(k, s, e);
    var w := s.waiting[e.request];
    assert Held(s, w) && EntryMatches(s, k, w.ip);
    forall ip | ip in s'.table.visitors ensures EntryMatches(s', k', ip) {
      assert EntryMatches(s, k, ip);
    }
    forall r | r in s'.waiting ensures Held(s', s'.waiting[r]) {
      assert Held(s, s.waiting[r]);
    }
  }

  /** An entry idle for three minutes belongs to a bucket that has refilled, and to no request that may still decide. */
  lemma SweepMatches(s: Server, k: Keeper, e: Event)
    requires Matches(s, k) && e.Sweep? && e.at == s.now
    ensures Matches(ServerStep(s, e), k)
  {
    var s' := ServerStep(s, e);
    forall ip | ip in s'.table.visitors ensures EntryMatches(s', k, ip) {
      assert EntryMatches(s, k, ip);
    }
    forall ip | ip in k.buckets && ip !in s'.table.visitors ensures Available(k.buckets[ip], s.now) == BURST {
      if ip in s.table.visitors {
        assert EntryMatches(s, k, ip) && Expired(s.table.visitors[ip], s.now);
      }
    }
    forall r | r in s'.waiting ensures Held(s', s'.waiting[r]) {
      assert Held(s, s.waiting[r]);
    }
  }

  lemma StepMatches(s: Server, k: Keeper, e: Event)
    requires Matches(s, k) && Possible(s, e) && Prompt(s, e, PATIENCE)
    ensures Matches(ServerStep(s, e), KeeperStep(k, s, e))
  {
    TimePasses(s, k, e.at);
    var s' := s.(now := e.at);
    assert ServerStep(s', e) == ServerStep(s, e) && KeeperStep(k, s', e) == KeeperStep(k, s, e);
    match e
    case Arrive(_, _, _) => ArriveMatches(s', k, e);
    case Decide(_, _) => DecideMatches(s', k, e);
    case Sweep(_) => SweepMatches(s', k, e);
  }

  lemma {:induction false} RunMatches(s: Server, k: Keeper, events: seq<Event>)
    requires Matches(s, k) && Run(s, events, PATIENCE)
    ensures Matches(RunServer(s, events), RunKeeper(k, s, events))
    decreases |events|
  {
    if events != [] {
      StepMatches(s, k, events[0]);
      RunMatches(ServerStep(s, events[0]), KeeperStep(k, s, events[0]), events[1..]);
    }
  }

  /**
    While requests decide in time, the swept table admits and rejects exactly what the limiter that never forgets
    does.
   */
  lemma EvictionUnobservable(events: seq<Event>)
    requires Run(EMPTY_SERVER, events, PATIENCE)
    ensures RunServer(EMPTY_SERVER, events).log == RunKeeper(EMPTY_KEEPER, EMPTY_SERVER, events).log
  {
    RunMatches(EMPTY_SERVER, EMPTY_KEEPER, events);
  }

  // ---------------------------------------------------------------- a slower request

  const LATE: nat := PATIENCE + 1
  const SWEPT: nat := IDLE + 1

  /**
    Twenty requests look up their visitor at time 0 and decide one tick too late. The sweep right after three minutes
    takes the entry away one tick before its bucket has refilled, and twenty more requests come at once.
   */
  function StalledEvent(i: nat): Event {
    if i < 20 then Arrive(i, "a", 0)
    else if i < 40 then Decide(i - 20, LATE)
    else if i == 40 then Sweep(SWEPT)
    else if i < 61 then Arrive(i - 41, "a", SWEPT)
    else Decide(if i < 81 then i - 61 else 0, SWEPT)
  }

  function WaitingFor(request: nat, limiter: nat, since: nat): Waiting {
    Waiting("a", limiter, since)
  }

  function Crowd(from: nat, to: nat, limiter: nat, since: nat): map<nat, Waiting> {
    map r: nat | from <= r < to :: WaitingFor(r, limiter, since)
  }

  function Spent(n: nat, at: nat): Bucket {
    if n == 0 then FRESH else Bucket(BURST - n * COST, at)
  }

  function Admits(n: nat, at: nat): seq<Decision> {
    seq(n, _ => Decision("a", at, true))
  }

  function Seen(limiter: nat, at: nat): map<string, Visitor> {
    map["a" := Visitor(limiter, at)]
  }

  function StalledServer(i: nat): Server {
    if i == 0 then EMPTY_SERVER
    else if i <= 20 then Server(0, Table(Seen(0, 0), [FRESH]), Crowd(0, i, 0, 0), [])
    else if i <= 40 then Server(LATE, Table(Seen(0, 0), [Spent(i - 20, LATE)]), Crowd(i - 20, 20, 0, 0),
      Admits(i - 20, LATE))
    else if i == 41 then Server(SWEPT, Table(map[], [Spent(20, LATE)]), map[], Admits(20, LATE))
    else if i <= 61 then
      Server(SWEPT, Table(Seen(1, SWEPT), [Spent(20, LATE), FRESH]), Crowd(0, i - 41, 1, SWEPT), Admits(20, LATE))
    else
      Server(SWEPT, Table(Seen(1, SWEPT), [Spent(20, LATE), Spent(i - 61, SWEPT)]), Crowd(i - 61, 20, 1, SWEPT),
             Admits(20, LATE) + Admits(i - 61, SWEPT))
  }

  function StalledKeeper(i: nat): Keeper {
    if i <= 20 then EMPTY_KEEPER
    else if i <= 40 then Keeper(map["a" := Spent(i - 20, LATE)], Admits(i - 20, LATE))
    else if i <= 61 then Keeper(map["a" := Spent(20, LATE)], Admits(20, LATE))
    else if i <= 80 then
      Keeper(map["a" := Bucket(BURST - 1 - (i - 61) * COST, SWEPT)], Admits(20, LATE) + Admits(i - 61, SWEPT))
    else
      Keeper(map["a" := Bucket(COST - 1, SWEPT)], Admits(20, LATE) + Admits(19, SWEPT) + [Decision("a", SWEPT, false)])
  }

  predicate StalledStep(i: nat) {
    && Possible(StalledServer(i), StalledEvent(i)) && Prompt(StalledServer(i), StalledEvent(i), LATE)
    && ServerStep(StalledServer(i), StalledEvent(i)) == StalledServer(i + 1)
    && KeeperStep(StalledKeeper(i), StalledServer(i), StalledEvent(i)) == StalledKeeper(i + 1)
  }

  lemma StalledArrivals(i: nat)
    requires i < 20 || 41 <= i < 61
    ensures StalledStep(i)
  {
  }

  lemma StalledLateDecisions(i: nat)
    requires 20 <= i < 40
    ensures StalledStep(i)
  {
  }

  lemma StalledSecondDecisions(i: nat)
    requires 61 <= i < 81
    ensures StalledStep(i)
  {
  }

  lemma StalledSweep()
    ensures StalledStep(40)
  {
  }

  lemma EveryStalledStep(i: nat)
    requires i < 81
    ensures StalledStep(i)
  {
    if i == 40 {
      StalledSweep();
    } else if i < 20 || 41 <= i < 61 {
      StalledArrivals(i);
    } else if i < 40 {
      StalledLateDecisions(i);
    } else {
      StalledSecondDecisions(i);
    }
  }

  function StalledFrom(i: nat): seq<Event>
    requires i <= 81
    decreases 81 - i
  {
    if i == 81 then [] else [StalledEvent(i)] + StalledFrom(i + 1)
  }

  lemma StalledFirst(i: nat)
    requires i < 81 && StalledStep(i)
    ensures var events, s, next := StalledFrom(i), StalledServer(i), StalledServer(i + 1);
            && (Run(next, StalledFrom(i + 1), LATE) ==> Run(s, events, LATE))
            && RunServer(s, events) == RunServer(next, StalledFrom(i + 1))
            && RunKeeper(StalledKeeper(i), s, events) == RunKeeper(StalledKeeper(i + 1), next, StalledFrom(i + 1))
  {
  }

  lemma {:induction false} StalledRun(i: nat)
    requires i <= 81
    ensures Run(StalledServer(i), StalledFrom(i), LATE)
    ensures RunServer(StalledServer(i), StalledFrom(i)) == StalledServer(81)
    ensures RunKeeper(StalledKeeper(i), StalledServer(i), StalledFrom(i)) == StalledKeeper(81)
    decreases 81 - i
  {
    if i < 81 {
      EveryStalledStep(i);
      StalledFirst(i);
      StalledRun(i + 1);
    }
  }

  lemma StalledLogsDiffer()
    ensures StalledServer(81).log != StalledKeeper(81).log
  {
    assert StalledServer(81).log[39] != StalledKeeper(81).log[39];
  }

  lemma {:induction false} RunPatient(s: Server, events: seq<Event>, p: nat, q: nat)
    requires Run(s, events, p) && p <= q
    ensures Run(s, events, q)
    decreases |events|
  {
    if events != [] {
      RunPatient(ServerStep(s, events[0]), events[1..], p, q);
    }
  }

  /** Requests that take at most `patience` never tell the swept table from the one that never forgets. */
  ghost predicate Unobservable(patience: nat) {
    forall events :: Run(EMPTY_SERVER, events, patience) ==>
      RunServer(EMPTY_SERVER, events).log == RunKeeper(EMPTY_KEEPER, EMPTY_SERVER, events).log
  }

  /** The bound is exact: one tick more, and some run tells them apart. */
  lemma PatienceIsExact(patience: nat)
    ensures Unobservable(patience) <==> patience <= PATIENCE
  {
    if patience <= PATIENCE {
      forall events | Run(EMPTY_SERVER, events, patience)
        ensures RunServer(EMPTY_SERVER, events).log == RunKeeper(EMPTY_KEEPER, EMPTY_SERVER, events).log
      {
        RunPatient(EMPTY_SERVER, events, patience, PATIENCE);
        EvictionUnobservable(events);
      }
    } else {
      StalledRun(0);
      RunPatient(EMPTY_SERVER, StalledFrom(0), LATE, patience);
      StalledLogsDiffer();
    }
  }

  // ---------------------------------------------------------------- the rate bound

  /** Requests of one address admitted at `from` or later. */
  function Admitted(log: seq<Decision>, ip: string, from: nat): nat {
    if log == [] then 0
    else
      var d := log[|log| - 1];
      Admitted(log[..|log| - 1], ip, from) + if d.ip == ip && d.at >= from && d.admitted then 1 else 0
  }

  /** What was admitted since `from`, and what is left, were earned since then or stored before. */
  predicate Paid(s: Server, k: Keeper, ip: string, from: nat) {
    from <= s.now ==> COST * Admitted(k.log, ip, from) + Available(BucketOf(k, ip), s.now) <= BURST + (s.now - from)
  }

  ghost predicate AllPaid(s: Server, k: Keeper) {
    && (forall i :: 0 <= i < |k.log| ==> k.log[i].at <= s.now)
    && (forall ip :: ip in k.buckets ==> SaneBucket(k.buckets[ip], s.now))
    && forall ip: string, from: nat :: Paid(s, k, ip, from)
  }

  lemma {:induction false} NoneSince(log: seq<Decision>, ip: string, from: nat)
    requires forall i :: 0 <= i < |log| ==> log[i].at < from
    ensures Admitted(log, ip, from) == 0
  {
    if log != [] {
      NoneSince(log[..|log| - 1], ip, from);
    }
  }

  lemma StepPaid(s: Server, k: Keeper, e: Event)
    requires AllPaid(s, k) && Possible(s, e)
    ensures AllPaid(ServerStep(s, e), KeeperStep(k, s, e))
  {
    var s', k' := ServerStep(s, e), KeeperStep(k, s, e);
    forall ip: string, from: nat ensures Paid(s', k', ip, from) {
      assert Paid(s, k, ip, from);
      AvailableLater(BucketOf(k, ip), s.now, e.at);
      if from > s.now {
        NoneSince(k.log, ip, from);
      }
      if e.Decide? {
        assert k'.log[..|k'.log| - 1] == k.log;
      }
    }
  }

  /** The limiter that never forgets is paid in every run, however long requests take. */
  lemma {:induction false} RunPaid(s: Server, k: Keeper, events: seq<Event>, patience: nat)
    requires AllPaid(s, k) && Run(s, events, patience)
    ensures AllPaid(RunServer(s, events), RunKeeper(k, s, events))
    decreases |events|
  {
    if events != [] {
      StepPaid(s, k, events[0]);
      RunPaid(ServerStep(s, events[0]), KeeperStep(k, s, events[0]), events[1..], patience);
    }
  }

  /** At most 20 requests and 5 a second: what one address may be admitted from `from` until now. */
  predicate WithinRate(s: Server, ip: string, from: nat) {
    from <= s.now ==> COST * Admitted(s.log, ip, from) <= BURST + (s.now - from)
  }

  /** While requests decide in time, one address gets at most 20 requests plus 5 a second, evictions included. */
  lemma RateBound(events: seq<Event>, ip: string, from: nat)
    requires Run(EMPTY_SERVER, events, PATIENCE)
    ensures WithinRate(RunServer(EMPTY_SERVER, events), ip, from)
  {
    RunPaid(EMPTY_SERVER, EMPTY_KEEPER, events, PATIENCE);
    EvictionUnobservable(events);
    var s, k := RunServer(EMPTY_SERVER, events), RunKeeper(EMPTY_KEEPER, EMPTY_SERVER, events);
    assert Paid(s, k, ip, from);
    RunMatches(EMPTY_SERVER, EMPTY_KEEPER, events);
    assert Available(BucketOf(k, ip), s.now) >= 0;
  }

  lemma AdmittedSnoc(log: seq<Decision>, d: Decision, ip: string, from: nat)
    ensures Admitted(log + [d], ip, from)
         == Admitted(log, ip, from) + if d.ip == ip && d.at >= from && d.admitted then 1 else 0
  {
    assert (log + [d])[..|log|] == log;
  }

  lemma {:induction false} AdmittedAll(before: seq<Decision>, n: nat, at: nat, from: nat)
    requires from <= at
    ensures Admitted(before + Admits(n, at), "a", from) == Admitted(before, "a", from) + n
    decreases n
  {
    if n == 0 {
      assert before + Admits(0, at) == before;
    } else {
      var d := Decision("a", at, true);
      AdmittedAll(before, n - 1, at, from);
      AdmittedSnoc(before + Admits(n - 1, at), d, "a", from);
      assert before + Admits(n, at) == before + Admits(n - 1, at) + [d];
    }
  }

  /** The stalled run admits forty requests within one tick less than four seconds. */
  lemma StalledRunIsOverRate()
    ensures !WithinRate(StalledServer(81), "a", LATE)
  {
    AdmittedAll([], 20, LATE, LATE);
    AdmittedAll(Admits(20, LATE), 20, SWEPT, LATE);
    assert [] + Admits(20, LATE) == Admits(20, LATE);
  }

  ghost predicate RateHolds(patience: nat) {
    forall events, ip, from: nat :: Run(EMPTY_SERVER, events, patience)
        ==> WithinRate(RunServer(EMPTY_SERVER, events), ip, from)
  }

  /** The rate bound holds of all runs whose requests take at most `patience` exactly up to the same limit. */
  lemma RateBoundIsExact(patience: nat)
    ensures RateHolds(patience) <==> patience <= PATIENCE
  {
    if patience <= PATIENCE {
      forall events, ip, from: nat | Run(EMPTY_SERVER, events, patience)
        ensures WithinRate(RunServer(EMPTY_SERVER, events), ip, from)
      {
        RunPatient(EMPTY_SERVER, events, patience, PATIENCE);
        RateBound(events, ip, from);
      }
    } else {
      StalledRun(0);
      RunPatient(EMPTY_SERVER, StalledFrom(0), LATE, patience);
      StalledRunIsOverRate();
    }
  }
}
