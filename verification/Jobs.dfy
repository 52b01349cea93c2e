/**
  The job store of the web UI: the reducer, the effects that submit, upload and poll, as steps of concurrent
  flows, and the detector that decides when the open folder is reloaded.
 */

/** Decimal notation of the numbers that end up in job ids. */
module Decimal {
  function Digit(d: nat): char
    requires d < 10
  {
    "0123456789"[d]
  }

  function Digits(n: nat): string {
    if n < 10 then [Digit(n)] else Digits(n / 10) + [Digit(n % 10)]
  }

  lemma {:induction false} DigitsStart(n: nat)
    ensures Digits(n) != "" && '0' <= Digits(n)[0] <= '9'
  {
    if n >= 10 {
      DigitsStart(n / 10);
    }
  }

  lemma LastDigit(n: nat)
    ensures Digits(n) != "" && Digits(n)[|Digits(n)| - 1] == Digit(n % 10)
    ensures n >= 10 ==> Digits(n)[..|Digits(n)| - 1] == Digits(n / 10)
    ensures n >= 10 <==> |Digits(n)| > 1
  {
  }

  lemma DigitInjective(d: nat, e: nat)
    requires d < 10 && e < 10 && Digit(d) == Digit(e)
    ensures d == e
  {
  }

  lemma {:induction false} DigitsInjective(m: nat, n: nat)
    requires Digits(m) == Digits(n)
    ensures m == n
  {
    LastDigit(m);
    LastDigit(n);
    DigitInjective(m % 10, n % 10);
    if m >= 10 {
      DigitsInjective(m / 10, n / 10);
    }
  }
}

module JobStore {
  datatype JobResult = Pending | Success | Failure(error: string)

  datatype Kind = UploadFile | DeleteFile | DeleteFolder | MoveFile | MoveFolder | CopyFile | CopyFolder | Mkdir

  datatype Request = Request(kind: Kind, remote: string, path: string)

  datatype JobState = JobState(requests: map<string, Request>, results: map<string, JobResult>)

  const INITIAL: JobState := JobState(map[], map[])

  datatype Action =
    | SetSubmitJobFailed(request: Request, error: string, now: string)
    | AssignJobId(jobId: string, request: Request, result: JobResult)
    | SetJobResult(jobId: string, result: JobResult)
    | PollJobStatus(jobId: string)

  /** `now` is the clock reading, in milliseconds, that the reducer takes. */
  function Reduce(s: JobState, a: Action): JobState {
    match a
    case SetSubmitJobFailed(request, error, now) =>
      var jobId := "failed-job-" + now;
      JobState(s.requests[jobId := request], s.results[jobId := Failure(error)])
    case AssignJobId(jobId, request, result) =>
      JobState(s.requests[jobId := request], s.results[jobId := result])
    case SetJobResult(jobId, result) =>
      s.(results := s.results[jobId := result])
    case PollJobStatus(_) => s
  }

  datatype Job = Job(key: string, request: Request, result: JobResult)

  /** The list selectAllJobs returns, in whatever order the map iterates. */
  ghost predicate ListsAllJobs(jobs: seq<Job>, s: JobState) {
    && (forall i, j :: 0 <= i < j < |jobs| ==> jobs[i].key != jobs[j].key)
    && (forall k :: k in s.requests ==> exists i :: 0 <= i < |jobs| && jobs[i].key == k)
    && (forall i :: 0 <= i < |jobs| ==> jobs[i].key in s.requests && jobs[i].result == ResultOf(s, jobs[i].key))
  }

  function ResultOf(s: JobState, key: string): JobResult {
    if key in s.results then s.results[key] else Pending
  }
}

module JobFlows {
  import opened Prelude
  import opened Decimal
  import opened JobStore

  /** One submission and the requests made for it. */
  datatype Flow =
    | Uploading(request: Request, jobId: string)
    | Submitting(request: Request)
    | Assigned(request: Request, jobId: string)
    | Polling(request: Request, jobId: string, inFlight: bool)
    | Finished(request: Request, jobId: string)
    | Rejected(request: Request, jobId: string, stamp: nat)
    | Stuck(request: Request, jobId: string)
    | Dropped(request: Request)

  datatype System = System(store: JobState, uploads: nat, issued: set<nat>, flows: seq<Flow>)

  const START: System := System(INITIAL, 0, {}, [])

  /** The reply to a status request: a failed call, no reply at all (a 401), or a status. */
  datatype Reply = Failed(error: string) | Silent | Status(error: string, success: bool)

  datatype Step =
    | Submit(request: Request)
    | UploadReplies(i: nat, reply: Reply)
    | SubmitFails(i: nat, error: string, stamp: nat)
    | SubmitSilent(i: nat)
    | SubmitAccepted(i: nat, id: nat)
    | StartPolling(i: nat)
    | Tick(i: nat)
    | PollReplies(i: nat, reply: Reply)

  /** How a reply to a poll is mapped to a result. */
  function ResultOfReply(r: Reply): (result: JobResult)
    requires !r.Silent?
    ensures result.Success? <==> r == Status("", true)
    ensures result.Pending? <==> r == Status("", false)
    ensures result.Failure? ==> result.error == r.error
  {
    if r.Failed? then Failure(r.error)
    else if r.error != "" then Failure(r.error)
    else if r.success then Success
    else Pending
  }

  /** The server never hands out an id twice. */
  predicate Enabled(s: System, step: Step) {
    match step
    case Submit(_) => true
    case UploadReplies(i, _) => i < |s.flows| && s.flows[i].Uploading?
    case SubmitFails(i, _, _) => i < |s.flows| && s.flows[i].Submitting?
    case SubmitSilent(i) => i < |s.flows| && s.flows[i].Submitting?
    case SubmitAccepted(i, id) => i < |s.flows| && s.flows[i].Submitting? && id !in s.issued
    case StartPolling(i) => i < |s.flows| && s.flows[i].Assigned?
    case Tick(i) => i < |s.flows| && s.flows[i].Polling?
    case PollReplies(i, _) => i < |s.flows| && s.flows[i].Polling? && s.flows[i].inFlight
  }

  /** startPolling$ looks the request up and ignores uploads. */
  predicate Polls(store: JobState, jobId: string) {
    jobId in store.requests ==> !store.requests[jobId].kind.UploadFile?
  }

  function WithFlow(s: System, i: nat, f: Flow, store: JobState): System
    requires i < |s.flows|
  {
    s.(flows := s.flows[i := f], store := store)
  }

  function Next(s: System, step: Step): System
    requires Enabled(s, step)
  {
    match step
    case Submit(request) =>
      if request.kind.UploadFile? then
        var jobId := "upload-" + Digits(s.uploads);
        s.(store := Reduce(s.store, AssignJobId(jobId, request, Pending)), uploads := s.uploads + 1,
           flows := s.flows + [Uploading(request, jobId)])
      else s.(flows := s.flows + [Submitting(request)])
    case UploadReplies(i, reply) =>
      var f := s.flows[i];
      if reply.Silent? then WithFlow(s, i, Stuck(f.request, f.jobId), s.store)
      else
        var result := if reply.Failed? then Failure(reply.error) else Success;
        WithFlow(s, i, Finished(f.request, f.jobId), Reduce(s.store, AssignJobId(f.jobId, f.request, result)))
    case SubmitFails(i, error, stamp) =>
      var f := s.flows[i];
      WithFlow(s, i, Rejected(f.request, "failed-job-" + Digits(stamp), stamp),
               Reduce(s.store, SetSubmitJobFailed(f.request, error, Digits(stamp))))
    case SubmitSilent(i) =>
      WithFlow(s, i, Dropped(s.flows[i].request), s.store)
    case SubmitAccepted(i, id) =>
      var f := s.flows[i];
      WithFlow(s, i, Assigned(f.request, Digits(id)), Reduce(s.store, AssignJobId(Digits(id), f.request, Pending)))
        .(issued := s.issued + {id})
    case StartPolling(i) =>
      var f := s.flows[i];
      if Polls(s.store, f.jobId) then
        WithFlow(s, i, Polling(f.request, f.jobId, false),
                 Reduce(Reduce(s.store, PollJobStatus(f.jobId)), SetJobResult(f.jobId, Pending)))
      else WithFlow(s, i, Stuck(f.request, f.jobId), s.store)
    case Tick(i) =>
      var f := s.flows[i];
      if f.inFlight then s
      else WithFlow(s, i, f.(inFlight := true), Reduce(s.store, SetJobResult(f.jobId, Pending)))
    case PollReplies(i, reply) =>
      var f := s.flows[i];
      if reply.Silent? then WithFlow(s, i, f.(inFlight := false), s.store)
      else
        var result := ResultOfReply(reply);
        WithFlow(s, i, if result.Pending? then f.(inFlight := false) else Finished(f.request, f.jobId),
                 Reduce(s.store, SetJobResult(f.jobId, result)))
  }

  predicate Legal(s: System, steps: seq<Step>)
    decreases |steps|
  {
    steps == [] || (Enabled(s, steps[0]) && Legal(Next(s, steps[0]), steps[1..]))
  }

  function Run(s: System, steps: seq<Step>): System
    requires Legal(s, steps)
    decreases |steps|
  {
    if steps == [] then s else Run(Next(s, steps[0]), steps[1..])
  }

  // ---------------------------------------------------------------- the invariant

  predicate HasId(f: Flow) {
    !f.Submitting? && !f.Dropped?
  }

  /** A job id says where it comes from. */
  predicate Named(s: System, f: Flow) {
    HasId(f) ==>
      if f.Rejected? then f.jobId == "failed-job-" + Digits(f.stamp)
      else if f.request.kind.UploadFile? then exists k :: 0 <= k < s.uploads && f.jobId == "upload-" + Digits(k)
      else exists id :: id in s.issued && f.jobId == Digits(id)
  }

  /** What the store holds for the flow. */
  predicate Shown(s: System, f: Flow) {
    HasId(f) ==>
      && f.jobId in s.store.requests && f.jobId in s.store.results
      && (!f.Rejected? ==> s.store.requests[f.jobId] == f.request)
      && match f
         case Uploading(_, _) => s.store.results[f.jobId].Pending? && f.request.kind.UploadFile?
         case Assigned(_, _) => s.store.results[f.jobId].Pending? && !f.request.kind.UploadFile?
         case Polling(_, _, _) => s.store.results[f.jobId].Pending? && !f.request.kind.UploadFile?
         case Stuck(_, _) => s.store.results[f.jobId].Pending? && f.request.kind.UploadFile?
         case Finished(_, _) => !s.store.results[f.jobId].Pending?
         case Rejected(_, _, _) => s.store.results[f.jobId].Failure?
  }

  predicate SameJob(f: Flow, g: Flow) {
    HasId(f) && HasId(g) && f.jobId == g.jobId
  }

  predicate Owned(s: System, key: string) {
    exists i :: 0 <= i < |s.flows| && HasId(s.flows[i]) && s.flows[i].jobId == key
  }

  predicate Valid(s: System) {
    && s.store.requests.Keys == s.store.results.Keys
    && (forall i :: 0 <= i < |s.flows| ==> Named(s, s.flows[i]) && Shown(s, s.flows[i]))
    && (forall i :: 0 <= i < |s.flows| && s.flows[i].Submitting? ==> !s.flows[i].request.kind.UploadFile?)
    && (forall i, j :: 0 <= i < j < |s.flows| && SameJob(s.flows[i], s.flows[j]) ==>
        s.flows[i].Rejected? && s.flows[j].Rejected?)
    && (forall key :: key in s.store.requests ==> Owned(s, key))
  }

  /** Upload ids, server ids and failure ids never clash. */
  lemma NamesDiffer(k: nat, id: nat, stamp: nat)
    ensures "upload-" + Digits(k) != Digits(id)
    ensures "upload-" + Digits(k) != "failed-job-" + Digits(stamp)
    ensures Digits(id) != "failed-job-" + Digits(stamp)
  {
    DigitsStart(id);
    assert ("upload-" + Digits(k))[0] == 'u' && ("failed-job-" + Digits(stamp))[0] == 'f';
  }

  lemma NewUploadId(s: System, f: Flow)
    requires Named(s, f) && HasId(f)
    ensures f.jobId != "upload-" + Digits(s.uploads)
  {
    if f.Rejected? {
      NamesDiffer(s.uploads, 0, f.stamp);
    } else if f.request.kind.UploadFile? {
      var k :| 0 <= k < s.uploads && f.jobId == "upload-" + Digits(k);
      if f.jobId == "upload-" + Digits(s.uploads) {
        assert Digits(k) == f.jobId[7..] == Digits(s.uploads);
        DigitsInjective(k, s.uploads);
      }
    } else {
      var id :| id in s.issued && f.jobId == Digits(id);
      NamesDiffer(s.uploads, id, 0);
    }
  }

  lemma NewServerId(s: System, f: Flow, id: nat)
    requires Named(s, f) && HasId(f) && id !in s.issued
    ensures f.jobId != Digits(id)
  {
    if f.Rejected? {
      NamesDiffer(0, id, f.stamp);
    } else if f.request.kind.UploadFile? {
      var k :| 0 <= k < s.uploads && f.jobId == "upload-" + Digits(k);
      NamesDiffer(k, id, 0);
    } else {
      var other :| other in s.issued && f.jobId == Digits(other);
      if f.jobId == Digits(id) {
        DigitsInjective(other, id);
      }
    }
  }

  lemma NewFailureId(s: System, f: Flow, stamp: nat)
    requires Named(s, f) && HasId(f)
    ensures f.jobId == "failed-job-" + Digits(stamp) ==> f.Rejected? && f.stamp == stamp
  {
    if f.Rejected? {
      if f.jobId == "failed-job-" + Digits(stamp) {
        assert Digits(f.stamp) == f.jobId[11..] == Digits(stamp);
        DigitsInjective(f.stamp, stamp);
      }
    } else if f.request.kind.UploadFile? {
      var k :| 0 <= k < s.uploads && f.jobId == "upload-" + Digits(k);
      NamesDiffer(k, 0, stamp);
    } else {
      var id :| id in s.issued && f.jobId == Digits(id);
      NamesDiffer(0, id, stamp);
    }
  }

  lemma NamedLater(s: System, s': System, f: Flow)
    requires Named(s, f) && s.uploads <= s'.uploads && s.issued <= s'.issued
    ensures Named(s', f)
  {
  }

  /** A step that moves flow `i` to `f` and writes at most that flow's own job. */
  ghost predicate Moves(s: System, s': System, i: nat, f: Flow) {
    && i < |s.flows| && s'.flows == s.flows[i := f]
    && s.uploads == s'.uploads && s.issued <= s'.issued
    && Named(s', f) && Shown(s', f) && s'.store.requests.Keys == s'.store.results.Keys
    && f.request == s.flows[i].request && !f.Submitting?
    && (HasId(s.flows[i]) ==> HasId(f) && f.jobId == s.flows[i].jobId && !f.Rejected? && Unsettled(s.flows[i]))
    && (!HasId(s.flows[i]) && HasId(f) ==> NewOrFailed(s, f) && (f.Assigned? || f.Rejected?))
    && (forall key :: (HasId(f) ==> key != f.jobId) ==>
          Get(s'.store.requests, key) == Get(s.store.requests, key)
            && Get(s'.store.results, key) == Get(s.store.results, key))
  }

  predicate Unsettled(f: Flow) {
    f.Uploading? || f.Assigned? || f.Polling?
  }

  /** No flow has the id yet, unless both are failures. */
  predicate NewOrFailed(s: System, f: Flow)
    requires HasId(f)
  {
    forall j :: 0 <= j < |s.flows| && HasId(s.flows[j]) && s.flows[j].jobId == f.jobId ==>
      s.flows[j].Rejected? && f.Rejected?
  }

  /** Flows other than the moving one stay named and shown. */
  lemma BystanderShown(s: System, s': System, i: nat, f: Flow, j: nat)
    requires Valid(s) && Moves(s, s', i, f) && j < |s.flows| && j != i
    ensures Named(s', s.flows[j]) && Shown(s', s.flows[j])
  {
    var g := s.flows[j];
    assert Named(s, g) && Shown(s, g);
    NamedLater(s, s', g);
    if HasId(g) {
      if HasId(f) && g.jobId == f.jobId {
        if HasId(s.flows[i]) {
          assert i < j ==> SameJob(s.flows[i], g);
          assert j < i ==> SameJob(g, s.flows[i]);
        }
      } else {
        assert Get(s'.store.requests, g.jobId) == Get(s.store.requests, g.jobId);
        assert Get(s'.store.results, g.jobId) == Get(s.store.results, g.jobId);
      }
    }
  }

  lemma MoveKeepsIdsApart(s: System, s': System, i: nat, f: Flow, j: nat, k: nat)
    requires Valid(s) && Moves(s, s', i, f) && j < k < |s.flows| && SameJob(s'.flows[j], s'.flows[k])
    ensures s'.flows[j].Rejected? && s'.flows[k].Rejected?
  {
  }

  lemma MoveKeepsOwners(s: System, s': System, i: nat, f: Flow, key: string)
    requires Valid(s) && Moves(s, s', i, f) && key in s'.store.requests
    ensures Owned(s', key)
  {
    if HasId(f) && key == f.jobId {
      assert s'.flows[i].jobId == key;
    } else {
      assert Get(s'.store.requests, key) == Get(s.store.requests, key);
      assert Owned(s, key);
      var j :| 0 <= j < |s.flows| && HasId(s.flows[j]) && s.flows[j].jobId == key;
      assert s'.flows[j].jobId == key;
    }
  }

  lemma MoveKeepsValid(s: System, s': System, i: nat, f: Flow)
    requires Valid(s) && Moves(s, s', i, f)
    ensures Valid(s')
  {
    forall j | 0 <= j < |s'.flows| ensures Named(s', s'.flows[j]) && Shown(s', s'.flows[j]) {
      if j != i {
        BystanderShown(s, s', i, f, j);
      }
    }
    forall j, k | 0 <= j < k < |s'.flows| && SameJob(s'.flows[j], s'.flows[k])
      ensures s'.flows[j].Rejected? && s'.flows[k].Rejected?
    {
      MoveKeepsIdsApart(s, s', i, f, j, k);
    }
    forall key | key in s'.store.requests ensures Owned(s', key) {
      MoveKeepsOwners(s, s', i, f, key);
    }
  }

  lemma SubmitReplyMoves(s: System, step: Step)
    requires Valid(s) && Enabled(s, step) && (step.SubmitFails? || step.SubmitSilent? || step.SubmitAccepted?)
    ensures Moves(s, Next(s, step), step.i, Next(s, step).flows[step.i])
  {
    var s', i := Next(s, step), step.i;
    var f := s'.flows[i];
    if step.SubmitAccepted? {
      assert step.id in s'.issued;
    }
    forall j | 0 <= j < |s.flows| && HasId(s.flows[j]) && HasId(f) && s.flows[j].jobId == f.jobId
      ensures s.flows[j].Rejected? && f.Rejected?
    {
      assert Named(s, s.flows[j]);
      if step.SubmitAccepted? {
        NewServerId(s, s.flows[j], step.id);
      } else {
        NewFailureId(s, s.flows[j], step.stamp);
      }
    }
  }

  lemma UploadReplyMoves(s: System, i: nat, reply: Reply)
    requires Valid(s) && Enabled(s, UploadReplies(i, reply))
    ensures Moves(s, Next(s, UploadReplies(i, reply)), i, Next(s, UploadReplies(i, reply)).flows[i])
  {
    var s' := Next(s, UploadReplies(i, reply));
    assert Named(s, s.flows[i]) && Shown(s, s.flows[i]);
    NamedLater(s, s', s.flows[i]);
  }

  lemma StartPollingMoves(s: System, i: nat)
    requires Valid(s) && Enabled(s, StartPolling(i))
    ensures Moves(s, Next(s, StartPolling(i)), i, Next(s, StartPolling(i)).flows[i])
  {
    assert Named(s, s.flows[i]) && Shown(s, s.flows[i]);
    NamedLater(s, Next(s, StartPolling(i)), s.flows[i]);
  }

  lemma TickMoves(s: System, i: nat)
    requires Valid(s) && Enabled(s, Tick(i))
    ensures Moves(s, Next(s, Tick(i)), i, Next(s, Tick(i)).flows[i])
  {
    assert Named(s, s.flows[i]) && Shown(s, s.flows[i]);
    NamedLater(s, Next(s, Tick(i)), s.flows[i]);
    assert s.flows[i := s.flows[i]] == s.flows;
  }

  lemma PollReplyMoves(s: System, i: nat, reply: Reply)
    requires Valid(s) && Enabled(s, PollReplies(i, reply))
    ensures Moves(s, Next(s, PollReplies(i, reply)), i, Next(s, PollReplies(i, reply)).flows[i])
  {
    assert Named(s, s.flows[i]) && Shown(s, s.flows[i]);
    NamedLater(s, Next(s, PollReplies(i, reply)), s.flows[i]);
  }

  lemma StepMoves(s: System, step: Step)
    requires Valid(s) && Enabled(s, step) && !step.Submit?
    ensures Moves(s, Next(s, step), step.i, Next(s, step).flows[step.i])
  {
    match step
    case UploadReplies(i, reply) => UploadReplyMoves(s, i, reply);
    case SubmitFails(_, _, _) => SubmitReplyMoves(s, step);
    case SubmitSilent(_) => SubmitReplyMoves(s, step);
    case SubmitAccepted(_, _) => SubmitReplyMoves(s, step);
    case StartPolling(i) => StartPollingMoves(s, i);
    case Tick(i) => TickMoves(s, i);
    case PollReplies(i, reply) => PollReplyMoves(s, i, reply);
  }

  lemma SubmitKeepsValid(s: System, request: Request)
    requires Valid(s)
    ensures Valid(Next(s, Submit(request)))
  {
    var s' := Next(s, Submit(request));
    var n := |s.flows|;
    var f := s'.flows[n];
    forall j | 0 <= j < |s'.flows| ensures Named(s', s'.flows[j]) && Shown(s', s'.flows[j]) {
      if j < n {
        NamedLater(s, s', s.flows[j]);
        if HasId(s.flows[j]) {
          NewUploadId(s, s.flows[j]);
        }
        assert Shown(s, s.flows[j]);
      } else {
        assert 0 <= s.uploads < s'.uploads || !request.kind.UploadFile?;
      }
    }
    forall j, k | 0 <= j < k < |s'.flows| && SameJob(s'.flows[j], s'.flows[k])
      ensures s'.flows[j].Rejected? && s'.flows[k].Rejected?
    {
      if k < n {
        assert SameJob(s.flows[j], s.flows[k]);
      } else {
        NewUploadId(s, s.flows[j]);
      }
    }
    forall key | key in s'.store.requests ensures Owned(s', key) {
      if key in s.store.requests {
        var j :| 0 <= j < n && HasId(s.flows[j]) && s.flows[j].jobId == key;
        assert s'.flows[j].jobId == key;
      } else {
        assert s'.flows[n].jobId == key;
      }
    }
  }

  lemma StepKeepsValid(s: System, step: Step)
    requires Valid(s) && Enabled(s, step)
    ensures Valid(Next(s, step))
  {
    if step.Submit? {
      SubmitKeepsValid(s, step.request);
    } else {
      StepMoves(s, step);
      MoveKeepsValid(s, Next(s, step), step.i, Next(s, step).flows[step.i]);
    }
  }

  lemma {:induction false} RunKeepsValid(s: System, steps: seq<Step>)
    requires Valid(s) && Legal(s, steps)
    ensures Valid(Run(s, steps))
    decreases |steps|
  {
    if steps != [] {
      StepKeepsValid(s, steps[0]);
      RunKeepsValid(Next(s, steps[0]), steps[1..]);
    }
  }

  // ---------------------------------------------------------------- what an observer of the store sees

  /** The same key was used for an earlier failure in the same millisecond. */
  predicate Clashes(s: System, step: Step) {
    step.SubmitFails? && "failed-job-" + Digits(step.stamp) in s.store.requests
  }

  /** What stays of an entry: its key, its request and terminal result unless overwritten, its verdict always. */
  predicate Kept(s: System, s': System, key: string, overwritten: bool)
    requires key in s.store.requests && key in s.store.results
  {
    && key in s'.store.requests && key in s'.store.results
    && (!overwritten ==> s'.store.requests[key] == s.store.requests[key])
    && (!overwritten && !s.store.results[key].Pending? ==> s'.store.results[key] == s.store.results[key])
    && (s.store.results[key].Failure? ==> s'.store.results[key].Failure?)
    && (s.store.results[key].Success? ==> s'.store.results[key].Success?)
  }

  lemma MoveKeeps(s: System, s': System, i: nat, f: Flow, key: string)
    requires Valid(s) && Moves(s, s', i, f) && key in s.store.requests
    ensures Kept(s, s', key, !HasId(s.flows[i]) && HasId(f) && f.jobId == key)
    ensures !HasId(s.flows[i]) && HasId(f) && f.jobId == key ==> f.Rejected?
  {
    if HasId(f) && f.jobId == key {
      assert Shown(s, s.flows[i]);
      if !HasId(s.flows[i]) {
        assert Owned(s, key);
        var j :| 0 <= j < |s.flows| && HasId(s.flows[j]) && s.flows[j].jobId == key;
        assert Shown(s, s.flows[j]);
      }
    } else {
      assert Get(s'.store.requests, key) == Get(s.store.requests, key);
      assert Get(s'.store.results, key) == Get(s.store.results, key);
    }
  }

  lemma StepKeeps(s: System, step: Step, key: string)
    requires Valid(s) && Enabled(s, step) && key in s.store.requests
    ensures Kept(s, Next(s, step), key, Clashes(s, step))
  {
    if step.Submit? {
      assert Owned(s, key);
      var j :| 0 <= j < |s.flows| && HasId(s.flows[j]) && s.flows[j].jobId == key;
      assert Named(s, s.flows[j]);
      NewUploadId(s, s.flows[j]);
    } else {
      StepMoves(s, step);
      MoveKeeps(s, Next(s, step), step.i, Next(s, step).flows[step.i], key);
    }
  }

  /** A failure in the millisecond that names the entry, with another error or for another request. */
  predicate Rewrites(s: System, step: Step, key: string)
    requires Enabled(s, step) && key in s.store.requests && key in s.store.results
  {
    && step.SubmitFails? && key == "failed-job-" + Digits(step.stamp)
    && (s.store.results[key] != Failure(step.error) || s.store.requests[key] != s.flows[step.i].request)
  }

  /** The job reads the same, result and request. */
  predicate SameEntry(s: System, s': System, key: string)
    requires key in s.store.requests && key in s.store.results
  {
    && key in s'.store.requests && key in s'.store.results
    && s'.store.requests[key] == s.store.requests[key] && s'.store.results[key] == s.store.results[key]
  }

  /** A terminal result is final, step by step, unless a later failure shares its millisecond and differs. */
  lemma TerminalIsFinal(s: System, step: Step, key: string)
    requires Valid(s) && Enabled(s, step) && key in s.store.requests && !s.store.results[key].Pending?
    ensures SameEntry(s, Next(s, step), key) <==> !Rewrites(s, step, key)
  {
    StepKeeps(s, step, key);
    if Clashes(s, step) && key != "failed-job-" + Digits(step.stamp) {
      assert Get(Next(s, step).store.results, key) == Get(s.store.results, key);
    }
  }

  /** The job reads the same after every step of the run. */
  predicate SameThroughout(s: System, steps: seq<Step>, key: string)
    requires Legal(s, steps) && key in s.store.requests && key in s.store.results
    decreases |steps|
  {
    steps == [] || (SameEntry(s, Next(s, steps[0]), key) && SameThroughout(Next(s, steps[0]), steps[1..], key))
  }

  /** No step of the run rewrites the entry. */
  predicate NeverRewritten(s: System, steps: seq<Step>, key: string)
    requires Legal(s, steps) && key in s.store.requests && key in s.store.results
    decreases |steps|
  {
    steps == [] || (!Rewrites(s, steps[0], key) && NeverRewritten(Next(s, steps[0]), steps[1..], key))
  }

  /**
    Once a job reads as terminal it reads the same, for the same request, at every point of a run, exactly when no
    later failure of its millisecond differs from it.
   */
  lemma {:induction false} TerminalForever(s: System, steps: seq<Step>, key: string)
    requires Valid(s) && Legal(s, steps) && key in s.store.requests && !s.store.results[key].Pending?
    ensures SameThroughout(s, steps, key) <==> NeverRewritten(s, steps, key)
    decreases |steps|
  {
    if steps != [] {
      TerminalIsFinal(s, steps[0], key);
      StepKeepsValid(s, steps[0]);
      if SameEntry(s, Next(s, steps[0]), key) {
        TerminalForever(Next(s, steps[0]), steps[1..], key);
      }
    }
  }

  lemma RunFirst(s: System, step: Step, steps: seq<Step>)
    requires Enabled(s, step) && Legal(Next(s, step), steps)
    ensures Legal(s, [step] + steps) && Run(s, [step] + steps) == Run(Next(s, step), steps)
  {
    assert ([step] + steps)[1..] == steps;
  }

  /** The system when these failed submissions, and no other, have been made. */
  function Failing(store: JobState, flows: seq<Flow>): System {
    System(store, 0, {}, flows)
  }

  lemma TwoSubmitted(a: Request, b: Request)
    requires !a.kind.UploadFile? && !b.kind.UploadFile?
    ensures Next(START, Submit(a)) == Failing(INITIAL, [Submitting(a)])
    ensures Next(Failing(INITIAL, [Submitting(a)]), Submit(b)) == Failing(INITIAL, [Submitting(a), Submitting(b)])
  {
    assert [] + [Submitting(a)] == [Submitting(a)];
    assert [Submitting(a)] + [Submitting(b)] == [Submitting(a), Submitting(b)];
  }

  lemma FirstFails(a: Request, b: Request, e: string, stamp: nat)
    ensures var key, s := "failed-job-" + Digits(stamp), Failing(INITIAL, [Submitting(a), Submitting(b)]);
            Next(s, SubmitFails(0, e, stamp))
            == Failing(JobState(map[key := a], map[key := Failure(e)]), [Rejected(a, key, stamp), Submitting(b)])
  {
    var f := Rejected(a, "failed-job-" + Digits(stamp), stamp);
    assert [Submitting(a), Submitting(b)][0 := f] == [f, Submitting(b)];
  }

  lemma SecondFails(a: Request, b: Request, e: string, f: string, stamp: nat)
    ensures var key := "failed-job-" + Digits(stamp);
            var s := Failing(JobState(map[key := a], map[key := Failure(e)]), [Rejected(a, key, stamp), Submitting(b)]);
            Enabled(s, SubmitFails(1, f, stamp))
            && Next(s, SubmitFails(1, f, stamp)).store == JobState(map[key := b], map[key := Failure(f)])
  {
    var key := "failed-job-" + Digits(stamp);
    var requests, results := map[key := a], map[key := Failure(e)];
    assert requests[key := b] == map[key := b] && results[key := Failure(f)] == map[key := Failure(f)];
  }

  /** One job of a server id, as its flow and its entry have come. */
  function OneJob(request: Request, id: nat, flow: Flow): System {
    System(JobState(map[Digits(id) := request], map[Digits(id) := Pending]), 0, {id}, [flow])
  }

  lemma JobAccepted(request: Request, id: nat)
    requires !request.kind.UploadFile?
    ensures Next(START, Submit(request)) == Failing(INITIAL, [Submitting(request)])
    ensures Next(Failing(INITIAL, [Submitting(request)]), SubmitAccepted(0, id))
         == OneJob(request, id, Assigned(request, Digits(id)))
  {
    assert [] + [Submitting(request)] == [Submitting(request)];
    assert [Submitting(request)][0 := Assigned(request, Digits(id))] == [Assigned(request, Digits(id))];
    var none: set<nat> := {};
    assert none + {id} == {id};
  }

  lemma JobPolled(request: Request, id: nat)
    requires !request.kind.UploadFile?
    ensures var key := Digits(id);
            && Next(OneJob(request, id, Assigned(request, key)), StartPolling(0))
               == OneJob(request, id, Polling(request, key, false))
            && Next(OneJob(request, id, Polling(request, key, false)), Tick(0))
               == OneJob(request, id, Polling(request, key, true))
  {
    var key := Digits(id);
    var results: map<string, JobResult> := map[key := Pending];
    assert results[key := Pending] == results;
    assert [Assigned(request, key)][0 := Polling(request, key, false)] == [Polling(request, key, false)];
    assert [Polling(request, key, false)][0 := Polling(request, key, true)] == [Polling(request, key, true)];
  }

  /** A job can go all the way: submitted, accepted, polled, and answered with any reply. */
  lemma JobRunsThrough(request: Request, id: nat, reply: Reply)
    requires !request.kind.UploadFile?
    ensures var steps := [Submit(request)]
        + ([SubmitAccepted(0, id)] + ([StartPolling(0)] + ([Tick(0)] + ([PollReplies(0, reply)] + []))));
            && Legal(START, steps)
            && Get(Run(START, steps).store.results, Digits(id)) == Some(Verdict(PollReplies(0, reply)))
  {
    var key := Digits(id);
    var last := PollReplies(0, reply);
    JobAccepted(request, id);
    JobPolled(request, id);
    RunFirst(OneJob(request, id, Polling(request, key, true)), last, []);
    RunFirst(OneJob(request, id, Polling(request, key, false)), Tick(0), [last] + []);
    RunFirst(OneJob(request, id, Assigned(request, key)), StartPolling(0), [Tick(0)] + ([last] + []));
    RunFirst(Failing(INITIAL, [Submitting(request)]), SubmitAccepted(0, id), [StartPolling(0)]
      + ([Tick(0)] + ([last] + [])));
    RunFirst(START, Submit(request), [SubmitAccepted(0, id)] + ([StartPolling(0)] + ([Tick(0)] + ([last] + []))));
  }

  /** And so can an upload. */
  lemma UploadRunsThrough(request: Request, reply: Reply)
    requires request.kind.UploadFile?
    ensures var steps := [Submit(request)] + ([UploadReplies(0, reply)] + []);
            && Legal(START, steps)
            && Get(Run(START, steps).store.results, "upload-" + Digits(0)) == Some(Verdict(UploadReplies(0, reply)))
  {
    RunFirst(Next(START, Submit(request)), UploadReplies(0, reply), []);
    RunFirst(START, Submit(request), [UploadReplies(0, reply)] + []);
  }

  /** Two submissions that fail in one millisecond: the second takes the entry of the first. */
  lemma SharedMillisecond(a: Request, b: Request, e: string, f: string, stamp: nat)
    requires !a.kind.UploadFile? && !b.kind.UploadFile?
    ensures var first := [Submit(a)] + ([Submit(b)] + ([SubmitFails(0, e, stamp)] + []));
            var key := "failed-job-" + Digits(stamp);
            && Legal(START, first) && Enabled(Run(START, first), SubmitFails(1, f, stamp))
            && var one, two := Run(START, first).store, Next(Run(START, first), SubmitFails(1, f, stamp)).store;
            && one == JobState(map[key := a], map[key := Failure(e)])
            && two == JobState(map[key := b], map[key := Failure(f)])
  {
    TwoSubmitted(a, b);
    FirstFails(a, b, e, stamp);
    SecondFails(a, b, e, f, stamp);
    RunFirst(Failing(INITIAL, [Submitting(a), Submitting(b)]), SubmitFails(0, e, stamp), []);
    RunFirst(Failing(INITIAL, [Submitting(a)]), Submit(b), [SubmitFails(0, e, stamp)] + []);
    RunFirst(START, Submit(a), [Submit(b)] + ([SubmitFails(0, e, stamp)] + []));
  }

  // ---------------------------------------------------------------- results and replies

  /** After the reply to an upload its job has failed with the error of the call, or succeeded; without one it waits. */
  lemma UploadReplied(s: System, i: nat, reply: Reply)
    requires Valid(s) && Enabled(s, UploadReplies(i, reply))
    ensures var store, key := Next(s, UploadReplies(i, reply)).store, s.flows[i].jobId;
            && key in store.results && key in store.requests && store.requests[key] == s.flows[i].request
            && (reply.Silent? ==> store.results[key] == Pending)
            && (reply.Failed? ==> store.results[key] == Failure(reply.error))
            && (reply.Status? ==> store.results[key] == Success)
  {
    assert Shown(s, s.flows[i]);
  }

  /** After the reply to a poll the job has failed with the error of the call or of the status, succeeded, or waits. */
  lemma PollReplied(s: System, i: nat, reply: Reply)
    requires Valid(s) && Enabled(s, PollReplies(i, reply))
    ensures var store, key := Next(s, PollReplies(i, reply)).store, s.flows[i].jobId;
            && key in store.results && key in store.requests && store.requests[key] == s.flows[i].request
            && (reply.Silent? || reply == Status("", false) ==> store.results[key] == Pending)
            && (reply.Failed? || (reply.Status? && reply.error != "") ==> store.results[key] == Failure(reply.error))
            && (reply == Status("", true) ==> store.results[key] == Success)
  {
    assert Shown(s, s.flows[i]);
  }

  /** An upload waits at once under the next upload id; another submission shows nothing before its reply. */
  lemma Submitted(s: System, request: Request)
    ensures request.kind.UploadFile? ==>
              var s', key := Next(s, Submit(request)), "upload-" + Digits(s.uploads);
              && Get(s'.store.requests, key) == Some(request) && Get(s'.store.results, key) == Some(Pending)
              && s'.uploads == s.uploads + 1 && s'.flows == s.flows + [Uploading(request, key)]
    ensures !request.kind.UploadFile? ==> Next(s, Submit(request)) == s.(flows := s.flows + [Submitting(request)])
  {
  }

  /**
    A refused submission has failed with its error under its millisecond; an accepted one waits under its server
    id.
   */
  lemma SubmitReplied(s: System, i: nat, error: string, stamp: nat, id: nat)
    requires Valid(s) && i < |s.flows| && s.flows[i].Submitting?
    ensures var store, key := Next(s, SubmitFails(i, error, stamp)).store, "failed-job-" + Digits(stamp);
            && Get(store.requests, key) == Some(s.flows[i].request) && Get(store.results, key) == Some(Failure(error))
    ensures id !in s.issued ==>
              var store, key := Next(s, SubmitAccepted(i, id)).store, Digits(id);
              Get(store.requests, key) == Some(s.flows[i].request) && Get(store.results, key) == Some(Pending)
    ensures Next(s, SubmitSilent(i)).store == s.store
  {
  }

  /** What a reply decides of its job, pending if nothing. */
  function Verdict(step: Step): JobResult {
    match step
    case UploadReplies(_, Failed(error)) => Failure(error)
    case UploadReplies(_, Status(_, _)) => Success
    case PollReplies(_, Failed(error)) => Failure(error)
    case PollReplies(_, Status(error, success)) =>
      if error != "" then Failure(error) else if success then Success else Pending
    case _ => Pending
  }

  predicate Concerns(step: Step, i: nat) {
    !step.Submit? && step.i == i
  }

  /** The first decisive reply of a run to one submission. */
  function FirstVerdict(steps: seq<Step>, i: nat): JobResult {
    if steps == [] then Pending
    else if Concerns(steps[0], i) && !Verdict(steps[0]).Pending? then Verdict(steps[0])
    else FirstVerdict(steps[1..], i)
  }

  predicate Decided(f: Flow) {
    f.Finished? || f.Rejected?
  }

  lemma DecidedStep(s: System, step: Step, i: nat)
    requires Enabled(s, step) && i < |s.flows| && Decided(s.flows[i])
    ensures i < |Next(s, step).flows| && Next(s, step).flows[i] == s.flows[i]
  {
  }

  lemma {:induction false} DecidedStays(s: System, steps: seq<Step>, i: nat)
    requires Legal(s, steps) && i < |s.flows| && Decided(s.flows[i])
    ensures i < |Run(s, steps).flows| && Run(s, steps).flows[i] == s.flows[i]
    decreases |steps|
  {
    if steps != [] {
      DecidedStep(s, steps[0], i);
      DecidedStays(Next(s, steps[0]), steps[1..], i);
    }
  }

  lemma {:induction false} FinishedStays(s: System, steps: seq<Step>, i: nat, key: string)
    requires Valid(s) && Legal(s, steps) && i < |s.flows| && s.flows[i].Finished? && s.flows[i].jobId == key
    requires key in s.store.requests && key in s.store.results
    ensures SameEntry(s, Run(s, steps), key)
    decreases |steps|
  {
    if steps != [] {
      DecidedStep(s, steps[0], i);
      FinishedKept(s, steps[0], i);
      StepKeepsValid(s, steps[0]);
      FinishedStays(Next(s, steps[0]), steps[1..], i, key);
    }
  }

  lemma FinishedKept(s: System, step: Step, i: nat)
    requires Valid(s) && Enabled(s, step) && i < |s.flows| && s.flows[i].Finished?
    ensures s.flows[i].jobId in s.store.requests && s.flows[i].jobId in s.store.results
    ensures SameEntry(s, Next(s, step), s.flows[i].jobId)
  {
    assert Shown(s, s.flows[i]) && Named(s, s.flows[i]);
    if step.SubmitFails? {
      NewFailureId(s, s.flows[i], step.stamp);
    }
    TerminalIsFinal(s, step, s.flows[i].jobId);
  }

  lemma VerdictStored(s: System, step: Step, i: nat)
    requires Valid(s) && Enabled(s, step) && Concerns(step, i) && !Verdict(step).Pending?
    ensures var s' := Next(s, step);
            && i < |s'.flows| && s'.flows[i].Finished?
            && s'.flows[i].jobId in s'.store.requests && s'.flows[i].jobId in s'.store.results
            && s'.store.results[s'.flows[i].jobId] == Verdict(step)
  {
    if step.UploadReplies? {
      UploadReplied(s, i, step.reply);
    } else {
      PollReplied(s, i, step.reply);
    }
  }

  /** A step without a verdict on a submission leaves it undecided, or it is its rejection. */
  lemma UndecidedStep(s: System, step: Step, i: nat)
    requires Enabled(s, step) && (i < |s.flows| ==> !Decided(s.flows[i]))
        && !(Concerns(step, i) && !Verdict(step).Pending?)
    ensures i < |Next(s, step).flows| && Decided(Next(s, step).flows[i]) ==> Next(s, step).flows[i].Rejected?
  {
  }

  /** In every run, what the store shows of a submission that was not rejected is its first decisive reply. */
  lemma {:induction false} ResultIsFirstVerdict(s: System, steps: seq<Step>, i: nat)
    requires Valid(s) && Legal(s, steps) && (i < |s.flows| ==> !Decided(s.flows[i]))
    requires i < |Run(s, steps).flows| && HasId(Run(s, steps).flows[i]) && !Run(s, steps).flows[i].Rejected?
    ensures var s' := Run(s, steps);
            s'.flows[i].jobId in s'.store.results && s'.store.results[s'.flows[i].jobId] == FirstVerdict(steps, i)
    decreases |steps|
  {
    if steps == [] {
      assert Shown(s, s.flows[i]);
    } else {
      var s' := Next(s, steps[0]);
      StepKeepsValid(s, steps[0]);
      if Concerns(steps[0], i) && !Verdict(steps[0]).Pending? {
        VerdictStored(s, steps[0], i);
        DecidedStays(s', steps[1..], i);
        FinishedStays(s', steps[1..], i, s'.flows[i].jobId);
      } else {
        UndecidedStep(s, steps[0], i);
        if i < |s'.flows| && Decided(s'.flows[i]) {
          DecidedStays(s', steps[1..], i);
          assert false;
        }
        ResultIsFirstVerdict(s', steps[1..], i);
      }
    }
  }

  /** An upload is never polled, and an accepted job always is. */
  lemma OnlyJobsArePolled(s: System, i: nat)
    requires Valid(s) && i < |s.flows|
    ensures s.flows[i].Uploading? ==> !Polls(s.store, s.flows[i].jobId)
    ensures s.flows[i].Assigned? ==> Polls(s.store, s.flows[i].jobId)
  {
  }

  // ---------------------------------------------------------------- counting entries

  function IdsOf(flows: seq<Flow>): set<string> {
    set i | 0 <= i < |flows| && HasId(flows[i]) :: flows[i].jobId
  }

  function Answered(flows: seq<Flow>): nat {
    if flows == [] then 0 else Answered(flows[..|flows| - 1]) + if HasId(flows[|flows| - 1]) then 1 else 0
  }

  predicate SameStamp(f: Flow, g: Flow) {
    f.Rejected? && g.Rejected? && f.stamp == g.stamp
  }

  predicate DistinctStamps(flows: seq<Flow>) {
    forall i, j :: 0 <= i < j < |flows| ==> !SameStamp(flows[i], flows[j])
  }

  predicate DistinctIds(flows: seq<Flow>) {
    forall i, j :: 0 <= i < j < |flows| ==> !SameJob(flows[i], flows[j])
  }

  lemma {:induction false} CountIds(flows: seq<Flow>)
    ensures |IdsOf(flows)| <= Answered(flows)
    ensures |IdsOf(flows)| == Answered(flows) <==> DistinctIds(flows)
    decreases |flows|
  {
    if flows != [] {
      var init, last := flows[..|flows| - 1], flows[|flows| - 1];
      CountIds(init);
      assert forall i :: 0 <= i < |init| ==> init[i] == flows[i];
      if HasId(last) {
        assert IdsOf(flows) == IdsOf(init) + {last.jobId};
        if last.jobId in IdsOf(init) {
          var i :| 0 <= i < |init| && HasId(init[i]) && init[i].jobId == last.jobId;
          assert SameJob(flows[i], flows[|flows| - 1]);
        } else {
          forall i | 0 <= i < |init| ensures !SameJob(flows[i], last) {
            assert init[i] == flows[i];
          }
          assert DistinctIds(init) ==> DistinctIds(flows);
        }
      } else {
        assert IdsOf(flows) == IdsOf(init);
        assert DistinctIds(init) ==> DistinctIds(flows);
      }
      assert DistinctIds(flows) ==> DistinctIds(init);
    }
  }

  lemma EntriesAreIds(s: System)
    requires Valid(s)
    ensures s.store.requests.Keys == IdsOf(s.flows)
  {
  }

  lemma SharedIdIsSharedStamp(s: System, f: Flow, g: Flow)
    requires Named(s, f) && Named(s, g)
    requires SameJob(f, g) ==> f.Rejected? && g.Rejected?
    ensures SameJob(f, g) <==> SameStamp(f, g)
  {
    if SameJob(f, g) {
      NewFailureId(s, f, g.stamp);
    }
  }

  /**
    The store has an entry for each submission that was given an id or rejected; one each exactly when no two
    rejections carry the same millisecond.
   */
  lemma OneEntryEach(s: System)
    requires Valid(s)
    ensures s.store.requests.Keys == s.store.results.Keys == IdsOf(s.flows)
    ensures |s.store.requests.Keys| == Answered(s.flows) <==> DistinctStamps(s.flows)
  {
    EntriesAreIds(s);
    CountIds(s.flows);
    forall i, j | 0 <= i < j < |s.flows|
        ensures SameJob(s.flows[i], s.flows[j]) <==> SameStamp(s.flows[i], s.flows[j]) {
      SharedIdIsSharedStamp(s, s.flows[i], s.flows[j]);
    }
  }
}

module ReloadDetector {
  import opened Prelude
  import opened JobStore
  import opened JobFlows

  datatype Detector = Detector(pendingFiles: set<string>, hasNewSuccess: bool)

  const START: Detector := Detector({}, false)

  function PendingKeys(s: JobState): set<string> {
    set k | k in s.requests && ResultOf(s, k).Pending?
  }

  function SucceededKeys(s: JobState): set<string> {
    set k | k in s.requests && ResultOf(s, k).Success?
  }

  /** What the detector remembers and says after seeing a store. */
  function Scan(d: Detector, s: JobState): Detector {
    Detector(d.pendingFiles + PendingKeys(s) - SucceededKeys(s), d.pendingFiles * SucceededKeys(s) != {})
  }

  /** The scan callback: one pass over the job list. */
  method ScanJobs(state: Detector, jobs: seq<Job>, ghost s: JobState) returns (next: Detector)
    requires ListsAllJobs(jobs, s)
    ensures next == Scan(state, s)
  {
    var hasNewSuccess := false;
    var pendingFiles := state.pendingFiles;
    for i := 0 to |jobs|
      invariant pendingFiles == state.pendingFiles + PendingIn(jobs[..i]) - SucceededIn(jobs[..i])
      invariant hasNewSuccess <==> state.pendingFiles * SucceededIn(jobs[..i]) != {}
    {
      OneMoreJob(jobs, i);
      var job := jobs[i];
      if job.result.Pending? {
        pendingFiles := pendingFiles + {job.key};
      } else if job.result.Success? && job.key in pendingFiles {
        pendingFiles := pendingFiles - {job.key};
        hasNewSuccess := true;
      }
    }
    assert jobs[..|jobs|] == jobs;
    ListedKeys(jobs, s);
    next := Detector(pendingFiles, hasNewSuccess);
  }

  function PendingIn(jobs: seq<Job>): set<string> {
    set i | 0 <= i < |jobs| && jobs[i].result.Pending? :: jobs[i].key
  }

  function SucceededIn(jobs: seq<Job>): set<string> {
    set i | 0 <= i < |jobs| && jobs[i].result.Success? :: jobs[i].key
  }

  lemma OneMoreJob(jobs: seq<Job>, i: nat)
    requires i < |jobs| && forall j, k :: 0 <= j < k < |jobs| ==> jobs[j].key != jobs[k].key
    ensures PendingIn(jobs[..i + 1]) == PendingIn(jobs[..i]) + if jobs[i].result.Pending? then {jobs[i].key} else {}
    ensures SucceededIn(jobs[..i + 1]) == SucceededIn(jobs[..i]) + if jobs[i].result.Success? then {jobs[i].key} else {}
    ensures jobs[i].key !in PendingIn(jobs[..i]) && jobs[i].key !in SucceededIn(jobs[..i])
  {
  }

  lemma ListedKeys(jobs: seq<Job>, s: JobState)
    requires ListsAllJobs(jobs, s)
    ensures PendingIn(jobs) == PendingKeys(s) && SucceededIn(jobs) == SucceededKeys(s)
  {
  }

  /** The detector over a visit: it sees the store when the folder opens and after every step. */
  function Watch(d: Detector, s: System, steps: seq<Step>): Detector
    requires Legal(s, steps)
    decreases |steps|
  {
    if steps == [] then d else Watch(Scan(d, Next(s, steps[0]).store), Next(s, steps[0]), steps[1..])
  }

  /** How often it fires on the way. */
  function Fires(d: Detector, s: System, steps: seq<Step>): nat
    requires Legal(s, steps)
    decreases |steps|
  {
    if steps == [] then 0
    else
      var d' := Scan(d, Next(s, steps[0]).store);
      (if d'.hasNewSuccess then 1 else 0) + Fires(d', Next(s, steps[0]), steps[1..])
  }

  /** It remembers every pending job, perhaps failed ones, never a successful one. */
  predicate Tracks(d: Detector, s: System) {
    && PendingKeys(s.store) <= d.pendingFiles
    && forall k :: k in d.pendingFiles ==> k in s.store.requests && !ResultOf(s.store, k).Success?
  }

  lemma FirstLook(s: System)
    ensures Tracks(Scan(START, s.store), s) && !Scan(START, s.store).hasNewSuccess
  {
  }

  /** The jobs a step makes successful. */
  function Won(s: System, step: Step): set<string>
    requires Enabled(s, step)
  {
    SucceededKeys(Next(s, step).store) - SucceededKeys(s.store)
  }

  lemma SuccessStays(s: System, step: Step)
    requires Valid(s) && Enabled(s, step)
    ensures SucceededKeys(s.store) <= SucceededKeys(Next(s, step).store)
  {
    forall k | k in SucceededKeys(s.store) ensures k in SucceededKeys(Next(s, step).store) {
      StepKeeps(s, step, k);
    }
  }

  lemma OnlyTheMoverWins(s: System, s': System, i: nat, f: Flow, k: string)
    requires Valid(s) && Moves(s, s', i, f)
    ensures k in SucceededKeys(s'.store) && k !in SucceededKeys(s.store) ==>
              HasId(s.flows[i]) && HasId(f) && k == f.jobId && k in PendingKeys(s.store)
  {
    assert Shown(s', f) && Shown(s, s.flows[i]);
    if HasId(f) ==> k != f.jobId {
      assert Get(s'.store.results, k) == Get(s.store.results, k);
      assert Get(s'.store.requests, k) == Get(s.store.requests, k);
    }
  }

  /** A job that turns successful was pending just before, and a step makes at most one of them. */
  lemma NewSuccess(s: System, step: Step)
    requires Valid(s) && Enabled(s, step)
    ensures Won(s, step) <= PendingKeys(s.store)
    ensures Won(s, step) == {} || exists key :: Won(s, step) == {key}
  {
    var won := Won(s, step);
    if step.Submit? {
      assert won == {};
    } else {
      var f := Next(s, step).flows[step.i];
      StepMoves(s, step);
      forall k | k in won ensures HasId(f) && k == f.jobId && k in PendingKeys(s.store) {
        OnlyTheMoverWins(s, Next(s, step), step.i, f, k);
      }
      if won != {} {
        assert won == {f.jobId};
      }
    }
  }

  lemma ScanTracks(d: Detector, s: System, step: Step)
    requires Valid(s) && Tracks(d, s) && Enabled(s, step)
    ensures var d' := Scan(d, Next(s, step).store);
            && Tracks(d', Next(s, step))
            && (d'.hasNewSuccess <==> Won(s, step) != {})
  {
    var s' := Next(s, step);
    NewSuccess(s, step);
    forall k | k in d.pendingFiles
      ensures k in s'.store.requests && (k in SucceededKeys(s'.store) <==> k in Won(s, step))
    {
      StepKeeps(s, step, k);
    }
    assert d.pendingFiles * SucceededKeys(s'.store) == Won(s, step);
  }

  lemma ChainSizes<T>(a: set<T>, b: set<T>, c: set<T>)
    requires a <= b <= c
    ensures |c - a| == |c - b| + |b - a|
  {
  }

  /**
    During a visit the detector fires exactly when a job that was pending turns successful, once for each job
    that succeeds in that time, and never for a failure or for a job that had finished before.
   */
  lemma {:induction false} ReloadExactness(d: Detector, s: System, steps: seq<Step>)
    requires Valid(s) && Legal(s, steps) && Tracks(d, s)
    ensures SucceededKeys(s.store) <= SucceededKeys(Run(s, steps).store)
    ensures Fires(d, s, steps) == |SucceededKeys(Run(s, steps).store) - SucceededKeys(s.store)|
    decreases |steps|
  {
    if steps == [] {
      assert SucceededKeys(s.store) - SucceededKeys(s.store) == {};
    } else {
      var s' := Next(s, steps[0]);
      SuccessStays(s, steps[0]);
      NewSuccess(s, steps[0]);
      ScanTracks(d, s, steps[0]);
      StepKeepsValid(s, steps[0]);
      ReloadExactness(Scan(d, s'.store), s', steps[1..]);
      ChainSizes(SucceededKeys(s.store), SucceededKeys(s'.store), SucceededKeys(Run(s', steps[1..]).store));
      assert |Won(s, steps[0])| == if Won(s, steps[0]) == {} then 0 else 1;
    }
  }

  /** From opening a folder at any moment of any run of the application. */
  lemma EveryVisit(before: seq<Step>, visit: seq<Step>)
    requires Legal(JobFlows.START, before) && Legal(Run(JobFlows.START, before), visit)
    ensures var s := Run(JobFlows.START, before);
            var d := Scan(START, s.store);
            && !d.hasNewSuccess
            && Fires(d, s, visit) == |SucceededKeys(Run(s, visit).store) - SucceededKeys(s.store)|
  {
    assert Valid(JobFlows.START);
    RunKeepsValid(JobFlows.START, before);
    var s := Run(JobFlows.START, before);
    FirstLook(s);
    ReloadExactness(Scan(START, s.store), s, visit);
  }
}
