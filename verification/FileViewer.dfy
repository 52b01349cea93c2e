/**
  Stores that load on request and keep the answer to the newest request only, and the file viewer built on one,
  which makes and revokes blob URLs.
 */

/** The two component stores have one shape: an effect under switchMap whose answers go into the state. */
module LatestRequest {

  datatype Result<+T> = Pending | Success(data: T) | Failure

  /** A load, or the answer to the load with this number; requests may be answered late, in any order, or never. */
  datatype Event<R, T> = Load(request: R) | Answer(load: nat, result: Result<T>)

  /** All loads so far, the newest last, and what the store shows. */
  datatype Store<R, T> = Store(loads: seq<R>, content: Result<T>)

  function Initial<R, T>(): Store<R, T> {
    Store([], Pending)
  }

  /** switchMap unsubscribes from a load when the next one comes, so an answer to an older load goes nowhere. */
  function Next<R, T>(s: Store<R, T>, e: Event<R, T>): Store<R, T> {
    match e
    case Load(request) => Store(s.loads + [request], Pending)
    case Answer(load, result) => if load + 1 == |s.loads| then s.(content := result) else s
  }

  function Run<R, T>(trace: seq<Event<R, T>>): Store<R, T> {
    if trace == [] then Initial() else Next(Run(trace[..|trace| - 1]), trace[|trace| - 1])
  }

  function LoadsOf<R, T>(trace: seq<Event<R, T>>): seq<R> {
    if trace == [] then []
    else LoadsOf(trace[..|trace| - 1]) + if trace[|trace| - 1].Load? then [trace[|trace| - 1].request] else []
  }

  /** The answer to a load, pending if there is none: it says nothing of the loads around it. */
  function AnswerTo<R, T>(trace: seq<Event<R, T>>, load: nat): Result<T> {
    if trace == [] then Pending
    else if trace[|trace| - 1].Answer? && trace[|trace| - 1].load == load then trace[|trace| - 1].result
    else AnswerTo(trace[..|trace| - 1], load)
  }

  /** A load is answered after it was made, once if at all, and with a final result. */
  predicate Legal<R, T>(trace: seq<Event<R, T>>) {
    trace == [] ||
    var front, last := trace[..|trace| - 1], trace[|trace| - 1];
    Legal(front) &&
    (last.Answer? ==> last.load < |LoadsOf(front)| && AnswerTo(front, last.load).Pending? && !last.result.Pending?)
  }

  lemma {:induction false} NoAnswerYet<R, T>(trace: seq<Event<R, T>>, load: nat)
    requires Legal(trace) && load >= |LoadsOf(trace)|
    ensures AnswerTo(trace, load) == Pending
    decreases |trace|
  {
    if trace != [] {
      NoAnswerYet(trace[..|trace| - 1], load);
    }
  }

  /** Only the newest load counts: the store shows its answer if that has come and pending if not. */
  lemma {:induction false} LatestWins<R, T>(trace: seq<Event<R, T>>)
    requires Legal(trace)
    ensures Run(trace).loads == LoadsOf(trace)
    ensures Run(trace).content == if LoadsOf(trace) == [] then Pending else AnswerTo(trace, |LoadsOf(trace)| - 1)
    decreases |trace|
  {
    if trace != [] {
      var front := trace[..|trace| - 1];
      LatestWins(front);
      NoAnswerYet(front, |LoadsOf(front)|);
    }
  }

  /** The order in which answers arrive cannot be told from the result: loads and their answers alone decide it. */
  lemma OrderUnnoticed<R, T>(a: seq<Event<R, T>>, b: seq<Event<R, T>>)
    requires Legal(a) && Legal(b) && LoadsOf(a) == LoadsOf(b)
    requires forall load: nat :: load < |LoadsOf(a)| ==> AnswerTo(a, load) == AnswerTo(b, load)
    ensures Run(a) == Run(b)
  {
    LatestWins(a);
    LatestWins(b);
  }
}

/** The viewer: what it shows, and the blob URLs it leaves behind. */
module FileViewer {
  import opened Prelude
  import LR = LatestRequest

  datatype Request = Request(remote: string, dirPath: string, fileName: string, mimeType: string)

  /** Blobs and URLs are named by numbers; the platform never hands out the same URL twice. */
  type Blob = nat
  type Url = nat

  /** The value of the computed signal: a result without details, or the details of a file. */
  datatype Details = Passed(result: LR.Result<Blob>) | Shown(blob: Blob, url: Url, mimeType: string, fileName: string)

  /** `dirty` says that the content has been set since `details` was last computed. */
  datatype View = View(
    store: LR.Store<Request, Blob>,
    request: Option<Request>,
    currentUrl: Option<Url>,
    details: Details,
    dirty: bool,
    live: set<Url>,
    nextUrl: Url,
    destroyed: bool
  )

  const INITIAL: View := View(LR.Store([], LR.Pending), None, None, Passed(LR.Pending), true, {}, 0, false)

  datatype Event =
    | Select(request: Option<Request>)
    | Answer(load: nat, result: LR.Result<Blob>)
    | Render
    | Close
    | Destroy

  /** The details are computed when they are read after the content changed; otherwise the old value is kept. */
  function Rendered(v: View): View {
    if !v.dirty then v
    else if !v.store.content.Success? || v.request.None? then v.(details := Passed(v.store.content), dirty := false)
    else
      v.(details := Shown(v.store.content.data, v.nextUrl, v.request.value.mimeType, v.request.value.fileName),
         dirty := false,
         live := v.live - OfOption(v.currentUrl) + {v.nextUrl},
         currentUrl := Some(v.nextUrl),
         nextUrl := v.nextUrl + 1)
  }

  function OfOption(url: Option<Url>): set<Url> {
    if url.Some? then {url.value} else {}
  }

  function Selected(v: View, request: Option<Request>): View {
    if request.None? then v.(request := None)
    else v.(request := request, store := LR.Next(v.store, LR.Load(request.value)), dirty := true)
  }

  function Answered(v: View, load: nat, result: LR.Result<Blob>): View {
    v.(store := LR.Next(v.store, LR.Answer(load, result)), dirty := v.dirty || load + 1 == |v.store.loads|)
  }

  function Closed(v: View): View {
    v.(live := v.live - OfOption(v.currentUrl), currentUrl := None)
  }

  function Destroyed(v: View): View {
    v.(live := v.live - OfOption(v.currentUrl), destroyed := true)
  }

  /** After destruction the subscriptions are gone and nothing is rendered. */
  function Next(v: View, e: Event): View {
    if v.destroyed then v
    else match e
         case Select(request) => Selected(v, request)
         case Answer(load, result) => Answered(v, load, result)
         case Render => Rendered(v)
         case Close => Closed(v)
         case Destroy => Destroyed(v)
  }

  function Run(v: View, events: seq<Event>): View
    decreases |events|
  {
    if events == [] then v else Run(Next(v, events[0]), events[1..])
  }

  /** The platform's registry of blob URLs. */
  class BlobUrls {
    var live: set<Url>
    var nextUrl: Url

    constructor ()
      ensures live == {} && nextUrl == 0
    {
      live, nextUrl := {}, 0;
    }

    method CreateObjectUrl() returns (url: Url)
      modifies this
      ensures url == old(nextUrl) && nextUrl == url + 1 && live == old(live) + {url}
    {
      url := nextUrl;
      live, nextUrl := live + {url}, nextUrl + 1;
    }

    method RevokeObjectUrl(url: Url)
      modifies this
      ensures live == old(live) - {url} && nextUrl == old(nextUrl)
    {
      live := live - {url};
    }
  }

  /** The component and its store. */
  class FileViewerComponent {
    const urls: BlobUrls
    var loads: seq<Request>
    var fileContentResult: LR.Result<Blob>
    var currentRequest: Option<Request>
    var currentBlobUrl: Option<Url>
    var details: Details
    var dirty: bool
    var destroyed: bool

    constructor ()
      ensures fresh(urls) && Abstract() == INITIAL
    {
      urls := new BlobUrls();
      loads, fileContentResult := [], LR.Pending;
      currentRequest, currentBlobUrl := None, None;
      details, dirty, destroyed := Passed(LR.Pending), true, false;
    }

    ghost function Abstract(): View
      reads this, urls
    {
      View(LR.Store(loads, fileContentResult), currentRequest, currentBlobUrl, details, dirty, urls.live,
        urls.nextUrl, destroyed)
    }

    /** The effect: pending at once, and from now on only this load's answer is listened to. */
    method LoadFile(request: Request)
      modifies this`loads, this`fileContentResult, this`dirty
      ensures LR.Store(loads, fileContentResult)
          == LR.Next(LR.Store(old(loads), old(fileContentResult)), LR.Load(request))
      ensures dirty
    {
      loads := loads + [request];
      fileContentResult := LR.Pending;
      dirty := true;
    }

    method SetFileContentResult(load: nat, result: LR.Result<Blob>)
      requires !destroyed
      modifies this`fileContentResult, this`dirty
      ensures Abstract() == Next(old(Abstract()), Answer(load, result))
    {
      if load + 1 == |loads| {
        fileContentResult := result;
        dirty := true;
      }
    }

    method OnRequest(request: Option<Request>)
      requires !destroyed
      modifies this
      ensures Abstract() == Next(old(Abstract()), Select(request))
    {
      currentRequest := request;
      if request.Some? {
        LoadFile(request.value);
      }
    }

    method FileDetailsResult() returns (r: Details)
      requires !destroyed
      modifies this, urls
      ensures Abstract() == Next(old(Abstract()), Render) && r == details
    {
      if dirty {
        dirty := false;
        if !fileContentResult.Success? || currentRequest.None? {
          details := Passed(fileContentResult);
        } else {
          if currentBlobUrl.Some? {
            urls.RevokeObjectUrl(currentBlobUrl.value);
          }
          var blob := fileContentResult.data;
          var blobUrl := urls.CreateObjectUrl();
          currentBlobUrl := Some(blobUrl);
          details := Shown(blob, blobUrl, currentRequest.value.mimeType, currentRequest.value.fileName);
        }
      }
      return details;
    }

    method CloseDialog()
      requires !destroyed
      modifies this, urls
      ensures Abstract() == Next(old(Abstract()), Close)
    {
      if currentBlobUrl.Some? {
        urls.RevokeObjectUrl(currentBlobUrl.value);
        currentBlobUrl := None;
      }
    }

    method NgOnDestroy()
      requires !destroyed
      modifies this, urls
      ensures Abstract() == Next(old(Abstract()), Destroy)
    {
      if currentBlobUrl.Some? {
        urls.RevokeObjectUrl(currentBlobUrl.value);
      }
      destroyed := true;
    }
  }

  // ---------------------------------------------------------------- what holds of every run

  /** The blob is the newest load's, and the newest load is the current request's while there is one. */
  predicate Valid(v: View) {
    && v.live == (if v.destroyed then {} else OfOption(v.currentUrl))
    && (v.currentUrl.Some? ==> v.currentUrl.value < v.nextUrl)
    && (v.request.Some? ==> v.store.loads != [] && v.store.loads[|v.store.loads| - 1] == v.request.value)
    && (v.details.Shown? && v.currentUrl.Some? ==> v.details.url == v.currentUrl.value)
    && (v.details.Shown? ==> v.details.url < v.nextUrl)
    && (!v.dirty ==> Current(v))
  }

  /** The details are of the content there is now. */
  predicate Current(v: View) {
    if v.details.Shown? then v.store.content == LR.Success(v.details.blob) else v.details.result == v.store.content
  }

  lemma {:induction false} RunKeepsValid(v: View, events: seq<Event>)
    requires Valid(v)
    ensures Valid(Run(v, events))
    decreases |events|
  {
    if events != [] {
      assert Valid(Next(v, events[0]));
      RunKeepsValid(Next(v, events[0]), events[1..]);
    }
  }

  /** The URLs created and not revoked are exactly the current one, and after destruction there are none. */
  lemma NoUrlLeaks(events: seq<Event>)
    ensures var v := Run(INITIAL, events); v.live == if v.destroyed then {} else OfOption(v.currentUrl)
  {
    RunKeepsValid(INITIAL, events);
  }

  /** The event of the store inside an event of the viewer, if any. */
  function StoreEvent(e: Event): seq<LR.Event<Request, Blob>> {
    match e
    case Select(Some(request)) => [LR.Load(request)]
    case Answer(load, result) => [LR.Answer(load, result)]
    case _ => []
  }

  function EventsOf(events: seq<Event>): (trace: seq<LR.Event<Request, Blob>>)
    decreases |events|
  {
    if events == [] then [] else EventsOf(events[..|events| - 1]) + StoreEvent(events[|events| - 1])
  }

  lemma {:induction false} RunSnoc(v: View, events: seq<Event>, e: Event)
    ensures Run(v, events + [e]) == Next(Run(v, events), e)
    decreases |events|
  {
    if events == [] {
      assert (events + [e])[1..] == [];
    } else {
      RunSnoc(Next(v, events[0]), events[1..], e);
      assert (events + [e])[1..] == events[1..] + [e];
    }
  }

  lemma StoreStep(v: View, e: Event, trace: seq<LR.Event<Request, Blob>>)
    requires !v.destroyed && v.store == LR.Run(trace)
    ensures Next(v, e).store == LR.Run(trace + StoreEvent(e))
  {
    if StoreEvent(e) == [] {
      assert trace + StoreEvent(e) == trace;
    } else {
      assert (trace + StoreEvent(e))[..|trace|] == trace;
    }
  }

  /** Until it is destroyed the viewer's store runs exactly its loads and answers. */
  lemma {:induction false} StoreRuns(events: seq<Event>)
    requires !Run(INITIAL, events).destroyed
    ensures Run(INITIAL, events).store == LR.Run(EventsOf(events))
    decreases |events|
  {
    if events != [] {
      var init, last := events[..|events| - 1], events[|events| - 1];
      assert events == init + [last];
      RunSnoc(INITIAL, init, last);
      StoreRuns(init);
      StoreStep(Run(INITIAL, init), last, EventsOf(init));
    }
  }

  /** The details belong to this load: its answer holds the blob and its request the name and type. */
  predicate Describes(details: Details, trace: seq<LR.Event<Request, Blob>>, load: nat) {
    && details.Shown? && load < |LR.LoadsOf(trace)|
    && LR.AnswerTo(trace, load) == LR.Success(details.blob)
    && details.fileName == LR.LoadsOf(trace)[load].fileName && details.mimeType == LR.LoadsOf(trace)[load].mimeType
  }

  /** Details just computed are those of the newest load. */
  lemma RenderShowsNewest(events: seq<Event>)
    requires LR.Legal(EventsOf(events)) && !Run(INITIAL, events).destroyed && Run(INITIAL, events).dirty
    requires Rendered(Run(INITIAL, events)).details.Shown?
    ensures LR.LoadsOf(EventsOf(events)) != []
    ensures Describes(Rendered(Run(INITIAL, events)).details, EventsOf(events), |LR.LoadsOf(EventsOf(events))| - 1)
  {
    RunKeepsValid(INITIAL, events);
    StoreRuns(events);
    LR.LatestWins(EventsOf(events));
  }

  /** A load is answered once, so what happens later does not change whose details they are. */
  lemma DescribesLater(details: Details, trace: seq<LR.Event<Request, Blob>>, e: Event, load: nat)
    requires LR.Legal(trace + StoreEvent(e)) && Describes(details, trace, load)
    ensures Describes(details, trace + StoreEvent(e), load)
  {
    if StoreEvent(e) == [] {
      assert trace + StoreEvent(e) == trace;
    } else {
      assert (trace + StoreEvent(e))[..|trace|] == trace;
    }
  }

  lemma LegalBefore(trace: seq<LR.Event<Request, Blob>>, e: Event)
    requires LR.Legal(trace + StoreEvent(e))
    ensures LR.Legal(trace)
  {
    if StoreEvent(e) == [] {
      assert trace + StoreEvent(e) == trace;
    } else {
      assert (trace + StoreEvent(e))[..|trace|] == trace;
    }
  }

  /** Only rendering new content changes the details. */
  lemma DetailsKept(v: View, e: Event)
    ensures Next(v, e).details != v.details ==> e.Render? && v.dirty && !v.destroyed
  {
  }

  /** What is displayed is never behind: once rendered, the details are those of the newest load's answer. */
  lemma RenderedIsCurrent(events: seq<Event>)
    requires LR.Legal(EventsOf(events)) && !Run(INITIAL, events).destroyed
    ensures var trace, details := EventsOf(events), Rendered(Run(INITIAL, events)).details;
            var answer := if LR.LoadsOf(trace) == [] then LR.Pending else LR.AnswerTo(trace, |LR.LoadsOf(trace)| - 1);
            if details.Shown? then answer == LR.Success(details.blob) else details.result == answer
  {
    RunKeepsValid(INITIAL, events);
    StoreRuns(events);
    LR.LatestWins(EventsOf(events));
  }

  /** Details just computed without being shown are the newest load's own answer, or pending while there is none. */
  lemma RenderPassesNewest(events: seq<Event>)
    requires LR.Legal(EventsOf(events)) && !Run(INITIAL, events).destroyed && Run(INITIAL, events).dirty
    requires !Rendered(Run(INITIAL, events)).details.Shown?
    ensures var trace := EventsOf(events);
            Rendered(Run(INITIAL, events)).details
            == Passed(if LR.LoadsOf(trace) == [] then LR.Pending else LR.AnswerTo(trace, |LR.LoadsOf(trace)| - 1))
  {
    StoreRuns(events);
    LR.LatestWins(EventsOf(events));
  }

  /** At any time, the details shown carry the name and type of the very request that brought their blob. */
  lemma {:induction false} DetailsMatchTheirBlob(events: seq<Event>) returns (load: nat)
    requires LR.Legal(EventsOf(events)) && Run(INITIAL, events).details.Shown?
    ensures Describes(Run(INITIAL, events).details, EventsOf(events), load)
    decreases |events|
  {
    var init, last := events[..|events| - 1], events[|events| - 1];
    var before := Run(INITIAL, init);
    assert events == init + [last];
    RunSnoc(INITIAL, init, last);
    LegalBefore(EventsOf(init), last);
    DetailsKept(before, last);
    if Next(before, last).details != before.details {
      RenderShowsNewest(init);
      load := |LR.LoadsOf(EventsOf(init))| - 1;
    } else {
      load := DetailsMatchTheirBlob(init);
    }
    DescribesLater(Run(INITIAL, events).details, EventsOf(init), last, load);
  }

  /** The URL of the details shown works until the dialog is closed or destroyed, and only until then. */
  lemma ShownUrlLives(events: seq<Event>)
    requires Run(INITIAL, events).details.Shown?
    ensures var v := Run(INITIAL, events); v.details.url in v.live <==> v.currentUrl.Some? && !v.destroyed
  {
    RunKeepsValid(INITIAL, events);
  }

  // ---------------------------------------------------------------- a success without details

  /** The template then reads the name and type of a file from a bare blob. */
  predicate Bare(details: Details) {
    details.Passed? && details.result.Success?
  }

  /** The request selected last, if any. */
  function LastSelected(events: seq<Event>): Option<Request> {
    if events == [] then None
    else if events[|events| - 1].Select? then events[|events| - 1].request
    else LastSelected(events[..|events| - 1])
  }

  /** How many events came before the last rendering of new content. */
  function LastRendering(events: seq<Event>): (n: Option<nat>)
    ensures n.Some? ==> n.value < |events|
  {
    if events == [] then None
    else
      var init := events[..|events| - 1];
      if events[|events| - 1].Render? && Run(INITIAL, init).dirty then Some(|init|) else LastRendering(init)
  }

  lemma {:induction false} RequestIsLastSelected(events: seq<Event>)
    requires !Run(INITIAL, events).destroyed
    ensures Run(INITIAL, events).request == LastSelected(events)
    decreases |events|
  {
    if events != [] {
      var init, last := events[..|events| - 1], events[|events| - 1];
      assert events == init + [last];
      RunSnoc(INITIAL, init, last);
      RequestIsLastSelected(init);
    }
  }

  /**
    The newest load has been answered with a blob although no file is selected: the dialog closed while it was
    loading.
   */
  predicate AnsweredUnselected(events: seq<Event>) {
    && LastSelected(events).None?
    && var trace := EventsOf(events);
       LR.LoadsOf(trace) != [] && LR.AnswerTo(trace, |LR.LoadsOf(trace)| - 1).Success?
  }

  lemma RenderIsBare(events: seq<Event>)
    requires LR.Legal(EventsOf(events)) && !Run(INITIAL, events).destroyed && Run(INITIAL, events).dirty
    ensures Bare(Rendered(Run(INITIAL, events)).details) <==> AnsweredUnselected(events)
  {
    RequestIsLastSelected(events);
    StoreRuns(events);
    LR.LatestWins(EventsOf(events));
  }

  /** A success is shown without details exactly when new content was last rendered in that situation. */
  lemma {:induction false} BareExactly(events: seq<Event>)
    requires LR.Legal(EventsOf(events)) && !Run(INITIAL, events).destroyed
    ensures Bare(Run(INITIAL, events).details)
       <==> LastRendering(events).Some? && AnsweredUnselected(events[..LastRendering(events).value])
    decreases |events|
  {
    if events != [] {
      var init, last := events[..|events| - 1], events[|events| - 1];
      var before := Run(INITIAL, init);
      assert events == init + [last];
      RunSnoc(INITIAL, init, last);
      LegalBefore(EventsOf(init), last);
      DetailsKept(before, last);
      if last.Render? && before.dirty {
        RenderIsBare(init);
      } else {
        BareExactly(init);
        assert LastRendering(init).Some? ==> events[..LastRendering(init).value] == init[..LastRendering(init).value];
      }
    }
  }

  /** It happens: the dialog is closed while the file loads, and the file comes afterwards. */
  lemma ClosedWhileLoading(r: Request, blob: Blob)
    ensures var events := [Select(Some(r)), Close, Select(None), Answer(0, LR.Success(blob)), Render];
            Run(INITIAL, events).details == Passed(LR.Success(blob))
  {
    var e1, e3, e4 := Select(Some(r)), Select(None), Answer(0, LR.Success(blob));
    assert [e1, Close, e3, e4, Render] == [e1, Close, e3, e4] + [Render];
    assert [e1, Close, e3, e4] == [e1, Close, e3] + [e4];
    assert [e1, Close, e3] == [e1, Close] + [e3];
    assert [e1, Close] == [e1] + [Close];
    assert [e1] == [] + [e1];
    RunSnoc(INITIAL, [], e1);
    RunSnoc(INITIAL, [e1], Close);
    RunSnoc(INITIAL, [e1, Close], e3);
    RunSnoc(INITIAL, [e1, Close, e3], e4);
    RunSnoc(INITIAL, [e1, Close, e3, e4], Render);
  }
}
