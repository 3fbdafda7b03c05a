/**
 * The selection logic of the network panel
 * (frontend/src/pages/Player/Toolbar/DevToolsWindowV2/NetworkPage/NetworkPage.tsx):
 * which recorded requests are listed, how the list is navigated with the arrow
 * keys, how a row is flagged, and what a deep link to an error does to the player.
 * The helpers the page imports from its utils module (finding the last active
 * request, matching an error to a request by its correlation header, reading a
 * request's correlation id) are parameters of this model.
 */
module NetworkPage {

  import opened Wrappers
  import opened Strings
  import opened Seqs

  /** The recorded request and response of a resource, when network recording is on. */
  datatype RequestResponsePair = RequestResponsePair(verb: string, status: Option<int>)

  /** One recorded network resource; times are ms since the session start. An empty
      `name` or `displayName` stands for an absent or empty one (both are falsy). */
  datatype Resource = Resource(
    id: int,
    name: string,
    displayName: string,
    initiatorType: string,
    startTime: int,
    responseEnd: int,
    timestamp: Option<int>,
    requestResponsePairs: Option<RequestResponsePair>)

  /** The request-type filter: everything, or one initiator type. */
  datatype RequestType = All | Initiator(kind: string)

  // ---------------------------------------------------------------------------
  // networkRange
  // ---------------------------------------------------------------------------

  /** The width of the waterfall: from the first resource's start to the last one's response end. */
  function NetworkRange(resources: seq<Resource>): int {
    if |resources| > 0 then resources[|resources| - 1].responseEnd - resources[0].startTime else 0
  }

  /** Only the two ends of the list matter: whatever lies between them, the range is the
      same, so a middle resource that ends last lies outside it. */
  lemma NetworkRangeUsesEnds(first: Resource, middle: seq<Resource>, last: Resource)
    ensures NetworkRange([first] + middle + [last]) == last.responseEnd - first.startTime
    ensures NetworkRange([first]) == first.responseEnd - first.startTime
    ensures NetworkRange([]) == 0
  {
  }

  /** A resource that starts no earlier than the first and ends no later than the last
      lies within the range, measured from the first resource's start. */
  lemma {:induction false} WithinRange(resources: seq<Resource>, i: int)
    requires 0 <= i < |resources|
    requires resources[0].startTime <= resources[i].startTime
    requires resources[i].responseEnd <= resources[|resources| - 1].responseEnd
    requires resources[i].startTime <= resources[i].responseEnd
    ensures 0 <= resources[i].startTime - resources[0].startTime <= NetworkRange(resources)
    ensures resources[i].responseEnd - resources[0].startTime <= NetworkRange(resources)
  {
  }

  /** The range is not the longest span: a middle request may end after the last one. */
  lemma NetworkRangeNotMaximal()
    ensures var a := Resource(0, "a", "", "fetch", 0, 900, None, None);
            var b := Resource(1, "b", "", "fetch", 10, 100, None, None);
            NetworkRange([a, b]) == 100 && a.responseEnd - a.startTime > NetworkRange([a, b])
  {
  }

  // ---------------------------------------------------------------------------
  // resourcesToRender
  // ---------------------------------------------------------------------------

  /** The method filter: no method selected means any; otherwise the recorded verb must equal it. */
  predicate MatchesMethod(verb: Option<string>, r: Resource) {
    verb.None? ||
    (r.requestResponsePairs.Some? && verb.value == r.requestResponsePairs.value.verb)
  }

  /** The request-type filter. */
  predicate MatchesType(requestType: RequestType, r: Resource) {
    requestType.All? || requestType.kind == r.initiatorType
  }

  /** The name shown for a resource: `displayName || name`. */
  function Label(r: Resource): string {
    if r.displayName != "" then r.displayName else r.name
  }

  /** The search box: a resource without a name never matches; otherwise its label,
      lower-cased, must contain the lower-cased search text. */
  predicate MatchesSearch(filter: string, r: Resource) {
    r.name != "" && Includes(Lower(Label(r)), Lower(filter))
  }

  /** The resource with its absolute `timestamp` filled in. */
  function Stamp(r: Resource, sessionStart: int): (s: Resource) {
    r.(timestamp := Some(r.startTime + sessionStart))
  }

  /** The three filters together, as one test on an input resource. */
  predicate Listed(verb: Option<string>, requestType: RequestType, filter: string, r: Resource) {
    MatchesMethod(verb, r) && MatchesType(requestType, r) && (filter != "" ==> MatchesSearch(filter, r))
  }

  /** The method and type filters, as the first pass applies them. */
  function MethodAndType(verb: Option<string>, requestType: RequestType): Resource -> bool {
    r => MatchesMethod(verb, r) && MatchesType(requestType, r)
  }

  /** The search filter, as the second pass applies it. */
  function SearchTest(filter: string): Resource -> bool {
    r => MatchesSearch(filter, r)
  }

  /** The three filters in one pass. */
  function ListedTest(verb: Option<string>, requestType: RequestType, filter: string): Resource -> bool {
    r => Listed(verb, requestType, filter, r)
  }

  /** Every resource of a list, stamped. */
  function StampAll(s: seq<Resource>, sessionStart: int): (r: seq<Resource>)
    ensures |r| == |s|
    ensures forall i :: 0 <= i < |s| ==> r[i] == Stamp(s[i], sessionStart)
  {
    MapSeq(s, r => Stamp(r, sessionStart))
  }

  /** `resourcesToRender`: filter by method and type, stamp, then filter by the search text
      when it is not empty. */
  function ResourcesToRender(resources: seq<Resource>, verb: Option<string>,
                             requestType: RequestType, filter: string, sessionStart: int): seq<Resource>
  {
    var current := StampAll(Filter(resources, MethodAndType(verb, requestType)), sessionStart);
    if filter != "" then Filter(current, SearchTest(filter)) else current
  }

  /** Stamping commutes with a filter that never looks at `timestamp`. */
  lemma {:induction false} StampCommutesWithFilter(s: seq<Resource>, p: Resource -> bool, sessionStart: int)
    requires forall r :: p(Stamp(r, sessionStart)) == p(r)
    ensures Filter(StampAll(s, sessionStart), p) == StampAll(Filter(s, p), sessionStart)
    decreases |s|
  {
    if s != [] {
      StampCommutesWithFilter(s[1..], p, sessionStart);
      assert StampAll(s, sessionStart)[1..] == StampAll(s[1..], sessionStart);
      if p(s[0]) {
        assert StampAll(Filter(s, p), sessionStart) ==
               [Stamp(s[0], sessionStart)] + StampAll(Filter(s[1..], p), sessionStart);
      }
    }
  }

  /** Running two filters one after the other keeps what passes both. */
  lemma {:induction false} FilterFilter(s: seq<Resource>, p: Resource -> bool, q: Resource -> bool)
    ensures Filter(Filter(s, p), q) == Filter(s, r => p(r) && q(r))
    decreases |s|
  {
    if s != [] {
      FilterFilter(s[1..], p, q);
    }
  }

  /** The rendered list is the input's listed resources, in input order, each stamped:
      one pass with all three filters gives the same list. */
  lemma ResourcesToRenderOnePass(resources: seq<Resource>, verb: Option<string>,
                                 requestType: RequestType, filter: string, sessionStart: int)
    ensures ResourcesToRender(resources, verb, requestType, filter, sessionStart) ==
            Filter(StampAll(resources, sessionStart), ListedTest(verb, requestType, filter))
  {
    var listed := ListedTest(verb, requestType, filter);
    FiltersIgnoreStamp(verb, requestType, filter, sessionStart);
    StampCommutesWithFilter(resources, listed, sessionStart);
    if filter != "" {
      SearchPassMatches(resources, verb, requestType, filter, sessionStart);
    } else {
      FilterCongruent(resources, MethodAndType(verb, requestType), listed);
    }
  }

  /** With a search text, the two passes keep what the one-pass test keeps. */
  lemma SearchPassMatches(resources: seq<Resource>, verb: Option<string>,
                          requestType: RequestType, filter: string, sessionStart: int)
    requires filter != ""
    ensures ResourcesToRender(resources, verb, requestType, filter, sessionStart) ==
            StampAll(Filter(resources, ListedTest(verb, requestType, filter)), sessionStart)
  {
    var mt := MethodAndType(verb, requestType);
    var search := SearchTest(filter);
    var both := (r: Resource) => mt(r) && search(r);
    FiltersIgnoreStamp(verb, requestType, filter, sessionStart);
    StampCommutesWithFilter(Filter(resources, mt), search, sessionStart);
    FilterFilter(resources, mt, search);
    FilterCongruent(resources, both, ListedTest(verb, requestType, filter));
  }

  /** None of the filters looks at `timestamp`. */
  lemma FiltersIgnoreStamp(verb: Option<string>, requestType: RequestType, filter: string, sessionStart: int)
    ensures forall r :: MatchesSearch(filter, Stamp(r, sessionStart)) == MatchesSearch(filter, r)
    ensures forall r :: Listed(verb, requestType, filter, Stamp(r, sessionStart)) == Listed(verb, requestType, filter, r)
  {
  }

  /** Every listed input resource appears in the rendered list, stamped. */
  lemma ListedIsRendered(resources: seq<Resource>, verb: Option<string>,
                         requestType: RequestType, filter: string, sessionStart: int, i: int)
    requires 0 <= i < |resources| && Listed(verb, requestType, filter, resources[i])
    ensures Stamp(resources[i], sessionStart) in ResourcesToRender(resources, verb, requestType, filter, sessionStart)
  {
    var stamped := StampAll(resources, sessionStart);
    ResourcesToRenderOnePass(resources, verb, requestType, filter, sessionStart);
    FiltersIgnoreStamp(verb, requestType, filter, sessionStart);
    assert stamped[i] == Stamp(resources[i], sessionStart);
    FilterKeeps(stamped, ListedTest(verb, requestType, filter), i);
  }

  /** Every resource of the list carries its absolute timestamp. */
  predicate AllStamped(s: seq<Resource>, sessionStart: int) {
    forall k :: 0 <= k < |s| ==> s[k].timestamp == Some(s[k].startTime + sessionStart)
  }

  /** Filtering a list of stamped resources keeps only stamped ones. */
  lemma {:induction false} FilterKeepsStamped(s: seq<Resource>, p: Resource -> bool, sessionStart: int)
    requires AllStamped(s, sessionStart)
    ensures AllStamped(Filter(s, p), sessionStart)
    decreases |s|
  {
    if s != [] {
      assert AllStamped(s[1..], sessionStart) by {
        forall k | 0 <= k < |s[1..]| ensures s[1..][k].timestamp == Some(s[1..][k].startTime + sessionStart) {
          assert s[1..][k] == s[k + 1];
        }
      }
      FilterKeepsStamped(s[1..], p, sessionStart);
    }
  }

  /** Every rendered row passes the three filters. */
  lemma RenderedRowsAreListed(resources: seq<Resource>, verb: Option<string>,
                              requestType: RequestType, filter: string, sessionStart: int)
    ensures forall k :: 0 <= k < |ResourcesToRender(resources, verb, requestType, filter, sessionStart)| ==>
              Listed(verb, requestType, filter, ResourcesToRender(resources, verb, requestType, filter, sessionStart)[k])
  {
    ResourcesToRenderOnePass(resources, verb, requestType, filter, sessionStart);
  }

  /** Every rendered row carries its absolute timestamp, `startTime + sessionStart`. */
  lemma RenderedRowsAreStamped(resources: seq<Resource>, verb: Option<string>,
                               requestType: RequestType, filter: string, sessionStart: int)
    ensures AllStamped(ResourcesToRender(resources, verb, requestType, filter, sessionStart), sessionStart)
  {
    var current := StampAll(Filter(resources, MethodAndType(verb, requestType)), sessionStart);
    if filter != "" {
      FilterKeepsStamped(current, SearchTest(filter), sessionStart);
    }
  }

  /** The rendered list keeps the input's order: it is a subsequence of the stamped input. */
  lemma RenderedKeepsOrder(resources: seq<Resource>, verb: Option<string>,
                           requestType: RequestType, filter: string, sessionStart: int)
    ensures IsSubsequence(ResourcesToRender(resources, verb, requestType, filter, sessionStart),
                          StampAll(resources, sessionStart))
  {
    ResourcesToRenderOnePass(resources, verb, requestType, filter, sessionStart);
  }

  /** An empty search text adds no restriction. */
  lemma EmptySearchKeepsAll(resources: seq<Resource>, verb: Option<string>,
                            requestType: RequestType, sessionStart: int)
    ensures |ResourcesToRender(resources, verb, requestType, "", sessionStart)| ==
            |Filter(resources, MethodAndType(verb, requestType))|
  {
  }

  // ---------------------------------------------------------------------------
  // Arrow-key navigation
  // ---------------------------------------------------------------------------

  /**
   * The keydown listener. ArrowUp and ArrowDown move the active row by one from
   * `current || 0`, clamped into the list; `next` is the new `currentActiveIndex`.
   * When the detail panel is open it is shown for row `next` and the list scrolls to
   * `next - 1`. Any other key changes nothing.
   */
  method ArrowKey(key: string, current: Option<int>, count: nat, panelIsOpen: bool)
    returns (handled: bool, next: Option<int>, panelRow: Option<int>, scrollTo: Option<int>)
    ensures handled <==> key == "ArrowUp" || key == "ArrowDown"
    ensures !handled ==> next == current && panelRow.None? && scrollTo.None?
    ensures handled ==> next.Some?
    ensures handled && count > 0 ==> 0 <= next.value < count
    ensures handled ==>
              var target := current.GetOr(0) + (if key == "ArrowUp" then -1 else 1);
              next.value == (if target < 0 then 0 else if target >= count then count - 1 else target)
    ensures panelRow == (if handled && panelIsOpen then next else None)
    ensures scrollTo == (if handled && panelIsOpen then Some(next.value - 1) else None)
  {
    var direction: Option<int> := None;
    if key == "ArrowUp" {
      direction := Some(-1);
    } else if key == "ArrowDown" {
      direction := Some(1);
    }
    handled := direction.Some?;
    next, panelRow, scrollTo := current, None, None;
    if direction.Some? {
      var nextIndex := current.GetOr(0) + direction.value;
      if nextIndex < 0 {
        nextIndex := 0;
      } else if nextIndex >= count {
        nextIndex := count - 1;
      }
      next := Some(nextIndex);
      if panelIsOpen {
        panelRow := Some(nextIndex);
        scrollTo := Some(nextIndex - 1);
      }
    }
  }

  // ---------------------------------------------------------------------------
  // Row flags and the status cell
  // ---------------------------------------------------------------------------

  /** The recorded response status, if any. */
  function StatusOf(r: Resource): Option<int> {
    if r.requestResponsePairs.Some? then r.requestResponsePairs.value.status else None
  }

  /** The `failedResource` flag, as written: an error, or a truthy status that is 0 or at least 400. */
  predicate FailedRow(hasError: bool, r: Resource) {
    hasError ||
    (StatusOf(r).Some? && StatusOf(r).value != 0 &&
     (StatusOf(r).value == 0 || StatusOf(r).value >= 400))
  }

  /** A row is flagged exactly when it has an error or a status of 400 or more; status 0
      never flags it, because of the truthiness test in front of the `=== 0` arm. */
  lemma FailedRowExactly(hasError: bool, r: Resource)
    ensures FailedRow(hasError, r) <==> hasError || (StatusOf(r).Some? && StatusOf(r).value >= 400)
    ensures StatusOf(r) == Some(0) ==> (FailedRow(hasError, r) <==> hasError)
  {
  }

  /** A JavaScript value that is `undefined`, `null` or a string. Strict equality `===` tells
      the three apart: `null === undefined` is false. */
  datatype JsString = Undefined | Null | Str(value: string)

  /** A string value is truthy when it is a non-empty string. */
  predicate Truthy(s: JsString) {
    s.Str? && s.value != ""
  }

  /** A recorded error, as the page reads it: its id, its `request_id` and its raw
      `timestamp`, each as the error object holds them. */
  datatype RecordedError = RecordedError(id: string, requestId: JsString, timestamp: JsString)

  /** `hasError` for a row: some error's `request_id` equals the row's correlation id,
      as the imported `getHighlightRequestId` reads it. An absent id equals an absent id. */
  predicate RowHasError(errors: seq<RecordedError>, requestIdOf: Resource -> JsString, r: Resource)
    ensures RowHasError(errors, requestIdOf, r) <==>
              exists k :: 0 <= k < |errors| && errors[k].requestId == requestIdOf(r)
  {
    Find(errors, (e: RecordedError) => e.requestId == requestIdOf(r)).Some?
  }

  /** A row without a correlation id is flagged by an error whose `request_id` is absent in
      the same way: `undefined` matches `undefined`, and `null` matches `null`. */
  lemma AbsentIdsMatch(errors: seq<RecordedError>, requestIdOf: Resource -> JsString,
                       r: Resource, k: int)
    requires 0 <= k < |errors| && !errors[k].requestId.Str? && errors[k].requestId == requestIdOf(r)
    ensures RowHasError(errors, requestIdOf, r)
    ensures FailedRow(RowHasError(errors, requestIdOf, r), r)
  {
  }

  /** An `undefined` correlation id is never matched by errors whose `request_id` is `null`
      or a string, since `null === undefined` is false. */
  lemma UndefinedIdIgnoresNull(errors: seq<RecordedError>, requestIdOf: Resource -> JsString, r: Resource)
    requires requestIdOf(r) == Undefined
    requires forall k :: 0 <= k < |errors| ==> errors[k].requestId != Undefined
    ensures !RowHasError(errors, requestIdOf, r)
  {
  }

  /** What the status column shows. */
  datatype StatusCell = Recorded(code: int) | UnknownStatus | Assumed200

  /** The status column: the recorded status (or the unknown marker) for XHR and fetch
      requests; '200' for every other initiator. */
  function StatusCellOf(r: Resource): (c: StatusCell)
    ensures c.Assumed200? <==> r.initiatorType != "xmlhttprequest" && r.initiatorType != "fetch"
    ensures c.UnknownStatus? <==> (r.initiatorType == "xmlhttprequest" || r.initiatorType == "fetch") &&
                                  StatusOf(r).None?
    ensures c.Recorded? ==> StatusOf(r) == Some(c.code)
  {
    if r.initiatorType == "xmlhttprequest" || r.initiatorType == "fetch" then
      (if StatusOf(r).Some? then Recorded(StatusOf(r).value) else UnknownStatus)
    else Assumed200
  }

  /** A fetch whose recorded status is 0 shows 0 in the status column but is not flagged
      failed unless it has an error. */
  lemma ZeroStatusShownNotFlagged(r: Resource)
    requires r.initiatorType == "fetch" && StatusOf(r) == Some(0)
    ensures StatusCellOf(r) == Recorded(0) && !FailedRow(false, r)
  {
  }

  // ---------------------------------------------------------------------------
  // Deep link to an error
  // ---------------------------------------------------------------------------

  /** What the deep-link effect asks of the page and the player, in order. */
  datatype PageCommand =
    | ShowResourcePanel(resource: Resource)
    | SetTime(time: int)
    | ScrollToRow(index: int)
    | SelectErrorsTab
    | ShowErrorPanel(error: RecordedError)

  /** The guards in front of the effect's work. */
  predicate DeepLinkReady(errorId: JsString, loading: bool, hasSession: bool,
                          rows: seq<Resource>, errors: seq<RecordedError>, isPlayerReady: bool) {
    Truthy(errorId) && !loading && hasSession && |rows| > 0 && |errors| > 0 && isPlayerReady
  }

  /** The first error with the linked id. */
  function LinkedError(errors: seq<RecordedError>, errorId: string): (r: Option<RecordedError>)
    ensures r.None? <==> forall k :: 0 <= k < |errors| ==> errors[k].id != errorId
    ensures r.Some? ==> r.value.id == errorId
    ensures r.Some? ==>
              exists k :: 0 <= k < |errors| && errors[k] == r.value &&
                          forall j :: 0 <= j < k ==> errors[j].id != errorId
  {
    Find(errors, (e: RecordedError) => e.id == errorId)
  }

  /**
   * The deep-link effect. Nothing happens unless the guards hold and the first error with
   * the linked id has a truthy `request_id`. Then, if the matcher finds a row, the panel
   * shows it, the player seeks to its start and the list scrolls to its position; otherwise
   * the Errors tab and the error's panel are shown, and, when the session start and the
   * error's raw `timestamp` are both truthy, the player seeks to the error's time relative
   * to the session start. `dateOf` stands for `new Date(timestamp).getTime()`.
   */
  method DeepLink(errorId: JsString, loading: bool, hasSession: bool,
                  rows: seq<Resource>, errors: seq<RecordedError>, isPlayerReady: bool,
                  sessionStart: int,
                  findMatch: (string, seq<Resource>) -> Option<Resource>,
                  dateOf: string -> int)
    returns (commands: seq<PageCommand>)
    ensures !DeepLinkReady(errorId, loading, hasSession, rows, errors, isPlayerReady) ==> commands == []
    ensures DeepLinkReady(errorId, loading, hasSession, rows, errors, isPlayerReady) ==>
              var linked := LinkedError(errors, errorId.value);
              if linked.None? || !Truthy(linked.value.requestId) then commands == []
              else
                var hit := findMatch(linked.value.requestId.value, rows);
                if hit.Some? then
                  commands == [ShowResourcePanel(hit.value), SetTime(hit.value.startTime),
                               ScrollToRow(IndexOf(rows, hit.value))]
                else
                  && |commands| >= 2
                  && commands[..2] == [SelectErrorsTab, ShowErrorPanel(linked.value)]
                  && (sessionStart != 0 && Truthy(linked.value.timestamp) <==> |commands| == 3)
                  && (|commands| == 3 ==>
                        commands[2] == SetTime(dateOf(linked.value.timestamp.value) - sessionStart))
                  && |commands| <= 3
    ensures forall k :: 0 <= k < |commands| && commands[k].ScrollToRow? ==>
              -1 <= commands[k].index < |rows|
  {
    commands := [];
    if DeepLinkReady(errorId, loading, hasSession, rows, errors, isPlayerReady) {
      var matchingError := LinkedError(errors, errorId.value);
      if matchingError.Some? && Truthy(matchingError.value.requestId) {
        var resource := findMatch(matchingError.value.requestId.value, rows);
        if resource.Some? {
          commands := commands + [ShowResourcePanel(resource.value)];
          commands := commands + [SetTime(resource.value.startTime)];
          commands := commands + [ScrollToRow(IndexOf(rows, resource.value))];
        } else {
          commands := commands + [SelectErrorsTab];
          commands := commands + [ShowErrorPanel(matchingError.value)];
          var timestamp := matchingError.value.timestamp;
          if sessionStart != 0 && Truthy(timestamp) {
            commands := commands + [SetTime(dateOf(timestamp.value) - sessionStart)];
          }
        }
      }
    }
  }

  /** A hit seeks to the matched row's start and scrolls to that row, which is in the list
      when the matcher returns one of the rows it was given. */
  lemma DeepLinkHitScrollsToRow(rows: seq<Resource>, hit: Resource)
    requires hit in rows
    ensures 0 <= IndexOf(rows, hit) < |rows| && rows[IndexOf(rows, hit)] == hit
  {
  }

  // ---------------------------------------------------------------------------
  // Auto-scroll
  // ---------------------------------------------------------------------------

  /** The replayer's state, as far as the page distinguishes it. */
  datatype ReplayerState = Playing | Paused | OtherState

  /** The scroll requests the two auto-scroll effects issue for the current active index
      (the result of the imported `findLastActiveEventIndex`): one while playing, one
      while paused. */
  function AutoScrollRequests(autoScroll: bool, state: ReplayerState, activeIndex: int): (r: seq<int>)
  {
    (if autoScroll && state == Playing then [activeIndex] else []) +
    (if autoScroll && state == Paused then [activeIndex] else [])
  }

  /** At most one scroll is requested, to the active index, and one is requested exactly
      when auto-scroll is on and the replayer is playing or paused. */
  lemma AutoScrollAtMostOnce(autoScroll: bool, state: ReplayerState, activeIndex: int)
    ensures |AutoScrollRequests(autoScroll, state, activeIndex)| <= 1
    ensures |AutoScrollRequests(autoScroll, state, activeIndex)| == 1 <==>
            autoScroll && (state == Playing || state == Paused)
    ensures forall k :: 0 <= k < |AutoScrollRequests(autoScroll, state, activeIndex)| ==>
              AutoScrollRequests(autoScroll, state, activeIndex)[k] == activeIndex
  {
  }
}
