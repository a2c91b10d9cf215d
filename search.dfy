/**
 * The search screen's bookkeeping: debounced dispatch of queries, a token
 * that tags each dispatched search, and the guard that drops results of
 * superseded searches. Everything runs on one thread; the 250 ms timer,
 * the background search and the hop back to the main thread appear only
 * as the events they cause, in the order they cause them.
 */
module Search {
  import opened Wrappers
  import opened Strings
  import opened Documents
  import FileManager

  /** A search handed to the debounce timer or the executor: the trimmed query and its token. */
  datatype Dispatch = Dispatch(query: string, token: int)

  /** Which of the three panels is visible. */
  datatype ViewState =
    | Initial
    | NoResults(echo: string)
    | Results(docs: seq<Document>)

  /**
   * The fragment's state: `token` is searchToken, `scheduled` the search
   * queued on the main handler, `inFlight` the searches that left the timer
   * and whose results are not yet back (a single-thread executor posting to
   * the main thread returns them first in, first out), `attached` is isAdded().
   */
  datatype SearchState = SearchState(
    token: int,
    scheduled: Option<Dispatch>,
    inFlight: seq<Dispatch>,
    view: ViewState,
    clearIconVisible: bool,
    attached: bool)

  /** What can happen to the fragment. */
  datatype Event =
    | TextChanged(text: string)
    | DebounceElapsed
    | SearchCompleted(st: FileManager.Storage, threw: bool)
    | DestroyView
    | Detach

  /** After setupSearch: initial panel, token 0, nothing queued. */
  function Start(): SearchState
  {
    SearchState(0, None, [], Initial, false, true)
  }

  /** scheduleSearch */
  function OnTextChanged(s: SearchState, text: string): SearchState
  {
    var trimmed := Trim(text);
    var s1 := s.(clearIconVisible := trimmed != "", scheduled := None);
    if trimmed == "" then s1.(view := Initial)
    else s1.(token := s.token + 1, scheduled := Some(Dispatch(trimmed, s.token + 1)))
  }

  /** The debounce timer fires: the queued search goes to the executor. */
  function OnDebounce(s: SearchState): SearchState
  {
    if s.scheduled.None? then s
    else s.(scheduled := None, inFlight := s.inFlight + [s.scheduled.value])
  }

  /** showResults: the no-results panel echoing the query in quotes, or the list. */
  function ShowResults(query: string, results: seq<Document>): (v: ViewState)
    ensures v.NoResults? <==> |results| == 0
    ensures v.NoResults? ==> v.echo == "\"" + query + "\""
    ensures v.Results? ==> v.docs == results
  {
    if |results| == 0 then NoResults("\"" + query + "\"") else Results(results)
  }

  /** What the executor computes for a query: the index's answer, or the empty list if it threw. */
  function SearchOutcome(st: FileManager.Storage, query: string, threw: bool): seq<Document>
  {
    if threw then [] else FileManager.SearchResults(FileManager.Library(st), query)
  }

  /**
   * The oldest in-flight search comes back; its results are shown only when
   * the fragment is attached and no newer search or teardown has moved the token.
   */
  function OnCompleted(s: SearchState, st: FileManager.Storage, threw: bool): SearchState
  {
    if |s.inFlight| == 0 then s
    else
      var d := s.inFlight[0];
      var s1 := s.(inFlight := s.inFlight[1..]);
      if !s.attached || d.token != s.token then s1
      else s1.(view := ShowResults(d.query, SearchOutcome(st, d.query, threw)))
  }

  /** onDestroyView: cancel the queued search and move the token on. */
  function ViewDestroyed(s: SearchState): SearchState
  {
    s.(scheduled := None, token := s.token + 1)
  }

  function Step(s: SearchState, e: Event): SearchState
  {
    match e
    case TextChanged(text) => OnTextChanged(s, text)
    case DebounceElapsed => OnDebounce(s)
    case SearchCompleted(st, threw) => OnCompleted(s, st, threw)
    case DestroyView => ViewDestroyed(s)
    case Detach => s.(attached := false)
  }

  /** The state after the events `es`, in order. */
  function Run(s: SearchState, es: seq<Event>): SearchState
  {
    if |es| == 0 then s else Step(Run(s, es[..|es| - 1]), es[|es| - 1])
  }

  /** The queued search carries the current token; no in-flight search is newer. */
  predicate Inv(s: SearchState)
  {
    && (s.scheduled.Some? ==> s.scheduled.value.token == s.token)
    && forall i :: 0 <= i < |s.inFlight| ==> s.inFlight[i].token <= s.token
  }

  /**
   * A blank text shows the initial panel, hides the clear icon, cancels the
   * queued search and leaves the token alone; any other text moves the token
   * on by one and queues its trimmed form under the new token, replacing
   * whatever was queued.
   */
  lemma TextChangedEffect(s: SearchState, text: string)
    ensures var s' := OnTextChanged(s, text);
            && s'.inFlight == s.inFlight && s'.attached == s.attached
            && (IsBlank(text) ==> s'.view == Initial && s'.token == s.token && s'.scheduled.None? && !s'.clearIconVisible)
            && (!IsBlank(text) ==>
                  s'.view == s.view && s'.token == s.token + 1 && s'.clearIconVisible
                  && s'.scheduled == Some(Dispatch(Trim(text), s.token + 1)) && Trim(text) != "")
  {
    TrimEmptyIffBlank(text);
  }

  /** Every event keeps the invariant. */
  lemma StepInv(s: SearchState, e: Event)
    requires Inv(s)
    ensures Inv(Step(s, e))
  {
    var s' := Step(s, e);
    if e.DebounceElapsed? && s.scheduled.Some? {
      assert forall i :: 0 <= i < |s'.inFlight| ==> s'.inFlight[i] == if i < |s.inFlight| then s.inFlight[i] else s.scheduled.value;
    }
    if e.SearchCompleted? && |s.inFlight| > 0 {
      assert forall i :: 0 <= i < |s'.inFlight| ==> s'.inFlight[i] == s.inFlight[i + 1];
    }
  }

  lemma {:induction false} RunInv(s: SearchState, es: seq<Event>)
    requires Inv(s)
    ensures Inv(Run(s, es))
  {
    if |es| > 0 {
      RunInv(s, es[..|es| - 1]);
      StepInv(Run(s, es[..|es| - 1]), es[|es| - 1]);
    }
  }

  /** The token never goes down. */
  lemma {:induction false} RunTokenMonotone(s: SearchState, es: seq<Event>)
    ensures Run(s, es).token >= s.token
  {
    if |es| > 0 {
      RunTokenMonotone(s, es[..|es| - 1]);
    }
  }

  /** Event `e` hands the results of `d` back to the fragment in state `s`. */
  predicate Delivers(s: SearchState, e: Event, d: Dispatch)
  {
    e.SearchCompleted? && |s.inFlight| > 0 && s.inFlight[0] == d
  }

  /**
   * A superseded search is never shown: once the token has passed a
   * dispatch's token, however many events follow, the arrival of that
   * dispatch's results leaves the view as it was.
   */
  lemma StaleResultsIgnored(s: SearchState, es: seq<Event>, d: Dispatch)
    requires d.token < s.token
    ensures forall k :: 0 <= k < |es| && Delivers(Run(s, es[..k]), es[k], d) ==>
              Step(Run(s, es[..k]), es[k]).view == Run(s, es[..k]).view
  {
    forall k | 0 <= k < |es| && Delivers(Run(s, es[..k]), es[k], d)
      ensures Step(Run(s, es[..k]), es[k]).view == Run(s, es[..k]).view
    {
      RunTokenMonotone(s, es[..k]);
    }
  }

  /** Results are shown only while the fragment is attached. */
  lemma DetachedIgnoresResults(s: SearchState, st: FileManager.Storage, threw: bool)
    requires !s.attached
    ensures OnCompleted(s, st, threw).view == s.view
  {
  }

  /**
   * Tearing the view down cancels the queued search and leaves every
   * in-flight search behind the token, so none of them is shown afterwards.
   */
  lemma DestroyViewSilencesEarlier(s: SearchState)
    requires Inv(s)
    ensures ViewDestroyed(s).scheduled.None?
    ensures forall d :: d in ViewDestroyed(s).inFlight ==> d.token < ViewDestroyed(s).token
  {
  }

  /**
   * Results that are current: the panel is the no-results one, echoing the
   * query, exactly when the search threw or nothing matched; otherwise it
   * lists exactly the library documents whose title contains the query.
   */
  lemma CurrentResultsShown(s: SearchState, st: FileManager.Storage, threw: bool)
    requires s.attached && |s.inFlight| > 0 && s.inFlight[0].token == s.token
    ensures var q := s.inFlight[0].query;
            var v := OnCompleted(s, st, threw).view;
            && (v.NoResults? <==> threw || forall d :: d in FileManager.Library(st) ==> !FileManager.Matches(d, q))
            && (v.NoResults? ==> v.echo == "\"" + q + "\"")
            && (v.Results? ==> forall d :: d in v.docs <==> d in FileManager.Library(st) && FileManager.Matches(d, q))
  {
    var q := s.inFlight[0].query;
    var results := FileManager.SearchResults(FileManager.Library(st), q);
    forall d {
      FileManager.SearchResultsMembers(FileManager.Library(st), q, d);
    }
    if !threw && |results| > 0 {
      assert results[0] in results;
    }
  }

  /** Typing each text in turn. */
  function TypeAll(s: SearchState, texts: seq<string>): SearchState
  {
    if |texts| == 0 then s else OnTextChanged(TypeAll(s, texts[..|texts| - 1]), texts[|texts| - 1])
  }

  lemma {:induction false} TypeAllShape(s: SearchState, texts: seq<string>)
    requires |texts| > 0 && forall t :: t in texts ==> !IsBlank(t)
    ensures var s' := TypeAll(s, texts);
            && s'.token == s.token + |texts| && s'.inFlight == s.inFlight
            && s'.scheduled == Some(Dispatch(Trim(texts[|texts| - 1]), s.token + |texts|))
  {
    var init := texts[..|texts| - 1];
    TrimEmptyIffBlank(texts[|texts| - 1]);
    if |init| > 0 {
      assert forall t :: t in init ==> t in texts;
      TypeAllShape(s, init);
    }
  }

  /**
   * A burst of keystrokes inside one debounce window sends a single search:
   * the last text's, under a token that counts every keystroke.
   */
  lemma BurstDispatchesLast(s: SearchState, texts: seq<string>)
    requires |texts| > 0 && forall t :: t in texts ==> !IsBlank(t)
    ensures var s' := OnDebounce(TypeAll(s, texts));
            && s'.inFlight == s.inFlight + [Dispatch(Trim(texts[|texts| - 1]), s.token + |texts|)]
            && s'.scheduled.None? && s'.token == s.token + |texts|
  {
    TypeAllShape(s, texts);
  }

  /**
   * Clearing the text does not move the token: a search already with the
   * executor for the previous text replaces the initial panel when it
   * comes back.
   */
  lemma ClearKeepsInFlightLive(s: SearchState, text: string, st: FileManager.Storage, threw: bool)
    requires s.attached && |s.inFlight| > 0 && s.inFlight[0].token == s.token && IsBlank(text)
    ensures OnTextChanged(s, text).view == Initial
    ensures OnCompleted(OnTextChanged(s, text), st, threw).view != Initial
  {
    TrimEmptyIffBlank(text);
  }

  /** SearchFragment's fields, updated event by event. */
  class SearchFragment {
    var searchToken: int
    var pendingSearch: Option<Dispatch>
    var inFlight: seq<Dispatch>
    var view: ViewState
    var clearIconVisible: bool
    var attached: bool

    function State(): SearchState
      reads this
    {
      SearchState(searchToken, pendingSearch, inFlight, view, clearIconVisible, attached)
    }

    constructor ()
      ensures State() == Start()
    {
      searchToken := 0;
      pendingSearch := None;
      inFlight := [];
      clearIconVisible := false;
      attached := true;
      view := Initial;
    }

    /** showInitialState */
    method ShowInitialState()
      modifies this
      ensures State() == old(State()).(view := Initial)
    {
      view := Initial;
    }

    /** scheduleSearch */
    method ScheduleSearch(query: string)
      modifies this
      ensures State() == OnTextChanged(old(State()), query)
    {
      var trimmed := Trim(query);
      clearIconVisible := trimmed != "";
      pendingSearch := None;
      if trimmed == "" {
        ShowInitialState();
        return;
      }
      searchToken := searchToken + 1;
      var token := searchToken;
      pendingSearch := Some(Dispatch(trimmed, token));
    }

    /** The 250 ms timer runs the queued search: runSearch hands it to the executor. */
    method RunPending()
      modifies this
      ensures State() == OnDebounce(old(State()))
    {
      if pendingSearch.Some? {
        inFlight := inFlight + [pendingSearch.value];
        pendingSearch := None;
      }
    }

    /**
     * The executor's search for the oldest in-flight query, then the
     * main-thread callback with its guard.
     */
    method CompleteSearch(st: FileManager.Storage, threw: bool)
      modifies this
      ensures State() == OnCompleted(old(State()), st, threw)
    {
      if |inFlight| == 0 {
        return;
      }
      var d := inFlight[0];
      inFlight := inFlight[1..];
      var results: seq<Document>;
      if threw {
        results := [];
      } else {
        results := FileManager.SearchDocuments(st, d.query);
      }
      if !attached || d.token != searchToken {
        return;
      }
      view := ShowResults(d.query, results);
    }

    /** onDestroyView */
    method OnDestroyView()
      modifies this
      ensures State() == ViewDestroyed(old(State()))
    {
      pendingSearch := None;
      searchToken := searchToken + 1;
    }
  }
}
