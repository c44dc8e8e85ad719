/**
 * The page navigator of the single-page front end: the current and previous page, the
 * context recorded by the last move, and the back-button behaviour. Page loading, links
 * and timers are outside the model; only the navigator's own fields are.
 */
module Navigation {
  import opened Wrappers

  /** A property of the navigation context: a page name or parameter, or the `Date.now()` stamp. */
  datatype Entry = Text(s: string) | Time(t: int)

  /** JavaScript truthiness of a context property. */
  predicate Truthy(e: Entry) {
    match e
    case Text(s) => s != ""
    case Time(t) => t != 0
  }

  type Context = map<string, Entry>

  /** The navigator's fields; `previousPage` is `null` until the first move. */
  datatype State = State(currentPage: string, previousPage: Option<string>, context: Context, initialized: bool)

  /** What the constructor sets before `init` runs. */
  const Start := State("home", None, map[], false)

  /** `{ fromPage, timestamp: Date.now(), ...params }`: the parameters come last and win. */
  function ContextFor(from: string, now: int, params: map<string, string>): Context {
    map["fromPage" := Text(from), "timestamp" := Time(now)] + (map k | k in params :: Text(params[k]))
  }

  /** `init()`: without the content area nothing changes; otherwise the navigator is ready on the page it holds. */
  function Initialized(st: State, hasContentArea: bool): State {
    if hasContentArea then st.(initialized := true) else st
  }

  /** `navigateTo(page, params)` */
  function Navigate(st: State, page: string, params: map<string, string>, now: int): State {
    if !st.initialized then st
    else if st.currentPage != page || |params| > 0 then
      State(page, Some(st.currentPage), ContextFor(st.currentPage, now, params), true)
    else st
  }

  /** The recorded way back: a non-empty previous page and a truthy `fromPage`. */
  predicate CanGoBack(st: State) {
    st.previousPage.Some? && st.previousPage.value != ""
    && "fromPage" in st.context && Truthy(st.context["fromPage"])
  }

  /**
   * `navigateBack()`: with a recorded way back, to the previous page; otherwise the browser's
   * history is asked, which leaves the fields alone, unless it throws and the navigator falls
   * back to the home page.
   */
  function Back(st: State, historyThrows: bool, now: int): State {
    if CanGoBack(st) then Navigate(st, st.previousPage.value, map[], now)
    else if historyThrows then Navigate(st, "home", map[], now)
    else st
  }

  /** Which pages the back button names, and how. */
  const PageNames: map<string, string> := map[
    "home" := "Home",
    "project-planner" := "Project Planner",
    "task-manager" := "Task Manager",
    "all-projects" := "All Projects",
    "all-ideas" := "All Ideas",
    "all-events" := "All Events"]

  /** `getBackButtonText()` for the given previous page. */
  function BackText(previous: Option<string>): string {
    if previous.Some? && previous.value != "" && previous.value in PageNames then "← Back to " + PageNames[previous.value]
    else "← Back"
  }

  // ---------------------------------------------------------------------------
  // Laws of the navigator

  /** `navigateTo` changes the fields: the navigator is ready and the target differs from the current page or parameters are given. */
  predicate Moves(st: State, page: string, params: map<string, string>) {
    st.initialized && (st.currentPage != page || |params| > 0)
  }

  /**
   * A move records where it came from: before `init`, and for the current page without
   * parameters, nothing changes; any other move makes the old page the previous page, and the
   * context holds the old page, the clock and every parameter, a parameter overriding the first two.
   */
  lemma NavigateRecordsOrigin(st: State, page: string, params: map<string, string>, now: int)
    ensures !Moves(st, page, params) ==> Navigate(st, page, params, now) == st
    ensures Moves(st, page, params) ==> var r := Navigate(st, page, params, now);
      && r.currentPage == page && r.previousPage == Some(st.currentPage) && r.initialized
      && r.context.Keys == {"fromPage", "timestamp"} + params.Keys
      && (forall k :: k in params ==> r.context[k] == Text(params[k]))
      && ("fromPage" !in params ==> r.context["fromPage"] == Text(st.currentPage))
      && ("timestamp" !in params ==> r.context["timestamp"] == Time(now))
  {
    if Moves(st, page, params) {
      var c := ContextFor(st.currentPage, now, params);
      assert Navigate(st, page, params, now) == State(page, Some(st.currentPage), c, true);
      ContextKeeps(st.currentPage, now, params);
    }
  }

  lemma ContextKeeps(from: string, now: int, params: map<string, string>)
    ensures var c := ContextFor(from, now, params);
      && c.Keys == {"fromPage", "timestamp"} + params.Keys
      && (forall k :: k in params ==> c[k] == Text(params[k]))
      && ("fromPage" !in params ==> c["fromPage"] == Text(from))
      && ("timestamp" !in params ==> c["timestamp"] == Time(now))
  {
  }

  /** Moving to the page just reached, without parameters, is no move. */
  lemma NavigateIdempotent(st: State, page: string, t1: int, t2: int)
    ensures Navigate(Navigate(st, page, map[], t1), page, map[], t2) == Navigate(st, page, map[], t1)
  {
  }

  /** After a move to another page or with parameters, going back returns to the page the move left. */
  lemma BackUndoesNavigate(st: State, page: string, params: map<string, string>, t1: int, t2: int, historyThrows: bool)
    requires st.initialized && st.currentPage != ""
    requires st.currentPage != page || |params| > 0
    requires "fromPage" in params ==> params["fromPage"] != ""
    ensures Back(Navigate(st, page, params, t1), historyThrows, t2).currentPage == st.currentPage
  {
    var mid := Navigate(st, page, params, t1);
    assert mid.context == ContextFor(st.currentPage, t1, params);
    assert CanGoBack(mid);
  }

  /** With a recorded way back from a non-empty page, two backs in a row return to where they started. */
  lemma TwoBacksReturn(st: State, h1: bool, h2: bool, t1: int, t2: int)
    requires st.initialized && st.currentPage != "" && CanGoBack(st)
    ensures var r := Back(Back(st, h1, t1), h2, t2);
      r.currentPage == st.currentPage && r.previousPage == st.previousPage
  {
    var mid := Back(st, h1, t1);
    if st.previousPage.value != st.currentPage {
      assert mid.context == ContextFor(st.currentPage, t1, map[]);
      assert CanGoBack(mid);
    }
  }

  /** Without a recorded way back and with a working history, the fields stay as they are. */
  lemma BackWithoutOrigin(st: State, now: int)
    requires !CanGoBack(st)
    ensures Back(st, false, now) == st
    ensures Back(st, true, now) == Navigate(st, "home", map[], now)
  {
  }

  /** The back button names the previous page exactly when it is one of the six named pages, and different pages get different texts. */
  lemma BackTextNamesPage(previous: Option<string>)
    ensures BackText(previous) != "← Back" <==> previous.Some? && previous.value in PageNames
    ensures forall p, q :: p in PageNames && q in PageNames && p != q ==> BackText(Some(p)) != BackText(Some(q))
  {
    assert "" !in PageNames;
    assert forall p :: p in PageNames ==> |BackText(Some(p))| > |"← Back"|;
    var prefix := "← Back to ";
    forall p, q | p in PageNames && q in PageNames && p != q
      ensures BackText(Some(p)) != BackText(Some(q))
    {
      assert BackText(Some(p))[|prefix|..] == PageNames[p];
      assert BackText(Some(q))[|prefix|..] == PageNames[q];
      assert PageNames[p] != PageNames[q];
    }
  }

  class Navigation {
    var currentPage: string
    var previousPage: Option<string>
    var navigationContext: Context
    var initialized: bool

    function Fields(): State
      reads this
    {
      State(currentPage, previousPage, navigationContext, initialized)
    }

    /** The fields the constructor sets; `init` is a separate step. */
    constructor ()
      ensures Fields() == Start
    {
      currentPage := "home";
      previousPage := None;
      navigationContext := map[];
      initialized := false;
    }

    method Init(hasContentArea: bool)
      modifies this
      ensures Fields() == Initialized(old(Fields()), hasContentArea)
    {
      if !hasContentArea {
        return;
      }
      initialized := true;
    }

    method NavigateTo(page: string, params: map<string, string>, now: int)
      modifies this
      ensures Fields() == Navigate(old(Fields()), page, params, now)
    {
      if !initialized {
        return;
      }
      if currentPage != page || |params| > 0 {
        previousPage := Some(currentPage);
        navigationContext := ContextFor(currentPage, now, params);
        currentPage := page;
      }
    }

    method NavigateBack(historyThrows: bool, now: int)
      modifies this
      ensures Fields() == Back(old(Fields()), historyThrows, now)
    {
      if previousPage.Some? && previousPage.value != ""
        && "fromPage" in navigationContext && Truthy(navigationContext["fromPage"])
      {
        NavigateTo(previousPage.value, map[], now);
      } else if historyThrows {
        NavigateTo("home", map[], now);
      }
    }

    /** `getBackButtonText()`: the previous page's name when it is one of the six named pages. */
    function GetBackButtonText(): (r: string)
      reads this
      ensures r != "← Back" <==> previousPage.Some? && previousPage.value in PageNames
      ensures previousPage.Some? && previousPage.value in PageNames ==> r == "← Back to " + PageNames[previousPage.value]
    {
      BackTextNamesPage(previousPage);
      BackText(previousPage)
    }
  }
}
