/**
 * components/CampusHome.jsx: one campus's faculty list. The state is what the component keeps
 * between renders (the URL's `page` and `q`, the faculty snapshot, the current page, the draft
 * query, the suggestion box, the page remembered before a search); the effects and the event
 * handlers are methods, and what a render shows is a function of the state.
 */
module CampusHomePage {
  import opened Wrappers
  import opened JsStrings
  import opened Json
  import opened QueryString
  import opened CampusConfig
  import opened FacultySearch

  const LoadFailed := "Failed to load faculty list."

  /** What the page renders: the "Campus not found." notice, or the list. */
  datatype View =
    | CampusNotFound
    | Listing(loadError: Option<string>, items: seq<Faculty>, pager: Pager, suggestions: seq<string>, clearButton: bool)

  /** `clearSearch()`: the remembered page when it is greater than 1, nothing otherwise. */
  function ClearSearchParams(pageBeforeSearch: int): seq<Param> {
    if pageBeforeSearch > 1 then Set([], "page", IntToString(pageBeforeSearch)) else []
  }

  /** `applySuggestion(text)`: page 1 and the suggestion as the query. */
  function ApplySuggestionParams(text: string): seq<Param> {
    Set(Set([], "page", "1"), "q", text)
  }

  /**
   * Following the link of `clearSearch()` lands on the remembered page when it is greater than 1
   * and on page 1 otherwise, with no query.
   */
  lemma ClearSearchLands(pageBeforeSearch: int, encode: string -> string, decode: string -> string)
    requires Codec(encode, decode)
    ensures var back := Parse(Render(ClearSearchParams(pageBeforeSearch), encode), decode);
            && PageFromUrl(Get(back, "page")) == (if pageBeforeSearch > 1 then pageBeforeSearch else 1)
            && Get(back, "q") == None
  {
    ParseRender(ClearSearchParams(pageBeforeSearch), encode, decode);
    if pageBeforeSearch > 1 {
      GetSet([], "page", IntToString(pageBeforeSearch), "page");
      GetSet([], "page", IntToString(pageBeforeSearch), "q");
      PageFromUrlRoundTrip(pageBeforeSearch);
    }
  }

  /** Following the link of `applySuggestion(text)` lands on page 1 with the suggestion as the query. */
  lemma ApplySuggestionLands(text: string, encode: string -> string, decode: string -> string)
    requires Codec(encode, decode)
    ensures var back := Parse(Render(ApplySuggestionParams(text), encode), decode);
            PageFromUrl(Get(back, "page")) == 1 && Get(back, "q") == Some(text)
  {
    var ps := Set([], "page", "1");
    ParseRender(ApplySuggestionParams(text), encode, decode);
    GetSet([], "page", "1", "page");
    GetSet([], "page", "1", "q");
    GetSet(ps, "q", text, "page");
    GetSet(ps, "q", text, "q");
    PageFromUrlRoundTrip(1);
  }

  /** Following the link of `commitSearch()` lands on page 1 with the trimmed draft as the query. */
  lemma CommitSearchLands(draftQuery: string, encode: string -> string, decode: string -> string)
    requires Codec(encode, decode)
    ensures var back := Parse(Render(CommitSearchParams(draftQuery), encode), decode);
            && PageFromUrl(Get(back, "page")) == 1
            && Get(back, "q") == if Trim(draftQuery) != "" then Some(Trim(draftQuery)) else None
  {
    ParseRender(CommitSearchParams(draftQuery), encode, decode);
    CommitSearchParamsSpec(draftQuery);
    PageFromUrlRoundTrip(1);
  }

  class CampusHome {
    /** `params.campus` */
    const campusSlug: string
    /** `searchParams.get("page")` and `searchParams.get("q")` */
    var pageParam: Option<string>
    var qParam: Option<string>
    var faculties: seq<Faculty>
    var loadError: Option<string>
    var currentPage: int
    var draftQuery: string
    var showSuggestions: bool
    /** `pageBeforeSearch.current` */
    var pageBeforeSearch: int

    /** `pageFromUrl` */
    function UrlPage(): int
      reads this
    {
      PageFromUrl(pageParam)
    }

    /** `searchParams.get("q") || ""` */
    function ActiveQuery(): string
      reads this
    {
      if qParam.Some? then qParam.value else ""
    }

    /** The listener on the campus's faculties is registered only for a valid, non-empty slug. */
    predicate Subscribed()
      reads this
    {
      campusSlug != "" && IsValidCampus(campusSlug)
    }

    /**
     * The pages are never 0; an unsubscribed page never holds faculties or an error, and a page
     * showing an error holds no faculties.
     */
    predicate Valid()
      reads this
    {
      && currentPage != 0
      && pageBeforeSearch != 0
      && (!Subscribed() ==> faculties == [] && loadError.None?)
      && (loadError.Some? ==> faculties == [])
    }

    /** The first render and its effects: state from the URL, and the page remembered when no query is active. */
    constructor(campusSlug: string, pageParam: Option<string>, qParam: Option<string>)
      ensures Valid()
      ensures this.campusSlug == campusSlug && this.pageParam == pageParam && this.qParam == qParam
      ensures faculties == [] && loadError.None? && !showSuggestions
      ensures currentPage == UrlPage() && draftQuery == ActiveQuery()
      ensures pageBeforeSearch == if Trim(ActiveQuery()) == "" then UrlPage() else 1
    {
      this.campusSlug := campusSlug;
      this.pageParam := pageParam;
      this.qParam := qParam;
      faculties := [];
      loadError := None;
      showSuggestions := false;
      currentPage := PageFromUrl(pageParam);
      draftQuery := if qParam.Some? then qParam.value else "";
      pageBeforeSearch := 1;
      new;
      if Trim(ActiveQuery()) == "" {
        pageBeforeSearch := UrlPage();
      }
    }

    /**
     * The URL changed. When `pageFromUrl` or `activeQuery` differ, the state follows the URL, and
     * the remembered page follows it too, but only while no query is active.
     */
    method UrlChanged(newPageParam: Option<string>, newQParam: Option<string>)
      requires Valid()
      modifies this
      ensures Valid()
      ensures pageParam == newPageParam && qParam == newQParam
      ensures faculties == old(faculties) && loadError == old(loadError) && showSuggestions == old(showSuggestions)
      ensures var changed := UrlPage() != old(UrlPage()) || ActiveQuery() != old(ActiveQuery());
              && (currentPage, draftQuery) == (if changed then (UrlPage(), ActiveQuery()) else (old(currentPage), old(draftQuery)))
              && pageBeforeSearch == (if changed && Trim(ActiveQuery()) == "" then UrlPage() else old(pageBeforeSearch))
      ensures pageBeforeSearch != old(pageBeforeSearch) ==> Trim(ActiveQuery()) == ""
    {
      var oldPage, oldQuery := UrlPage(), ActiveQuery();
      pageParam, qParam := newPageParam, newQParam;
      if UrlPage() != oldPage || ActiveQuery() != oldQuery {
        currentPage := UrlPage();
        draftQuery := ActiveQuery();
        if Trim(ActiveQuery()) == "" {
          pageBeforeSearch := UrlPage();
        }
      }
    }

    /** The snapshot listener delivered the faculty documents. */
    method SnapshotReceived(docs: seq<Faculty>)
      requires Valid() && Subscribed()
      modifies this`faculties, this`loadError
      ensures Valid()
      ensures faculties == docs && loadError.None?
    {
      faculties := docs;
      loadError := None;
    }

    /** The snapshot listener failed: the message (or a default for an empty one) and no faculties. */
    method SnapshotFailed(message: string)
      requires Valid() && Subscribed()
      modifies this`faculties, this`loadError
      ensures Valid()
      ensures faculties == [] && loadError == Some(if message == "" then LoadFailed else message)
    {
      loadError := Some(if message == "" then LoadFailed else message);
      faculties := [];
    }

    /** Typing in the search box. */
    method DraftChanged(text: string)
      requires Valid()
      modifies this`draftQuery, this`showSuggestions
      ensures Valid()
      ensures draftQuery == text && showSuggestions
    {
      draftQuery := text;
      showSuggestions := true;
    }

    /** Focusing the search box opens the suggestions only when the draft is not blank. */
    method Focused()
      requires Valid()
      modifies this`showSuggestions
      ensures Valid()
      ensures showSuggestions == (old(showSuggestions) || Trim(draftQuery) != "")
    {
      if Trim(draftQuery) != "" {
        showSuggestions := true;
      }
    }

    /** A click outside the search box closes the suggestions. */
    method ClickedOutside()
      requires Valid()
      modifies this`showSuggestions
      ensures Valid()
      ensures !showSuggestions
    {
      showSuggestions := false;
    }

    /** `goToPage(p)`: the link to page `p`, keeping the active query when it is not blank. */
    method GoToPage(p: int, encode: string -> string) returns (href: string)
      ensures href == Href("/" + campusSlug, GoToPageParams(p, ActiveQuery()), encode)
    {
      var params: seq<Param> := [];
      params := Set(params, "page", IntToString(p));
      if Trim(ActiveQuery()) != "" {
        params := Set(params, "q", ActiveQuery());
      }
      href := "/" + campusSlug + "?" + Render(params, encode);
    }

    /** `commitSearch()`: closes the suggestions and links to page 1 of the trimmed draft. */
    method CommitSearch(encode: string -> string) returns (href: string)
      requires Valid()
      modifies this`showSuggestions
      ensures Valid()
      ensures !showSuggestions
      ensures href == Href("/" + campusSlug, CommitSearchParams(draftQuery), encode)
    {
      showSuggestions := false;
      var q := Trim(draftQuery);
      var params: seq<Param> := [];
      params := Set(params, "page", "1");
      if q != "" {
        params := Set(params, "q", q);
      }
      href := "/" + campusSlug + "?" + Render(params, encode);
    }

    /** `clearSearch()`: empties the draft and links back to the remembered page. */
    method ClearSearch(encode: string -> string) returns (href: string)
      requires Valid()
      modifies this`draftQuery, this`showSuggestions
      ensures Valid()
      ensures draftQuery == "" && !showSuggestions
      ensures href == Href("/" + campusSlug, ClearSearchParams(pageBeforeSearch), encode)
      ensures pageBeforeSearch <= 1 ==> href == "/" + campusSlug
    {
      draftQuery := "";
      showSuggestions := false;
      var params: seq<Param> := [];
      var pageToRestore := pageBeforeSearch;
      if pageToRestore > 1 {
        params := Set(params, "page", IntToString(pageToRestore));
      }
      var query := Render(params, encode);
      href := "/" + campusSlug + (if query != "" then "?" + query else "");
      RenderNonEmpty(params, encode);
    }

    /** `applySuggestion(text)`: the suggestion becomes the draft, and the link is page 1 of it. */
    method ApplySuggestion(text: string, encode: string -> string) returns (href: string)
      requires Valid()
      modifies this`draftQuery, this`showSuggestions
      ensures Valid()
      ensures draftQuery == text && !showSuggestions
      ensures href == Href("/" + campusSlug, ApplySuggestionParams(text), encode)
    {
      draftQuery := text;
      showSuggestions := false;
      var params: seq<Param> := [];
      params := Set(params, "page", "1");
      params := Set(params, "q", text);
      href := "/" + campusSlug + "?" + Render(params, encode);
    }

    /** `filtered` */
    function Filtered(): seq<Faculty>
      reads this
    {
      Filter(faculties, ActiveQuery())
    }

    /**
     * The render: "Campus not found." for a non-empty invalid slug; otherwise the error, the
     * current page of at most 8 faculties, the pager, and the suggestions when the box is open.
     */
    function Rendered(): (v: View)
      reads this
      ensures v.CampusNotFound? <==> campusSlug != "" && !IsValidCampus(campusSlug)
      ensures v.Listing? ==> |v.items| <= ItemsPerPage && |v.suggestions| <= 8
      ensures v.Listing? ==> v.items == PageSlice(Filtered(), currentPage)
      ensures v.Listing? ==> v.pager == PagerFor(currentPage, TotalPages(|Filtered()|))
      ensures v.Listing? ==> forall f :: f in v.items ==> f in faculties && Matches(f, ActiveQuery())
      ensures v.Listing? ==> (v.pager.shown <==> |Filtered()| > ItemsPerPage)
      ensures v.Listing? && v.suggestions != [] ==> showSuggestions && Trim(draftQuery) != ""
      ensures v.Listing? ==> v.suggestions == if showSuggestions then Suggestions(faculties, draftQuery) else []
    {
      if campusSlug != "" && !IsValidCampus(campusSlug) then CampusNotFound
      else
        var filtered := Filtered();
        var suggestions := Suggestions(faculties, draftQuery);
        PageSliceWindow(filtered, currentPage);
        SuggestionsSpec(faculties, draftQuery);
        TotalPagesIsCeiling(|filtered|);
        FilterMembers(faculties, ActiveQuery());
        Listing(loadError, PageSlice(filtered, currentPage), PagerFor(currentPage, TotalPages(|filtered|)),
                if showSuggestions && |suggestions| > 0 then suggestions else [],
                draftQuery != "" || ActiveQuery() != "")
    }
  }
}
