/**
 * app/HomeClient.jsx: the list of all faculties at "/", with the same URL-driven search and
 * 8-per-page pager as a campus page, and no suggestions.
 */
module HomeClientPage {
  import opened Wrappers
  import opened JsStrings
  import opened QueryString
  import opened FacultySearch

  /** What a render shows: the current page of faculties and the pager. */
  datatype View = View(items: seq<Faculty>, pager: Pager)

  class HomeClient {
    var pageParam: Option<string>
    var qParam: Option<string>
    var faculties: seq<Faculty>
    var currentPage: int
    var draftQuery: string

    /** `pageFromUrl` */
    function UrlPage(): int
      reads this
    {
      PageFromUrl(pageParam)
    }

    /** `searchParams.get("q") || ""` */
    function ActiveQuery(): string
      reads this
    {
      if qParam.Some? then qParam.value else ""
    }

    /** The current page is never 0. */
    predicate Valid()
      reads this
    {
      currentPage != 0
    }

    /** The first render: the page and the draft come from the URL; the list is empty until the snapshot. */
    constructor(pageParam: Option<string>, qParam: Option<string>)
      ensures Valid()
      ensures this.pageParam == pageParam && this.qParam == qParam && faculties == []
      ensures currentPage == UrlPage() && draftQuery == ActiveQuery()
    {
      this.pageParam := pageParam;
      this.qParam := qParam;
      faculties := [];
      currentPage := PageFromUrl(pageParam);
      draftQuery := if qParam.Some? then qParam.value else "";
    }

    /** The URL changed: when `pageFromUrl` or `activeQuery` differ, the page and the draft follow it. */
    method UrlChanged(newPageParam: Option<string>, newQParam: Option<string>)
      requires Valid()
      modifies this
      ensures Valid()
      ensures pageParam == newPageParam && qParam == newQParam && faculties == old(faculties)
      ensures var changed := UrlPage() != old(UrlPage()) || ActiveQuery() != old(ActiveQuery());
              (currentPage, draftQuery) == (if changed then (UrlPage(), ActiveQuery()) else (old(currentPage), old(draftQuery)))
    {
      var oldPage, oldQuery := UrlPage(), ActiveQuery();
      pageParam, qParam := newPageParam, newQParam;
      if UrlPage() != oldPage || ActiveQuery() != oldQuery {
        currentPage := UrlPage();
        draftQuery := ActiveQuery();
      }
    }

    /** The snapshot listener on `faculties` delivered the documents. */
    method SnapshotReceived(docs: seq<Faculty>)
      requires Valid()
      modifies this`faculties
      ensures Valid()
      ensures faculties == docs
    {
      faculties := docs;
    }

    /** Typing in the search box changes only the draft. */
    method DraftChanged(text: string)
      requires Valid()
      modifies this`draftQuery
      ensures Valid()
      ensures draftQuery == text
    {
      draftQuery := text;
    }

    /** `goToPage(p)`: the link to page `p` of "/", keeping the active query when it is not blank. */
    method GoToPage(p: int, encode: string -> string) returns (href: string)
      ensures href == Href("/", GoToPageParams(p, ActiveQuery()), encode)
    {
      var params: seq<Param> := [];
      params := Set(params, "page", IntToString(p));
      if Trim(ActiveQuery()) != "" {
        params := Set(params, "q", ActiveQuery());
      }
      href := "/?" + Render(params, encode);
    }

    /** `commitSearch()`: the link to page 1 of "/", with the trimmed draft when it is not empty. */
    method CommitSearch(encode: string -> string) returns (href: string)
      ensures href == Href("/", CommitSearchParams(draftQuery), encode)
    {
      var q := Trim(draftQuery);
      var params: seq<Param> := [];
      params := Set(params, "page", "1");
      if q != "" {
        params := Set(params, "q", q);
      }
      href := "/?" + Render(params, encode);
    }

    /** `filtered` */
    function Filtered(): seq<Faculty>
      reads this
    {
      Filter(faculties, ActiveQuery())
    }

    /** The render: at most 8 faculties of the current page, and the pager when there are more than 8. */
    function Rendered(): (v: View)
      reads this
      ensures |v.items| <= ItemsPerPage
      ensures v.pager.shown <==> |Filtered()| > ItemsPerPage
      ensures v.items == PageSlice(Filtered(), currentPage)
      ensures v.pager == PagerFor(currentPage, TotalPages(|Filtered()|))
      ensures forall f :: f in v.items ==> f in faculties && Matches(f, ActiveQuery())
    {
      var filtered := Filtered();
      PageSliceWindow(filtered, currentPage);
      TotalPagesIsCeiling(|filtered|);
      FilterMembers(faculties, ActiveQuery());
      View(PageSlice(filtered, currentPage), PagerFor(currentPage, TotalPages(|filtered|)))
    }
  }
}
