/**
 * app/page.js: the plain home page that fetches every faculty once, filters them as the user
 * types, and reports how many it shows.
 */
module HomePageView {
  import opened Wrappers
  import opened FacultySearch

  /** What a render shows. */
  datatype View = Loading | Listing(items: seq<Faculty>, shown: nat, total: nat)

  class HomePage {
    var faculties: seq<Faculty>
    var query: string
    var loading: bool

    /** While the fetch is pending the list is empty. */
    predicate Valid()
      reads this
    {
      loading ==> faculties == []
    }

    constructor()
      ensures Valid()
      ensures faculties == [] && query == "" && loading
    {
      faculties := [];
      query := "";
      loading := true;
    }

    /** The fetch of the faculty list resolved with `data`. */
    method FetchSucceeded(data: seq<Faculty>)
      requires Valid()
      modifies this`faculties, this`loading
      ensures Valid()
      ensures faculties == data && !loading
    {
      faculties := data;
      loading := false;
    }

    /** The fetch failed: loading ends and the list stays as it was, empty if it was pending. */
    method FetchFailed()
      requires Valid()
      modifies this`loading
      ensures Valid()
      ensures !loading
      ensures old(loading) ==> faculties == []
    {
      loading := false;
    }

    /** Typing in the search box. */
    method QueryChanged(text: string)
      requires Valid()
      modifies this`query
      ensures Valid()
      ensures query == text
    {
      query := text;
    }

    /** `filteredFaculties` */
    function Filtered(): seq<Faculty>
      reads this
    {
      Filter(faculties, query)
    }

    /**
     * The render: "Loading faculties..." until the fetch settles, then the matching faculties in
     * order and "Showing shown of total", where shown never exceeds total and equals it for an
     * empty query.
     */
    function Rendered(): (v: View)
      reads this
      ensures v.Loading? <==> loading
      ensures v.Listing? ==> v.total == |faculties| && v.shown == |v.items| <= v.total
      ensures v.Listing? ==> forall f :: f in v.items <==> f in faculties && Matches(f, query)
      ensures v.Listing? ==> v.items == Filtered()
      ensures v.Listing? && query == "" ==> v.items == faculties
    {
      if loading then Loading
      else
        FilterMembers(faculties, query);
        if query == "" then EmptyQueryKeepsAll(faculties); Listing(Filtered(), |Filtered()|, |faculties|)
        else Listing(Filtered(), |Filtered()|, |faculties|)
    }
  }
}
