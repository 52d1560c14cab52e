/**
 * The faculty-list logic that components/CampusHome.jsx, app/HomeClient.jsx and app/page.js
 * share: the case-insensitive name/department filter, the page number read from the URL, the
 * 8-per-page slicing and pager, the search suggestions, and the query strings of the links.
 */
module FacultySearch {
  import opened Wrappers
  import opened JsStrings
  import opened Json
  import opened QueryString

  /** A listed faculty: its document fields, together with `id`. */
  type Faculty = map<string, Value>

  const ItemsPerPage := 8

  /** `${f.name} ${f.department}`; a missing field reads "undefined". */
  function SearchText(f: Faculty): string {
    ToStr(Member(Some(Obj(f)), "name")) + " " + ToStr(Member(Some(Obj(f)), "department"))
  }

  /** The lower-cased search text contains the lower-cased query. */
  predicate Matches(f: Faculty, query: string) {
    Contains(ToLower(SearchText(f)), ToLower(query))
  }

  /** `faculties.filter(...)` with the predicate above. */
  function Filter(fs: seq<Faculty>, query: string): seq<Faculty> {
    if fs == [] then [] else (if Matches(fs[0], query) then [fs[0]] else []) + Filter(fs[1..], query)
  }

  /** The filter keeps exactly the matching faculties, and never more than it was given. */
  lemma {:induction false} FilterMembers(fs: seq<Faculty>, query: string)
    ensures |Filter(fs, query)| <= |fs|
    ensures forall f :: f in Filter(fs, query) <==> f in fs && Matches(f, query)
  {
    if fs != [] {
      FilterMembers(fs[1..], query);
      assert fs == [fs[0]] + fs[1..];
    }
  }

  /** The filter keeps the order: filtering a concatenation concatenates the filtered parts. */
  lemma {:induction false} FilterAppend(a: seq<Faculty>, b: seq<Faculty>, query: string)
    ensures Filter(a + b, query) == Filter(a, query) + Filter(b, query)
  {
    if a != [] {
      var ab := a + b;
      assert ab[0] == a[0] && ab[1..] == a[1..] + b;
      FilterAppend(a[1..], b, query);
      var h := if Matches(a[0], query) then [a[0]] else [];
      assert Filter(ab, query) == h + (Filter(a[1..], query) + Filter(b, query));
    } else {
      assert a + b == b;
    }
  }

  /** The empty query keeps every faculty. */
  lemma {:induction false} EmptyQueryKeepsAll(fs: seq<Faculty>)
    ensures Filter(fs, "") == fs
  {
    if fs != [] {
      assert Matches(fs[0], "");
      EmptyQueryKeepsAll(fs[1..]);
    }
  }

  /** `Number(searchParams.get("page")) || 1`: 0 (also an absent parameter) and `NaN` become 1. */
  function PageFromUrl(page: Option<string>): (p: int)
    ensures p != 0
  {
    if page.None? then 1
    else match ParseNumber(page.value)
      case Some(n) => if n == 0 then 1 else n
      case None => 1
  }

  /** A page written into the URL with `params.set("page", p)` reads back as `p`. */
  lemma PageFromUrlRoundTrip(p: int)
    requires p != 0
    ensures PageFromUrl(Some(IntToString(p))) == p
  {
    NumberOfIntToString(p);
  }

  /** `Math.ceil(n / ITEMS_PER_PAGE)` */
  function TotalPages(n: nat): nat {
    (n + ItemsPerPage - 1) / ItemsPerPage
  }

  /** The number of pages is the least one whose pages hold all `n` items. */
  lemma TotalPagesIsCeiling(n: nat)
    ensures TotalPages(n) * ItemsPerPage >= n
    ensures TotalPages(n) > 0 ==> (TotalPages(n) - 1) * ItemsPerPage < n
    ensures TotalPages(n) == 0 <==> n == 0
  {
  }

  /** `filtered.slice(startIndex, startIndex + ITEMS_PER_PAGE)` with `startIndex = (page - 1) * 8`. */
  function PageSlice<T>(xs: seq<T>, page: int): seq<T> {
    JsSlice(xs, (page - 1) * ItemsPerPage, (page - 1) * ItemsPerPage + ItemsPerPage)
  }

  function Min(a: int, b: int): int {
    if a <= b then a else b
  }

  /**
   * A page holds at most 8 items; page `p >= 1` holds the items from `(p - 1) * 8` up to
   * `p * 8`, as many of them as there are, so pages after the last are empty.
   */
  lemma PageSliceWindow<T>(xs: seq<T>, page: int)
    ensures |PageSlice(xs, page)| <= ItemsPerPage
    ensures page >= 1 ==>
              var lo := Min((page - 1) * ItemsPerPage, |xs|);
              PageSlice(xs, page) == xs[lo..Min(page * ItemsPerPage, |xs|)]
    ensures page > TotalPages(|xs|) ==> PageSlice(xs, page) == []
  {
  }

  /** The first `k` pages one after the other. */
  function Pages<T>(xs: seq<T>, k: nat): seq<T> {
    if k == 0 then [] else Pages(xs, k - 1) + PageSlice(xs, k)
  }

  lemma {:induction false} PagesPrefix<T>(xs: seq<T>, k: nat)
    ensures Pages(xs, k) == xs[..Min(k * ItemsPerPage, |xs|)]
  {
    if k > 0 {
      PagesPrefix(xs, k - 1);
      PageSliceWindow(xs, k);
      var a, b := Min((k - 1) * ItemsPerPage, |xs|), Min(k * ItemsPerPage, |xs|);
      assert xs[..a] + xs[a..b] == xs[..b];
    }
  }

  /** The pages from 1 to `totalPages` partition the list: together, in order, they are the list. */
  lemma PagesPartition<T>(xs: seq<T>)
    ensures Pages(xs, TotalPages(|xs|)) == xs
  {
    PagesPrefix(xs, TotalPages(|xs|));
    TotalPagesIsCeiling(|xs|);
  }

  /** The pager under the grid. */
  datatype Pager = Pager(shown: bool, prevDisabled: bool, nextDisabled: bool)

  /** `totalPages > 1`, with Prev disabled on page 1 and Next on page `totalPages`. */
  function PagerFor(currentPage: int, totalPages: nat): (r: Pager)
    ensures r.shown <==> totalPages > 1
    ensures r.shown && 1 <= currentPage <= totalPages ==>
              (!r.prevDisabled ==> currentPage - 1 >= 1) && (!r.nextDisabled ==> currentPage + 1 <= totalPages)
    ensures r.prevDisabled <==> currentPage == 1
    ensures r.nextDisabled <==> currentPage == totalPages
  {
    Pager(totalPages > 1, currentPage == 1, currentPage == totalPages)
  }

  /** `(f[key] || "")` for a field that holds a string, and "" for any other value. */
  function FieldText(f: Faculty, key: string): string {
    match Member(Some(Obj(f)), key)
    case Some(Str(s)) => s
    case _ => ""
  }

  /** The suggestions one faculty offers for the lower-cased query `q`: name, then department. */
  function CandidatesOf(f: Faculty, q: string): seq<string> {
    var name := Trim(FieldText(f, "name"));
    var dept := Trim(FieldText(f, "department"));
    (if name != "" && Contains(ToLower(name), q) then [name] else [])
      + (if dept != "" && Contains(ToLower(dept), q) then [dept] else [])
  }

  /** `faculties.flatMap(...)` */
  function Candidates(fs: seq<Faculty>, q: string): seq<string> {
    if fs == [] then [] else CandidatesOf(fs[0], q) + Candidates(fs[1..], q)
  }

  /** `[...new Set(xs)]` after the strings in `seen`: the first occurrence of each, in order. */
  function Dedup(xs: seq<string>, seen: set<string>): seq<string> {
    if xs == [] then []
    else if xs[0] in seen then Dedup(xs[1..], seen)
    else [xs[0]] + Dedup(xs[1..], seen + {xs[0]})
  }

  /** `.slice(0, n)` */
  function Take(xs: seq<string>, n: nat): seq<string> {
    if |xs| <= n then xs else xs[..n]
  }

  /** The suggestions for the draft query. */
  function Suggestions(fs: seq<Faculty>, draftQuery: string): seq<string> {
    var q := ToLower(Trim(draftQuery));
    if |q| > 0 then Take(Dedup(Candidates(fs, q), {}), 8) else []
  }

  /** `Dedup` keeps a string exactly when it occurs and was not seen before. */
  lemma {:induction false} DedupMembers(xs: seq<string>, seen: set<string>)
    ensures forall x :: x in Dedup(xs, seen) <==> x in xs && x !in seen
  {
    if xs != [] {
      DedupMembers(xs[1..], seen);
      DedupMembers(xs[1..], seen + {xs[0]});
      assert xs == [xs[0]] + xs[1..];
    }
  }

  /** `Dedup` never repeats a string. */
  lemma {:induction false} DedupDistinct(xs: seq<string>, seen: set<string>)
    ensures forall i, j :: 0 <= i < j < |Dedup(xs, seen)| ==> Dedup(xs, seen)[i] != Dedup(xs, seen)[j]
  {
    if xs != [] {
      DedupDistinct(xs[1..], seen);
      DedupDistinct(xs[1..], seen + {xs[0]});
      DedupMembers(xs[1..], seen + {xs[0]});
    }
  }

  /**
   * First-occurrence order: one more string at the end adds it at the end of the result when it
   * is new, and nothing otherwise.
   */
  lemma {:induction false} DedupSnoc(xs: seq<string>, x: string, seen: set<string>)
    ensures Dedup(xs + [x], seen) == Dedup(xs, seen) + (if x in seen || x in xs then [] else [x])
  {
    if xs != [] {
      assert (xs + [x])[1..] == xs[1..] + [x];
      DedupSnoc(xs[1..], x, seen);
      DedupSnoc(xs[1..], x, seen + {xs[0]});
      assert xs == [xs[0]] + xs[1..];
    }
  }

  /** Every candidate is the trimmed, non-empty name or department of a listed faculty matching `q`. */
  lemma {:induction false} CandidatesFrom(fs: seq<Faculty>, q: string)
    ensures forall s :: s in Candidates(fs, q) ==>
              exists f :: f in fs && (s == Trim(FieldText(f, "name")) || s == Trim(FieldText(f, "department")))
                          && s != "" && Contains(ToLower(s), q)
  {
    if fs != [] {
      CandidatesFrom(fs[1..], q);
      assert fs == [fs[0]] + fs[1..];
    }
  }

  /**
   * Every trimmed, non-empty name and department of a listed faculty that contains `q` is a
   * candidate.
   */
  lemma {:induction false} CandidatesComplete(fs: seq<Faculty>, q: string)
    ensures forall f :: f in fs ==>
              var name, dept := Trim(FieldText(f, "name")), Trim(FieldText(f, "department"));
              && (name != "" && Contains(ToLower(name), q) ==> name in Candidates(fs, q))
              && (dept != "" && Contains(ToLower(dept), q) ==> dept in Candidates(fs, q))
  {
    if fs != [] {
      CandidatesComplete(fs[1..], q);
      assert fs == [fs[0]] + fs[1..];
    }
  }

  /**
   * Suggestions are empty for a blank draft; otherwise they are the first (at most 8) of the
   * distinct candidates in first-occurrence order, so all different, each a trimmed name or
   * department of a listed faculty that contains the lower-cased trimmed draft.
   */
  lemma SuggestionsSpec(fs: seq<Faculty>, draftQuery: string)
    ensures Trim(draftQuery) == "" ==> Suggestions(fs, draftQuery) == []
    ensures |Suggestions(fs, draftQuery)| <= 8
    ensures var r := Suggestions(fs, draftQuery);
            forall i, j :: 0 <= i < j < |r| ==> r[i] != r[j]
    ensures forall s :: s in Suggestions(fs, draftQuery) ==>
              exists f :: f in fs && (s == Trim(FieldText(f, "name")) || s == Trim(FieldText(f, "department")))
                          && s != "" && Contains(ToLower(s), ToLower(Trim(draftQuery)))
    ensures Trim(draftQuery) != "" ==>
              var d := Dedup(Candidates(fs, ToLower(Trim(draftQuery))), {});
              Suggestions(fs, draftQuery) == d[..Min(8, |d|)]
  {
    var q := ToLower(Trim(draftQuery));
    if |q| > 0 {
      var d := Dedup(Candidates(fs, q), {});
      DedupDistinct(Candidates(fs, q), {});
      DedupMembers(Candidates(fs, q), {});
      CandidatesFrom(fs, q);
      forall s | s in Take(d, 8) ensures s in d {
      }
    }
  }

  /**
   * When at most 8 distinct names and departments match a non-blank draft, every one of them is
   * suggested.
   */
  lemma SuggestionsComplete(fs: seq<Faculty>, draftQuery: string)
    requires Trim(draftQuery) != ""
    requires |Dedup(Candidates(fs, ToLower(Trim(draftQuery))), {})| <= 8
    ensures var q := ToLower(Trim(draftQuery));
            forall f :: f in fs ==>
              var name, dept := Trim(FieldText(f, "name")), Trim(FieldText(f, "department"));
              && (name != "" && Contains(ToLower(name), q) ==> name in Suggestions(fs, draftQuery))
              && (dept != "" && Contains(ToLower(dept), q) ==> dept in Suggestions(fs, draftQuery))
  {
    var q := ToLower(Trim(draftQuery));
    CandidatesComplete(fs, q);
    DedupMembers(Candidates(fs, q), {});
  }

  /** `goToPage(p)`: the page, then the active query when it is not blank. */
  function GoToPageParams(p: int, activeQuery: string): seq<Param> {
    var ps := Set([], "page", IntToString(p));
    if Trim(activeQuery) != "" then Set(ps, "q", activeQuery) else ps
  }

  /** `goToPage(p)` links to page `p` and keeps the active query exactly when it is not blank. */
  lemma GoToPageParamsSpec(p: int, activeQuery: string)
    ensures Get(GoToPageParams(p, activeQuery), "page") == Some(IntToString(p))
    ensures Get(GoToPageParams(p, activeQuery), "q") == if Trim(activeQuery) != "" then Some(activeQuery) else None
    ensures |GoToPageParams(p, activeQuery)| == if Trim(activeQuery) != "" then 2 else 1
  {
    var ps := Set([], "page", IntToString(p));
    GetSet([], "page", IntToString(p), "q");
    GetSet([], "page", IntToString(p), "page");
    if Trim(activeQuery) != "" {
      SetFresh(ps, "q", activeQuery);
      GetSet(ps, "q", activeQuery, "q");
      GetSet(ps, "q", activeQuery, "page");
    }
  }

  /** `commitSearch()`: page 1, then the trimmed draft when it is not empty. */
  function CommitSearchParams(draftQuery: string): seq<Param> {
    var q := Trim(draftQuery);
    var ps := Set([], "page", "1");
    if q != "" then Set(ps, "q", q) else ps
  }

  /** `commitSearch()` goes back to page 1 and carries the trimmed draft exactly when it is not empty. */
  lemma CommitSearchParamsSpec(draftQuery: string)
    ensures Get(CommitSearchParams(draftQuery), "page") == Some("1")
    ensures Get(CommitSearchParams(draftQuery), "q") == if Trim(draftQuery) != "" then Some(Trim(draftQuery)) else None
    ensures |CommitSearchParams(draftQuery)| == if Trim(draftQuery) != "" then 2 else 1
  {
    var ps := Set([], "page", "1");
    GetSet([], "page", "1", "q");
    GetSet([], "page", "1", "page");
    if Trim(draftQuery) != "" {
      SetFresh(ps, "q", Trim(draftQuery));
      GetSet(ps, "q", Trim(draftQuery), "q");
      GetSet(ps, "q", Trim(draftQuery), "page");
    }
  }

  /**
   * Following a link built by `goToPage(p)` lands on page `p` with the same active query,
   * whenever the encoding is one the query string decodes.
   */
  lemma GoToPageLands(p: int, activeQuery: string, encode: string -> string, decode: string -> string)
    requires p != 0
    requires Trim(activeQuery) != ""
    requires Codec(encode, decode)
    ensures var back := Parse(Render(GoToPageParams(p, activeQuery), encode), decode);
            PageFromUrl(Get(back, "page")) == p && Get(back, "q") == Some(activeQuery)
  {
    ParseRender(GoToPageParams(p, activeQuery), encode, decode);
    GoToPageParamsSpec(p, activeQuery);
    PageFromUrlRoundTrip(p);
  }
}
