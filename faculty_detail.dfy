/**
 * components/FacultyDetail.jsx: one faculty's page. Who may rate it and which panel the "Write a
 * Review" box shows, the link back to the list, the load of the faculty and its reviews, and the
 * "Show more" counter over the reviews.
 */
module FacultyDetailPage {
  import opened Wrappers
  import opened JsStrings
  import opened QueryString
  import opened CampusConfig
  import opened FacultySearch
  import opened Store

  const ReviewsInitial := 3
  const ReviewsPerPage := 3

  /** The signed-in user, as far as this page looks at it. */
  datatype User = User(email: Option<string>)

  /** `canRateThisCampus`: a user, a non-empty campus of theirs, and it is this page's campus. */
  predicate CanRateThisCampus(user: Option<User>, userCampus: Option<string>, campusSlug: string) {
    user.Some? && userCampus.Some? && userCampus.value != "" && userCampus.value == campusSlug
  }

  /** The content of the "Write a Review" box. */
  datatype Panel =
    | SignInPrompt
    | CampusPicker(options: seq<(string, string)>)
    | OtherCampusNotice(campusLabel: Option<string>)
    | ReviewFormShown

  /** `campus?.label ?? slug` for each dual-campus slug: the buttons of the picker. */
  function PickerOptions(slugs: seq<string>): (r: seq<(string, string)>)
    ensures |r| == |slugs|
    ensures forall i :: 0 <= i < |slugs| ==> r[i].0 == slugs[i]
  {
    if slugs == [] then []
    else
      var c := GetCampusBySlug(slugs[0]);
      [(slugs[0], if c.Some? then c.value.longLabel else slugs[0])] + PickerOptions(slugs[1..])
  }

  /**
   * The branches of the box, in order: signed out; no campus yet with a dual-campus email;
   * not allowed to rate here (naming the user's own campus when it is a known one); the form.
   */
  function FormPanel(user: Option<User>, userCampus: Option<string>, campusSlug: string): Panel {
    if user.None? then SignInPrompt
    else if userCampus.None? && IsDualCampusEmail(user.value.email) then CampusPicker(DualCampusOptions())
    else if !CanRateThisCampus(user, userCampus, campusSlug) then
      OtherCampusNotice(
        if userCampus.Some? && userCampus.value != "" && GetCampusBySlug(userCampus.value).Some?
        then Some(GetCampusBySlug(userCampus.value).value.longLabel) else None)
    else ReviewFormShown
  }

  /**
   * The form appears exactly when the user may rate this campus; signed-out users always get the
   * sign-in text; the picker appears only for a user without a campus whose email is the shared
   * Vellore/Chennai one, and offers those two campuses by name.
   */
  lemma FormPanelSpec(user: Option<User>, userCampus: Option<string>, campusSlug: string)
    ensures FormPanel(user, userCampus, campusSlug).ReviewFormShown? <==> CanRateThisCampus(user, userCampus, campusSlug)
    ensures FormPanel(user, userCampus, campusSlug).SignInPrompt? <==> user.None?
    ensures FormPanel(user, userCampus, campusSlug).CampusPicker? <==>
              user.Some? && userCampus.None? && IsDualCampusEmail(user.value.email)
    ensures FormPanel(user, userCampus, campusSlug).CampusPicker? ==>
              FormPanel(user, userCampus, campusSlug).options == DualCampusOptions()
  {
  }

  /** The picker offers the Vellore and Chennai campuses, by name. */
  function DualCampusOptions(): (r: seq<(string, string)>)
    ensures r == [("vit-v", "Vellore Campus"), ("vit-c", "Chennai Campus")]
  {
    DualCampusLookups();
    var opts := PickerOptions(DualCampusSlugs);
    assert opts == [opts[0]] + PickerOptions(["vit-c"]);
    opts
  }

  lemma DualCampusLookups()
    ensures GetCampusBySlug("vit-v") == Some(Campus("vit-v", "Vellore Campus", "Vellore"))
    ensures GetCampusBySlug("vit-c") == Some(Campus("vit-c", "Chennai Campus", "Chennai"))
  {
    var rest := Campuses[1..];
    assert Campuses[0].slug == "vit-ap";
    assert rest[0] == Campus("vit-v", "Vellore Campus", "Vellore");
    assert rest[1..][0] == Campus("vit-c", "Chennai Campus", "Chennai");
    assert Find(Campuses, "vit-v") == Find(rest, "vit-v");
    assert Find(Campuses, "vit-c") == Find(rest, "vit-c") == Find(rest[1..], "vit-c");
  }

  /** The query of the back link: `page`, then `q`, each only when present and not empty. */
  function BackParams(page: Option<string>, q: Option<string>): seq<Param> {
    (if page.Some? && page.value != "" then [Param("page", page.value)] else [])
      + (if q.Some? && q.value != "" then [Param("q", q.value)] else [])
  }

  /** `backHref`: "/" and the campus, with "?" and the query only when there is a query. */
  function BackHref(campusSlug: string, page: Option<string>, q: Option<string>, encode: string -> string): string {
    var ps := BackParams(page, q);
    "/" + campusSlug + (if ps != [] then "?" + Render(ps, encode) else "")
  }

  /**
   * The back link is the bare campus path exactly when neither `page` nor `q` is present, and
   * reading its query back gives whichever of the two were present, unchanged.
   */
  lemma BackHrefSpec(campusSlug: string, page: Option<string>, q: Option<string>, encode: string -> string, decode: string -> string)
    requires Codec(encode, decode)
    ensures BackHref(campusSlug, page, q, encode) == "/" + campusSlug <==>
              (page.None? || page.value == "") && (q.None? || q.value == "")
    ensures var back := Parse(Render(BackParams(page, q), encode), decode);
            && Get(back, "page") == (if page.Some? && page.value != "" then page else None)
            && Get(back, "q") == (if q.Some? && q.value != "" then q else None)
  {
    var ps := BackParams(page, q);
    RenderNonEmpty(ps, encode);
    ParseRender(ps, encode, decode);
    if ps != [] {
      assert |BackHref(campusSlug, page, q, encode)| > |"/" + campusSlug|;
    }
  }

  /** What the page renders, in order of precedence. */
  datatype View = Loading | CampusNotFound | FacultyNotFound | Detail(faculty: Faculty, reviews: seq<Review>, showMore: Option<nat>)

  class FacultyDetail {
    /** The route parameters `id` and `campus`. */
    var id: string
    var campusSlug: string
    var faculty: Option<Faculty>
    var reviews: seq<Review>
    var loading: bool
    var visibleCount: int

    /** The load effect reads Firestore only for a non-empty id and a non-empty valid campus. */
    predicate LoadStarts()
      reads this
    {
      id != "" && campusSlug != "" && IsValidCampus(campusSlug)
    }

    /** The counter never goes below 0, and nothing is loaded while loading. */
    predicate Valid()
      reads this
    {
      && 0 <= visibleCount
      && (loading ==> faculty.None? && reviews == [])
    }

    /** The first render: loading, nothing loaded, 3 reviews visible. */
    constructor(id: string, campusSlug: string)
      ensures Valid()
      ensures this.id == id && this.campusSlug == campusSlug
      ensures loading && faculty.None? && reviews == [] && visibleCount == ReviewsInitial
      ensures Rendered() == Loading
    {
      this.id := id;
      this.campusSlug := campusSlug;
      faculty := None;
      reviews := [];
      loading := true;
      visibleCount := ReviewsInitial;
    }

    /**
     * The load finished. `None` is a load that threw: only `loading` is cleared. Otherwise the
     * faculty document (`None` when it does not exist) and the reviews in the order
     * the read returned them.
     */
    method LoadFinished(outcome: Option<(Option<Faculty>, seq<Review>)>)
      requires Valid() && LoadStarts()
      modifies this`faculty, this`reviews, this`loading
      ensures Valid()
      ensures !loading
      ensures outcome.None? ==> faculty == old(faculty) && reviews == old(reviews)
      ensures outcome.Some? ==> faculty == outcome.value.0 && reviews == outcome.value.1
    {
      if outcome.Some? {
        faculty := outcome.value.0;
        reviews := outcome.value.1;
      }
      loading := false;
    }

    /**
     * The route changed. A new id puts the counter back to 3; `loading` is not set again, so the
     * previous faculty stays on screen until the next load finishes.
     */
    method RouteChanged(newId: string, newCampusSlug: string)
      requires Valid()
      modifies this`id, this`campusSlug, this`visibleCount
      ensures Valid()
      ensures id == newId && campusSlug == newCampusSlug
      ensures visibleCount == if newId != old(id) then ReviewsInitial else old(visibleCount)
    {
      if newId != id {
        visibleCount := ReviewsInitial;
      }
      id, campusSlug := newId, newCampusSlug;
    }

    /** `loadMoreReviews()` */
    method LoadMore()
      requires Valid()
      modifies this`visibleCount
      ensures Valid()
      ensures visibleCount == Min(old(visibleCount) + ReviewsPerPage, |reviews|)
      ensures old(HasMore()) ==> old(visibleCount) < visibleCount <= old(visibleCount) + ReviewsPerPage && visibleCount <= |reviews|
      ensures old(HasMore()) ==> old(VisibleReviews()) <= VisibleReviews()
    {
      visibleCount := Min(visibleCount + ReviewsPerPage, |reviews|);
    }

    /** `reviews.slice(0, visibleCount)`: the first `visibleCount` reviews as loaded. */
    function VisibleReviews(): (r: seq<Review>)
      requires Valid()
      reads this
      ensures r == reviews[..Min(visibleCount, |reviews|)]
    {
      JsSlice(reviews, 0, visibleCount)
    }

    /** `hasMore` */
    predicate HasMore()
      reads this
    {
      visibleCount < |reviews|
    }

    /** `showSeeMore`: more than 3 reviews, not all of them visible. */
    predicate ShowSeeMore()
      reads this
    {
      |reviews| > ReviewsInitial && HasMore()
    }

    /** `remainingCount`, and `nextBatch`, the size of the next step. */
    function RemainingCount(): int
      reads this
    {
      |reviews| - visibleCount
    }

    function NextBatch(): (n: int)
      reads this
      ensures ShowSeeMore() ==> 1 <= n <= ReviewsPerPage && n <= RemainingCount()
    {
      Min(ReviewsPerPage, RemainingCount())
    }

    /**
     * The render, in order: loading; an invalid campus; a missing faculty; the page with its
     * visible reviews and, when "Show more" is shown, the positive number of reviews left.
     */
    function Rendered(): (v: View)
      requires Valid()
      reads this
      ensures v.Loading? <==> loading
      ensures v.CampusNotFound? <==> !loading && !IsValidCampus(campusSlug)
      ensures v.FacultyNotFound? <==> !loading && IsValidCampus(campusSlug) && faculty.None?
      ensures v.Detail? ==> v.faculty == faculty.value
      ensures v.Detail? ==> v.reviews == VisibleReviews() && |v.reviews| <= |reviews|
      ensures v.Detail? ==> (v.showMore.Some? <==> ShowSeeMore()) && (v.showMore.Some? ==> v.showMore.value == RemainingCount() > 0)
    {
      if loading then Loading
      else if !IsValidCampus(campusSlug) then CampusNotFound
      else if faculty.None? then FacultyNotFound
      else Detail(faculty.value, VisibleReviews(), if ShowSeeMore() then Some(RemainingCount()) else None)
    }
  }

  /**
   * Pressing "Show more" while it is shown, again and again, reveals every review: after
   * `ceil((n - v) / 3)` presses from `v` visible ones none is left.
   */
  lemma {:induction false} ShowMoreReachesAll(visible: nat, n: nat)
    requires visible < n
    decreases n - visible
    ensures ShowMoreSteps(visible, n) == (n - visible + ReviewsPerPage - 1) / ReviewsPerPage
  {
    var next := Min(visible + ReviewsPerPage, n);
    if next < n {
      ShowMoreReachesAll(next, n);
    }
  }

  /** The number of presses of "Show more" until no review is left. */
  function ShowMoreSteps(visible: nat, n: nat): nat
    decreases n - visible
  {
    if visible >= n then 0 else 1 + ShowMoreSteps(Min(visible + ReviewsPerPage, n), n)
  }
}
