# VITor faculty ratings — a Dafny model

VITor lets students of the four VIT campuses rate their faculty. They give four 1–5 star ratings (attendance, correction, teaching, approachability) and a comment. Each faculty document keeps an aggregate: the number of reviews and one average per dimension plus an overall average.

This project models the rating aggregation and the small rules around it, and proves what they promise.

**The two aggregation strategies**
- **Incremental** (`components/ReviewForm.js`): one transaction writes the reviewer's review and folds the new scores into running averages.
- **Write-then-recompute** (`components/ReviewForm.jsx`): the review is written under the reviewer's uid, then the averages are recomputed over the whole review collection.
- Both run over one abstract store (`Store.Db`): faculty aggregates by id, and per faculty a review collection keyed by uid.
- **Main result:** for first-time submissions by distinct reviewers on a faculty without reviews, the two strategies write the same count and the same averages (`Aggregation.StrategiesAgree`).
- **Divergence:** the strategies disagree when a reviewer submits twice, or when the faculty document does not exist.

**Around the aggregation, the model also covers:**
- campus slugs and the email-domain-to-campus mapping (`lib/campus-config.js`);
- the faculty page: who may rate, which panel the review box shows, the back link, and the "Show more" counter (`components/FacultyDetail.jsx`);
- the faculty lists with search, pagination, suggestions and the links they navigate to (`components/CampusHome.jsx`, `app/HomeClient.jsx`, `app/page.js`);
- the score colours and the avatar fallback (`lib/faculty-helpers.js`);
- the import scripts: record projection and 400-write batching (`scripts/transformFaculty.js`, `scripts/admin/addFacultiesAdmin.js`).

**Form of the model**
- Pure code is datatypes, functions and lemmas.
- React components with state are classes:
  - `useState` and `useRef` values are fields;
  - effects and event handlers are methods with `modifies` clauses;
  - what a render shows is a function of the fields.
- Loops become methods with loop invariants, proved against a specification function:
  - the summing loop of `updateFacultyStats`;
  - the batching loop of the import.
- Firestore reads and writes become operations on values.
- A rejected write is a `Result` error, or a parameter saying which write fails: `commitFails` of `IncrementalReview.ReviewForm.Submit`, `writeFails` and `statsFails` of `RecomputeReview.ReviewForm.SubmitReview`, and `failsAt` (the index of the rejected batch commit) of `ImportAdmin.Import`.
- `encodeURIComponent`, and URL encoding in general, are function parameters.

**Two behaviours of the code worth knowing:**
- `components/ReviewForm.js` increments the count on every submission, so a resubmission by the same reviewer is counted twice (`IncrementalReview.ResubmissionCountedTwice`, `Aggregation.ResubmissionIncremental`). `components/ReviewForm.jsx` treats it as an edit (`RecomputeReview.ResubmissionReplaces`).
- `components/ReviewForm.jsx` rounds the stored averages to two decimals. The model uses exact `real` quotients (see "Left out").

Files:
- `wrappers.dfy`: Option and Result.
- `js_strings.dfy`: the JavaScript string built-ins used, such as `trim`, `toLowerCase`, `includes`, `split`, `Number` and `slice`.
- `json.dfy`: document values, truthiness, `?.` and `String()`.
- `query_string.dfy`: `URLSearchParams`.
- `store.dfy`: the store.
- `incremental_review.dfy`, `recompute_review.dfy`, `aggregation.dfy`: the two strategies and their comparison.
- Then one file per remaining source file.

## Model

| member | source | states |
|---|---|---|
| Store.OverallOf | components/ReviewForm.js:80-85 | the overall score of four ratings in 1..5 lies in [1, 5] |
| Store.OverallIsMean | components/ReviewForm.jsx:60-65 | overall is the mean of the four ratings: four times it is their sum, and it lies between the smallest and the largest |
| Store.SetRating | components/ReviewForm.js:32-35 | setting one rating gives it the new value and leaves the other three as they were |
| Store.MakeReview | components/ReviewForm.jsx:67-78 | the written review carries the reviewer's uid, the ratings and the text, and contributes each rating (and the overall mean) to its metric |
| Store.UniqueReviewersPairwise | components/ReviewForm.jsx:67-68 | a collection keyed by uid is one where no two reviews have the same author |
| Store.UniqueReviewersCount | components/ReviewForm.jsx:193-197 | in a collection keyed by uid, the number of reviews is the number of distinct reviewers |
| Store.Upsert | components/ReviewForm.jsx:67-78 | writing `reviews/{uid}` adds the uid to the reviewers and stores the review |
| Store.UpsertLength | components/ReviewForm.jsx:67-78 | a reviewer's first review adds one review (placed last in the model's order); a resubmission keeps the number of reviews |
| Store.UpsertUnique | components/ReviewForm.jsx:67-78 | writing by uid keeps the collection keyed by uid |
| Store.UpsertMembers | components/ReviewForm.jsx:67-78 | a resubmission replaces exactly that reviewer's review and keeps every other |
| Store.PutReview | components/ReviewForm.jsx:67-78 | writing a review changes only that faculty's review collection |
| IncrementalReview.Validate | components/ReviewForm.js:41-55 | submission goes ahead iff there is a user, all four ratings are set and the trimmed comment has at least 10 code units; otherwise it gives the first failing check's message, in the order login, ratings, comment |
| IncrementalReview.RunningAvgIsMean | components/ReviewForm.js:77-78 | if the old average is the mean of `count` values, `avg` gives the mean of those and the new value; with count 0 it is the new value |
| IncrementalReview.RunningAvgInRange | components/ReviewForm.js:77-78 | a new value in [1, 5] gives a new average in [1, 5], given an old average in [1, 5] unless this is the first review |
| IncrementalReview.FoldedDoc | components/ReviewForm.js:96-111 | the aggregate written has the old count (missing read as 0) plus one, and every metric folded by `avg` |
| IncrementalReview.IncrementalTx | components/ReviewForm.js:70-112 | the transaction stores the review with the trimmed comment under the uid and writes the folded aggregate; nothing else changes |
| IncrementalReview.FoldedAverages | components/ReviewForm.js:100-109 | each written average is `avg(old average or 0, submitted value)`, and on a faculty without a count it is the submitted value |
| IncrementalReview.TxCount | components/ReviewForm.js:72-100 | every transaction writes the faculty document with the count read plus one |
| IncrementalReview.ResubmissionCountedTwice | components/ReviewForm.js:62-100 | when the reviewer already has a review and the count matched the reviews, afterwards the count exceeds the number of reviews by one |
| IncrementalReview.StoreAfterAtomic | components/ReviewForm.js:70-112 | without a request or with a rejected commit the store is unchanged; a committed one writes the review and the count + 1, and no other faculty changes |
| IncrementalReview.ReviewForm.constructor | components/ReviewForm.js:22-30 | the form starts with all ratings 0, an empty comment, not loading and no error |
| IncrementalReview.ReviewForm.HandleChange | components/ReviewForm.js:32-35 | one rating changes and the error is cleared |
| IncrementalReview.ReviewForm.EditComment | components/ReviewForm.js:163-166 | the comment changes and the error is cleared |
| IncrementalReview.ReviewForm.Submit | components/ReviewForm.js:41-128 | a transaction runs iff validation passes, for this faculty and user; a failed check sets its message and keeps everything; a failed commit sets the failure message and keeps the inputs; success resets the form |
| RecomputeReview.StatsDoc | components/ReviewForm.jsx:217-224 | the recomputed aggregate has the number of reviews as count and one average per metric |
| RecomputeReview.StatsAverageIsMean | components/ReviewForm.jsx:200-222 | each recomputed average times the number of reviews is that field's sum over the reviews |
| RecomputeReview.StatsAverageBounds | components/ReviewForm.jsx:217-222 | when every review's value of a field is in [lo, hi], so is the recomputed average |
| RecomputeReview.Recomputed | components/ReviewForm.jsx:192-225 | no reviews: nothing written; missing faculty document: `updateDoc` rejects; otherwise only that faculty's aggregate changes |
| RecomputeReview.RecomputedCountsReviewers | components/ReviewForm.jsx:197-223 | the written count is the number of distinct reviewers, and the reviews are untouched |
| RecomputeReview.UpdateFacultyStats | components/ReviewForm.jsx:192-225 | the summing loop and the update produce exactly the recomputed store, or the rejection |
| RecomputeReview.ResubmissionReplaces | components/ReviewForm.jsx:67-80 | after a submission the count equals the number of reviews, the collection stays keyed by uid, and it grows only for a new reviewer |
| RecomputeReview.StarRowPrefix | components/ReviewForm.jsx:232-236 | the lit stars are exactly 1..d for the displayed value d (the hover value if non-zero, else the selected value); hovering shows the hovered value's row |
| RecomputeReview.WriteAndRecompute | components/ReviewForm.jsx:67-80 | after the review write, success means the recomputed store; a rejected recomputation leaves the review written |
| RecomputeReview.ReviewForm.constructor | components/ReviewForm.jsx:38-48 | the form starts unrated, with an empty comment, no hover, not submitting and no error |
| RecomputeReview.ReviewForm.Select | components/ReviewForm.jsx:155-157 | selecting a star sets that rating only |
| RecomputeReview.ReviewForm.Hover | components/ReviewForm.jsx:149-154 | hovering (or leaving, as 0) sets that row's hover value only |
| RecomputeReview.ReviewForm.EditComment | components/ReviewForm.jsx:107-109 | the comment changes and the error is kept |
| RecomputeReview.ReviewForm.SubmitReview | components/ReviewForm.jsx:53-95 | a blocked submission (no user, a rating 0, short comment, in flight) changes nothing; otherwise the outcome of the write, the recomputation and the reset |
| RecomputeReview.ReviewForm.Proceed | components/ReviewForm.jsx:56-94 | a rejected write keeps the store and inputs with an error; a rejected recomputation leaves the review written; success stores the recomputation and resets the form; `submitting` ends false |
| Aggregation.RunningMeanIsMean | components/ReviewForm.js:74-78 | folding `avg` over a sequence of values from count 0 gives their arithmetic mean |
| Aggregation.IncrementalRunCount | components/ReviewForm.js:74-100 | after n incremental submissions on a fresh faculty the count is n |
| Aggregation.IncrementalRunAvg | components/ReviewForm.js:77-109 | after incremental submissions each average is the running mean over the submitted values |
| Aggregation.RecomputeRunState | components/ReviewForm.jsx:67-80 | with distinct reviewers on a fresh faculty the recomputing run never rejects, stores exactly the submitted reviews (in the model's order), and writes their recomputation |
| Aggregation.StrategiesAgree | components/ReviewForm.jsx:192-225 | for first-time submissions by distinct reviewers on a fresh faculty, the incremental transaction and the recomputation write the same count (the number of submissions) and the same averages |
| Aggregation.ResubmissionIncremental | components/ReviewForm.js:62-100 | one reviewer submitting twice under the incremental form: count 2, one review stored |
| Aggregation.ResubmissionIncrementalAvg | components/ReviewForm.js:77-108 | after two incremental submissions each average is the mean of both, even when the first review was replaced |
| Aggregation.AfterSubmitWrites | components/ReviewForm.jsx:67-80 | on an existing faculty a submission writes the review by uid and the recomputation over the resulting collection |
| Aggregation.SingleReviewStats | components/ReviewForm.jsx:217-222 | over one review each recomputed average is that review's value |
| Aggregation.ResubmissionRecompute | components/ReviewForm.jsx:67-80 | one reviewer submitting twice under the recomputing form: count 1, one review, averages of the second submission |
| Aggregation.MissingFacultyCreated | components/ReviewForm.js:71-111 | the incremental transaction on a missing faculty document creates it with count 1 |
| Aggregation.MissingFacultyRejected | components/ReviewForm.jsx:217-224 | the recomputing form on a missing faculty document fails with `NotFound` |
| Aggregation.MissingFacultyDiverges | components/ReviewForm.js:70-112 | on a missing faculty document the strategies diverge: count 1 versus a rejected update |
| CampusConfig.SlugsOf | lib/campus-config.js:12 | the slugs are the campuses' slugs, position by position |
| CampusConfig.Find | lib/campus-config.js:14-16 | `find` returns a campus iff one has the slug, and then a campus with that slug |
| CampusConfig.ValidCampuses | lib/campus-config.js:5-20 | a slug is valid iff it is one of vit-ap, vit-v, vit-c, vit-b; no two campuses share a slug |
| CampusConfig.GetCampusBySlugSpec | lib/campus-config.js:14-20 | `getCampusBySlug` returns the campus with that slug, and `null` exactly for an invalid slug |
| CampusConfig.SplitToLower | lib/campus-config.js:40 | splitting the lower-cased email at "@" gives the lower-cased parts |
| CampusConfig.DomainPartToLower | lib/campus-config.js:40 | the domain of the lower-cased email is the lower-cased domain |
| CampusConfig.CampusSlugFromEmailSpec | lib/campus-config.js:38-43 | a missing or empty email gives `null`; the lower-cased domain vitapstudent.ac.in gives exactly vit-ap and vitbhopal.ac.in exactly vit-b; every other domain, the shared one included, gives `null`; any campus returned is valid |
| CampusConfig.DomainTable | lib/campus-config.js:26-30 | the table maps exactly two domains to a campus, each to its own |
| CampusConfig.DualCampusHasNoSlug | lib/campus-config.js:38-47 | a dual-campus email never determines a campus |
| CampusConfig.EmailCaseInsensitive | lib/campus-config.js:40-47 | emails that agree up to letter case get the same campus and the same dual-campus answer |
| CampusConfig.DualCampusSlugsValid | lib/campus-config.js:36 | every dual-campus slug is a valid campus |
| FacultyHelpers.ScoreBands | lib/faculty-helpers.js:16-21 | gray iff no numeric score; green iff ≥ 4; amber iff 2.5 ≤ s < 4; red iff < 2.5 |
| FacultyHelpers.ScoreColorMonotone | lib/faculty-helpers.js:16-21 | a higher score never gets a worse colour |
| FacultyHelpers.PhotoPreferred | lib/faculty-helpers.js:4-6 | a non-blank photo is returned trimmed |
| FacultyHelpers.AvatarFallback | lib/faculty-helpers.js:7-8 | otherwise the avatar URL is prefix, encoded trimmed name, suffix; "?" only for a missing or empty name; a blank name gives "" |
| JsStrings.ContainsAt | components/CampusHome.jsx:102-106 | `includes` holds iff the text occurs at some offset |
| QueryString.GetSet | components/CampusHome.jsx:115-120 | after `set`, `get` of that key gives the new value and other keys are unchanged |
| QueryString.RenderNonEmpty | components/CampusHome.jsx:137 | the rendered query is empty iff there are no entries |
| QueryString.ParseRender | components/CampusHome.jsx:115-119 | reading a rendered query back gives the same entries in order |
| FacultySearch.FilterMembers | components/CampusHome.jsx:102-106 | the filter keeps exactly the faculties whose lower-cased "name department" contains the lower-cased query, and never more |
| FacultySearch.FilterAppend | components/CampusHome.jsx:102-106 | the filter keeps the order: it distributes over concatenation |
| FacultySearch.EmptyQueryKeepsAll | app/page.js:25-29 | the empty query keeps every faculty |
| FacultySearch.PageFromUrl | components/CampusHome.jsx:22 | the page read from the URL is never 0 (0, absent and NaN become 1) |
| FacultySearch.PageFromUrlRoundTrip | components/CampusHome.jsx:22 | a non-zero page written into the URL reads back as itself |
| FacultySearch.TotalPagesIsCeiling | components/CampusHome.jsx:108 | the page count is ceil(n / 8): the least count whose pages hold n items |
| FacultySearch.PageSliceWindow | components/CampusHome.jsx:109-113 | a page holds at most 8 items; page p ≥ 1 is the window from (p−1)·8; pages past the last are empty |
| FacultySearch.PagesPartition | components/CampusHome.jsx:108-113 | pages 1..totalPages together, in order, are the filtered list |
| FacultySearch.PagerFor | components/CampusHome.jsx:287-306 | the pager shows iff there are more than one page; Prev is disabled iff on page 1, Next iff on the last page |
| FacultySearch.DedupMembers | components/CampusHome.jsx:67-80 | `new Set` keeps a string iff it occurs (and was not seen) |
| FacultySearch.DedupDistinct | components/CampusHome.jsx:67-80 | the deduplicated list has no repeats |
| FacultySearch.DedupSnoc | components/CampusHome.jsx:67-80 | deduplication keeps first-occurrence order |
| FacultySearch.CandidatesFrom | components/CampusHome.jsx:69-78 | every candidate is a non-empty trimmed name or department of a listed faculty containing the query |
| FacultySearch.CandidatesComplete | components/CampusHome.jsx:69-78 | conversely, every non-empty trimmed name or department of a listed faculty containing the query is a candidate |
| FacultySearch.SuggestionsSpec | components/CampusHome.jsx:65-81 | no suggestions for a blank draft; otherwise the first (at most 8) distinct candidates in first-occurrence order, name before department, so distinct and each a trimmed name or department containing the lower-cased trimmed draft |
| FacultySearch.SuggestionsComplete | components/CampusHome.jsx:65-81 | when at most 8 distinct names and departments match a non-blank draft, every one of them is suggested |
| FacultySearch.GoToPageParamsSpec | components/CampusHome.jsx:115-120 | `goToPage(p)` sets page p and keeps q exactly when the active query is not blank |
| FacultySearch.CommitSearchParamsSpec | components/CampusHome.jsx:122-129 | `commitSearch` sets page 1 and q exactly when the trimmed draft is not empty |
| FacultySearch.GoToPageLands | components/CampusHome.jsx:115-120 | following the `goToPage(p)` link lands on page p with the same query |
| CampusHomePage.ClearSearchLands | components/CampusHome.jsx:131-138 | the `clearSearch` link lands on the remembered page if it is > 1, else page 1, with no query |
| CampusHomePage.ApplySuggestionLands | components/CampusHome.jsx:93-100 | the `applySuggestion` link lands on page 1 with the suggestion as the query |
| CampusHomePage.CommitSearchLands | components/CampusHome.jsx:122-129 | the `commitSearch` link lands on page 1 with the trimmed draft as the query, or none |
| CampusHomePage.CampusHome.constructor | components/CampusHome.jsx:22-62 | the first render takes page and draft from the URL, and remembers the page only when no query is active |
| CampusHomePage.CampusHome.UrlChanged | components/CampusHome.jsx:55-62 | when the page or the query in the URL changes, page and draft follow it; the remembered page follows only while no query is active |
| CampusHomePage.CampusHome.SnapshotReceived | components/CampusHome.jsx:42-45 | the snapshot replaces the faculties and clears the error |
| CampusHomePage.CampusHome.SnapshotFailed | components/CampusHome.jsx:46-50 | a failed listener shows its message (or the default) and empties the list |
| CampusHomePage.CampusHome.DraftChanged | components/CampusHome.jsx:195-198 | typing sets the draft and opens the suggestions |
| CampusHomePage.CampusHome.Focused | components/CampusHome.jsx:199 | focus opens the suggestions only for a non-blank draft |
| CampusHomePage.CampusHome.ClickedOutside | components/CampusHome.jsx:83-91 | a click outside closes the suggestions |
| CampusHomePage.CampusHome.GoToPage | components/CampusHome.jsx:115-120 | the link is the campus path with the `goToPage` query |
| CampusHomePage.CampusHome.CommitSearch | components/CampusHome.jsx:122-129 | closes the suggestions; the link is the campus path with the `commitSearch` query |
| CampusHomePage.CampusHome.ClearSearch | components/CampusHome.jsx:131-138 | empties the draft, closes the suggestions, links to the remembered page; the bare campus path when it is ≤ 1 |
| CampusHomePage.CampusHome.ApplySuggestion | components/CampusHome.jsx:93-100 | the suggestion becomes the draft, suggestions close, the link is page 1 of it |
| CampusHomePage.CampusHome.Rendered | components/CampusHome.jsx:140-306 | "Campus not found." iff the slug is non-empty and invalid; otherwise the faculties are the current page's slice of the filtered list (at most 8, each one matching the active query, for any page number the URL gives), the pager is the one for that page and ceil(n / 8) pages and shows iff more than 8 match, and the suggestions shown are the draft's suggestions when the box is open and none otherwise |
| HomeClientPage.HomeClient.constructor | app/HomeClient.jsx:29-35 | page and draft start from the URL, with no faculties |
| HomeClientPage.HomeClient.UrlChanged | app/HomeClient.jsx:46-49 | page and draft follow the URL exactly when its page or query changed |
| HomeClientPage.HomeClient.SnapshotReceived | app/HomeClient.jsx:38-43 | the snapshot replaces the faculties |
| HomeClientPage.HomeClient.DraftChanged | app/HomeClient.jsx:169 | typing changes only the draft |
| HomeClientPage.HomeClient.GoToPage | app/HomeClient.jsx:66-75 | the link is "/" with the `goToPage` query |
| HomeClientPage.HomeClient.CommitSearch | app/HomeClient.jsx:78-89 | the link is "/" with the `commitSearch` query |
| HomeClientPage.HomeClient.Rendered | app/HomeClient.jsx:52-63 | the faculties are the current page's slice of the filtered list: at most 8, each one matching the active query, for any page number the URL gives, negative ones included; the pager is the one for that page and ceil(n / 8) pages and shows iff more than 8 match |
| HomePageView.HomePage.constructor | app/page.js:8-10 | starts loading with no faculties and an empty query |
| HomePageView.HomePage.FetchSucceeded | app/page.js:15-18 | the fetched list is shown and loading ends |
| HomePageView.HomePage.FetchFailed | app/page.js:19-22 | loading ends and the list stays empty |
| HomePageView.HomePage.QueryChanged | app/page.js:55 | typing sets the query |
| HomePageView.HomePage.Rendered | app/page.js:25-67 | "Loading" iff loading; otherwise the filtered list itself: exactly the matching faculties, in their order, shown ≤ total, all of them for an empty query |
| FacultyDetailPage.PickerOptions | components/FacultyDetail.jsx:165-177 | one button per dual-campus slug, in order |
| FacultyDetailPage.DualCampusOptions | components/FacultyDetail.jsx:165-177 | the picker offers Vellore Campus and Chennai Campus |
| FacultyDetailPage.FormPanelSpec | components/FacultyDetail.jsx:155-193 | the form iff the user may rate this campus; sign-in text iff signed out; the picker iff a user without campus has the dual-campus email |
| FacultyDetailPage.BackHrefSpec | components/FacultyDetail.jsx:33-35 | the back link is the bare campus path iff neither page nor q is present, and its query reads back as exactly those present |
| FacultyDetailPage.FacultyDetail.constructor | components/FacultyDetail.jsx:37-40 | the first render is "Loading" with 3 reviews visible |
| FacultyDetailPage.FacultyDetail.LoadFinished | components/FacultyDetail.jsx:44-74 | loading ends; a thrown load keeps the previous data, otherwise the faculty and its reviews are stored |
| FacultyDetailPage.FacultyDetail.RouteChanged | components/FacultyDetail.jsx:76-78 | a new id puts the counter back to 3 |
| FacultyDetailPage.FacultyDetail.LoadMore | components/FacultyDetail.jsx:84-86 | the counter becomes min(old + 3, number of reviews): it grows by 1..3 while more remain and extends the visible prefix |
| FacultyDetailPage.FacultyDetail.VisibleReviews | components/FacultyDetail.jsx:80 | the visible reviews are the first `visibleCount` of the reviews as loaded |
| FacultyDetailPage.FacultyDetail.NextBatch | components/FacultyDetail.jsx:87-88 | while "Show more" shows, the next batch is 1..3 and no more than remain |
| FacultyDetailPage.FacultyDetail.Rendered | components/FacultyDetail.jsx:90-109 | loading, then invalid campus, then missing faculty, then the page of the loaded faculty; "Show more" iff more than 3 reviews and not all visible, with a positive remainder |
| FacultyDetailPage.ShowMoreReachesAll | components/FacultyDetail.jsx:258-274 | from v of n visible, ceil((n − v) / 3) presses of "Show more" reveal every review |
| ImportAdmin.WriteOfFields | scripts/admin/addFacultiesAdmin.js:46-53 | each document is named `String(f.id)`, keeps the faculty's other fields, and has avgRating 0, totalRatings 0 and the server timestamp |
| ImportAdmin.WritesInOrder | scripts/admin/addFacultiesAdmin.js:45-55 | one write per faculty, in order |
| ImportAdmin.AddWrite | scripts/admin/addFacultiesAdmin.js:48-61 | one iteration adds the write and commits the batch when the count reaches a multiple of 400 |
| ImportAdmin.CloseBatches | scripts/admin/addFacultiesAdmin.js:64-66 | the final commit leaves batches of 1..400 writes, all but the last full, ceil(n / 400) of them |
| ImportAdmin.WriteAll | scripts/admin/addFacultiesAdmin.js:41-62 | without a rejection the loop commits full batches of 400 and holds the remainder, with every write in order; a rejected commit stops it with only the full batches before it committed, holding the first writes |
| ImportAdmin.Import | scripts/admin/addFacultiesAdmin.js:41-68 | the import fails iff `failsAt` names one of its ceil(n / 400) commits; without a rejection every faculty is written once, in order, each commit holds 1..400 writes, all but the last 400, there are ceil(n / 400) commits and the count is n; with one, exactly the batches before it are committed, each of 400 writes, holding the first faculties' writes |
| ImportAdmin.ImportedDocIds | scripts/admin/addFacultiesAdmin.js:46 | importing the transformed file names the i-th document after the i-th raw item's id |
| TransformFaculty.Transform | scripts/transformFaculty.js:22-45 | one record per item, in order |
| TransformFaculty.ListFields | scripts/transformFaculty.js:41-43 | patents, projects and awards are the attribute when truthy, else [] |
| TransformFaculty.PhotoField | scripts/transformFaculty.js:35 | the photo is the nested `Photo.data.attributes.url` when every step exists and it is truthy, else null |
| TransformFaculty.ToJsonId | scripts/transformFaculty.js:26 | the written object has `id` exactly when the item has one |
| TransformFaculty.ToJsonAll | scripts/transformFaculty.js:47 | the written list holds each record's object, in order |

## Left out

- Firestore is reduced to reads and writes on in-memory values, and transactions are atomic. Not modelled:
  - the SDK's retry of a transaction;
  - snapshot listeners' unsubscription;
  - the collection paths (`faculties/...` against `campuses/{slug}/faculties/...`), which are treated as one store.
- A failure outside the model (network, permissions) is a parameter of the method that performs the write, as listed above. A missing faculty document is modelled as the `updateDoc` rejection it causes.
- The order of a faculty's reviews is the model's own: a first review goes last. `getDocs` without `orderBy` returns documents in document-id order, which is not modelled. Sums and averages do not depend on the order. The "Show more" list takes the reviews in whatever order the load returned them.
- ImportAdmin.Import: `doc(String(f.id))` throws on an empty id or one containing "/", which aborts the script before the batch commits. The model does not capture this throw and writes such a document like any other. A rejected commit is modelled (`failsAt`).
- RecomputeReview.StatsDoc: the averages are exact quotients of reals. The `+(x).toFixed(2)` rounding of components/ReviewForm.jsx:218-222 is not modelled, because it is floating-point formatting.
- Ratings are integers and averages are reals. JavaScript's double-precision arithmetic is not modelled.
- Review documents hold the uid, the ratings, the overall score and the text. Not modelled:
  - the `createdAt`/`updatedAt` timestamps;
  - the fixed `user: "Anonymous User"` field;
  - that one form names the text field `comment` and the other `text`.
- Authentication, sign-in and `setUserCampus` are not modelled; the user and their campus are inputs.
- The code that renders only markup is not modelled: star icons, cards, layout and theme.
- `encodeURIComponent` and `URLSearchParams`' form encoding are a pair of parameters. They are assumed to be mutually inverse and never to produce "&" or "=" (`QueryString.Codec`). The encoding itself is not modelled. `router.push` is the returned link.
- `toLowerCase` maps only the ASCII letters.
- `Number(s)` accepts surrounding white space and an optional sign followed by decimal digits, and reads the empty string as 0. Fractions, exponents, hexadecimal and `Infinity` are not modelled and are read as `NaN`.
- JSON numbers are integers. Non-integer numbers in the raw data are not modelled.
- The JSON written by the transform is a map per record, so the order of its keys is not modelled.
- FacultyHelpers.FacultyPhoto, CampusConfig.CampusSlugFromEmail and FacultySearch.FieldText take string-or-missing inputs. A non-string photo, name or email is treated as missing or as "" rather than as the `TypeError` or `typeof` check of the source.
- TransformFaculty.Record: an item without an `attributes` object, on which the script throws, is not modelled.
- A property name inherited from `Object.prototype` (such as `constructor`) is an ordinary missing key.
- FacultyDetailPage.FacultyDetail.RouteChanged: the model follows the source in not setting `loading` again on a route change.
- The load effect of FacultyDetail.jsx for a new route is a later `LoadFinished`, not an automatic call.
- The 3-second or other timing of React re-renders is not modelled. Each effect is the method named for the change that triggers it.
