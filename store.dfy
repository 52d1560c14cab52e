/**
 * The data the rating aggregation works on, with Firestore's reads and writes turned into
 * operations on values:
 *   - `faculties/{facultyId}`: the faculty document, of which only the aggregate fields
 *     (`reviewCount`, `avgAttendance`, `avgCorrection`, `avgTeaching`, `avgApproachability`,
 *     `avgRating`) are modelled;
 *   - `faculties/{facultyId}/reviews/{uid}`: one review document per reviewer, modelled as a
 *     sequence of reviews whose user ids are distinct. The order of the sequence is the model's
 *     own (a first review goes last); it is not the order in which a collection read returns
 *     the documents, and no property below depends on it.
 */
module Store {
  import opened Wrappers
  import opened JsStrings

  type FacultyId = string
  type Uid = string

  /**
   * The four rated dimensions and the overall score derived from them; their averages are the
   * fields `avgAttendance`, `avgCorrection`, `avgTeaching`, `avgApproachability` and `avgRating`.
   */
  datatype Metric = Attendance | Correction | Teaching | Approachability | Overall

  /** A map that gives every metric its value under `f`, written out field by field. */
  function MetricMap(f: Metric -> real): (d: map<Metric, real>)
    ensures forall m :: m in d && d[m] == f(m)
  {
    var d := map[Attendance := f(Attendance), Correction := f(Correction), Teaching := f(Teaching),
                 Approachability := f(Approachability), Overall := f(Overall)];
    MetricMapCovers(d, f);
    d
  }

  lemma MetricMapCovers(d: map<Metric, real>, f: Metric -> real)
    requires Attendance in d && d[Attendance] == f(Attendance)
    requires Correction in d && d[Correction] == f(Correction)
    requires Teaching in d && d[Teaching] == f(Teaching)
    requires Approachability in d && d[Approachability] == f(Approachability)
    requires Overall in d && d[Overall] == f(Overall)
    ensures forall m :: m in d && d[m] == f(m)
  {
    forall m ensures m in d && d[m] == f(m) {
      match m {
        case Attendance =>
        case Correction =>
        case Teaching =>
        case Approachability =>
        case Overall =>
      }
    }
  }

  /** The `ratings` state of a review form: one star value per dimension, 0 for "not rated yet". */
  datatype Ratings = Ratings(attendance: int, correction: int, teaching: int, approachability: int)

  const Unrated := Ratings(0, 0, 0, 0)

  /** `Object.values(ratings).every((v) => v > 0)` */
  predicate AllRated(r: Ratings) {
    r.attendance > 0 && r.correction > 0 && r.teaching > 0 && r.approachability > 0
  }

  /** `comment.trim().length >= 10` */
  predicate CommentValid(comment: string) {
    Utf16Length(Trim(comment)) >= 10
  }

  predicate InStarRange(r: Ratings) {
    1 <= r.attendance <= 5 && 1 <= r.correction <= 5 && 1 <= r.teaching <= 5 && 1 <= r.approachability <= 5
  }

  /** `overall`: the sum of the four ratings divided by 4. */
  function OverallOf(r: Ratings): (o: real)
    ensures InStarRange(r) ==> 1.0 <= o <= 5.0
  {
    (r.attendance + r.correction + r.teaching + r.approachability) as real / 4.0
  }

  /** The mean lies between the smallest and the largest of the four ratings. */
  lemma OverallIsMean(r: Ratings, lo: int, hi: int)
    requires lo <= r.attendance <= hi && lo <= r.correction <= hi
    requires lo <= r.teaching <= hi && lo <= r.approachability <= hi
    ensures lo as real <= OverallOf(r) <= hi as real
    ensures OverallOf(r) * 4.0 == (r.attendance + r.correction + r.teaching + r.approachability) as real
  {
  }

  /** The value a set of ratings contributes to one metric. */
  function RatingValue(r: Ratings, m: Metric): real {
    match m
    case Attendance => r.attendance as real
    case Correction => r.correction as real
    case Teaching => r.teaching as real
    case Approachability => r.approachability as real
    case Overall => OverallOf(r)
  }

  /** `{ ...r, [key]: v }`: one of the four ratings replaced. */
  function SetRating(r: Ratings, m: Metric, v: int): (r': Ratings)
    requires m != Overall
    ensures RatingValue(r', m) == v as real
    ensures forall k :: k != m && k != Overall ==> RatingValue(r', k) == RatingValue(r, k)
  {
    match m
    case Attendance => r.(attendance := v)
    case Correction => r.(correction := v)
    case Teaching => r.(teaching := v)
    case Approachability => r.(approachability := v)
  }

  /** A review document: its author, the four ratings, the derived overall score and the text. */
  datatype Review = Review(userId: Uid, ratings: Ratings, overall: real, text: string)

  /** The review a form submission writes: `{...ratings, overall, text, userId}`. */
  function MakeReview(uid: Uid, r: Ratings, text: string): (rv: Review)
    ensures rv.userId == uid && rv.ratings == r && rv.text == text
    ensures forall m :: ValueOf(rv, m) == RatingValue(r, m)
  {
    Review(uid, r, OverallOf(r), text)
  }

  /** The field of a review document that is summed for one metric (`overall` for Overall). */
  function ValueOf(rv: Review, m: Metric): real {
    if m == Overall then rv.overall else RatingValue(rv.ratings, m)
  }

  /**
   * The aggregate fields of a faculty document. `None` and a missing map key stand for a field
   * the document does not have.
   */
  datatype FacultyDoc = FacultyDoc(reviewCount: Option<nat>, avgs: map<Metric, real>)

  /** `{}`: what `facultySnap.exists() ? facultySnap.data() : {}` yields for a missing document. */
  const EmptyDoc := FacultyDoc(None, map[])

  /** The document store: faculty documents by id, and each faculty's review collection. */
  datatype Db = Db(faculties: map<FacultyId, FacultyDoc>, reviews: map<FacultyId, seq<Review>>)

  /** The review collection of a faculty; a collection nobody wrote to is empty. */
  function ReviewsOf(db: Db, fid: FacultyId): seq<Review> {
    if fid in db.reviews then db.reviews[fid] else []
  }

  function Reviewers(rs: seq<Review>): (us: set<Uid>)
    ensures forall i :: 0 <= i < |rs| ==> rs[i].userId in us
    ensures forall u :: u in us ==> exists i :: 0 <= i < |rs| && rs[i].userId == u
  {
    if rs == [] then {} else {rs[0].userId} + Reviewers(rs[1..])
  }

  /**
   * At most one review per reviewer: the collection is keyed by uid. Stated one review at a time:
   * the first author wrote none of the later reviews, and the rest is keyed by uid too.
   */
  predicate UniqueReviewers(rs: seq<Review>) {
    rs == [] || (rs[0].userId !in Reviewers(rs[1..]) && UniqueReviewers(rs[1..]))
  }

  lemma UniqueCons(a: Review, t: seq<Review>)
    ensures UniqueReviewers([a] + t) <==> a.userId !in Reviewers(t) && UniqueReviewers(t)
  {
    assert ([a] + t)[1..] == t;
  }

  /** The reading of uniqueness as "no two positions hold reviews by the same reviewer". */
  lemma {:induction false} UniqueReviewersPairwise(rs: seq<Review>)
    ensures UniqueReviewers(rs) <==> forall i, j :: 0 <= i < j < |rs| ==> rs[i].userId != rs[j].userId
  {
    if rs != [] {
      var t := rs[1..];
      UniqueReviewersPairwise(t);
      if UniqueReviewers(rs) {
        forall i, j | 0 <= i < j < |rs| ensures rs[i].userId != rs[j].userId {
          if i == 0 {
            assert rs[j] == t[j - 1];
          } else {
            assert rs[i] == t[i - 1] && rs[j] == t[j - 1];
          }
        }
      }
      if forall i, j :: 0 <= i < j < |rs| ==> rs[i].userId != rs[j].userId {
        forall i, j | 0 <= i < j < |t| ensures t[i].userId != t[j].userId {
          assert rs[i + 1] == t[i] && rs[j + 1] == t[j];
        }
        forall k | 0 <= k < |t| ensures t[k].userId != rs[0].userId {
          assert rs[k + 1] == t[k];
        }
      }
    }
  }

  lemma {:induction false} ReviewersAppend(rs: seq<Review>, rv: Review)
    ensures Reviewers(rs + [rv]) == Reviewers(rs) + {rv.userId}
  {
    if rs != [] {
      assert (rs + [rv])[1..] == rs[1..] + [rv];
      ReviewersAppend(rs[1..], rv);
    }
  }

  /** Appending a review by a new reviewer keeps the list keyed by uid. */
  lemma {:induction false} UniqueSnoc(rs: seq<Review>, rv: Review)
    requires UniqueReviewers(rs) && rv.userId !in Reviewers(rs)
    ensures UniqueReviewers(rs + [rv])
  {
    if rs != [] {
      var t := rs[1..];
      assert rs + [rv] == [rs[0]] + (t + [rv]);
      UniqueSnoc(t, rv);
      ReviewersAppend(t, rv);
      UniqueCons(rs[0], t + [rv]);
    }
  }

  /** With one review per reviewer, the number of reviews is the number of distinct reviewers. */
  lemma {:induction false} UniqueReviewersCount(rs: seq<Review>)
    requires UniqueReviewers(rs)
    ensures |Reviewers(rs)| == |rs|
  {
    if rs != [] {
      assert rs == [rs[0]] + rs[1..];
      UniqueCons(rs[0], rs[1..]);
      UniqueReviewersCount(rs[1..]);
    }
  }

  /**
   * Writing `reviews/{uid}`: the review replaces the one with the same user id, or is added when
   * that reviewer had none.
   */
  function Upsert(rs: seq<Review>, rv: Review): (out: seq<Review>)
    ensures Reviewers(out) == Reviewers(rs) + {rv.userId}
    ensures rv in out
  {
    if rs == [] then [rv]
    else if rs[0].userId == rv.userId then [rv] + rs[1..]
    else [rs[0]] + Upsert(rs[1..], rv)
  }

  /**
   * A first review by a reviewer adds one review (placed last in the model's order); an edit
   * replaces a review and keeps the number of reviews.
   */
  lemma {:induction false} UpsertLength(rs: seq<Review>, rv: Review)
    ensures rv.userId !in Reviewers(rs) ==> Upsert(rs, rv) == rs + [rv]
    ensures rv.userId in Reviewers(rs) ==> |Upsert(rs, rv)| == |rs|
  {
    if rs != [] && rs[0].userId != rv.userId {
      assert rs == [rs[0]] + rs[1..];
      UpsertLength(rs[1..], rv);
    }
  }

  /** Writing by uid keeps a collection keyed by uid. */
  lemma {:induction false} UpsertUnique(rs: seq<Review>, rv: Review)
    requires UniqueReviewers(rs)
    ensures UniqueReviewers(Upsert(rs, rv))
  {
    if rs != [] {
      UniqueCons(rs[0], rs[1..]);
      if rs[0].userId != rv.userId {
        UpsertUnique(rs[1..], rv);
        UniqueCons(rs[0], Upsert(rs[1..], rv));
      } else {
        UniqueCons(rv, rs[1..]);
      }
    }
  }

  /** An edit replaces exactly that reviewer's review and keeps every other review. */
  lemma {:induction false} UpsertMembers(rs: seq<Review>, rv: Review)
    requires UniqueReviewers(rs)
    ensures forall x :: x in Upsert(rs, rv) <==> x == rv || (x in rs && x.userId != rv.userId)
  {
    if rs != [] {
      assert rs == [rs[0]] + rs[1..];
      UniqueCons(rs[0], rs[1..]);
      UpsertMembers(rs[1..], rv);
      if rs[0].userId == rv.userId {
        forall x | x in rs[1..] ensures x.userId != rv.userId {
          assert x.userId in Reviewers(rs[1..]);
        }
      }
    }
  }

  /** The sum of one metric over a list of reviews. */
  function Sum(rs: seq<Review>, m: Metric): real {
    if rs == [] then 0.0 else Sum(rs[..|rs| - 1], m) + ValueOf(rs[|rs| - 1], m)
  }

  /** Writing a review into a faculty's collection; nothing else changes. */
  function PutReview(db: Db, fid: FacultyId, rv: Review): (db': Db)
    ensures db'.faculties == db.faculties
    ensures ReviewsOf(db', fid) == Upsert(ReviewsOf(db, fid), rv)
    ensures forall g :: g != fid ==> ReviewsOf(db', g) == ReviewsOf(db, g)
  {
    db.(reviews := db.reviews[fid := Upsert(ReviewsOf(db, fid), rv)])
  }
}
