/** The discovery handlers of the client API: number parsing of query parameters, the
    per-professional review aggregation, the join of each professional or establishment with an
    optional distance and an optional rating, the permissive `rangeKm` / `minRating` filters,
    the detail lookups and the validation of submitted review stars.

    Database queries are modelled as the in-memory sequences they return, in that order. */
module Discovery {
  import opened Wrappers
  import opened Js
  import opened Sequences

  type Id = string

  /** The great-circle distance in kilometres from (lat1, lng1) to (lat2, lng2). The haversine
      formula is floating-point trigonometry and is supplied by the caller as an uninterpreted function. */
  type DistanceFn = (real, real, real, real) -> real

  /** The error bodies the handlers answer with: `NOT_FOUND` (404) and `INVALID_RATING` (400). */
  datatype ApiError = NotFound | InvalidRating

  // ---------------------------------------------------------------------------------------------
  // Query parameters

  /** `parseNumber`: the coerced number when it is finite, `null` otherwise. */
  function ParseNumber(coerced: JsNumber): (r: Option<real>)
    ensures r.Some? <==> IsFinite(coerced)
    ensures r.Some? ==> r.value == coerced.value
  {
    if IsFinite(coerced) then Some(coerced.value) else None
  }

  /** One optional equality condition of a `where` clause, `...(c ? { field: c } : {})`: it
      applies only when the parameter is a non-empty string. */
  predicate MatchesCriterion(criterion: Option<string>, field: Option<string>)
  {
    Truthy(criterion) ==> field == criterion
  }

  // ---------------------------------------------------------------------------------------------
  // Distances, ratings and the permissive filters

  /** The distance of a subject from the query origin: computed only when all four coordinates
      are known, otherwise `null`. */
  function Distance(lat: Option<real>, lng: Option<real>, subjectLat: Option<real>,
                    subjectLng: Option<real>, haversine: DistanceFn): (r: Option<real>)
    ensures r.Some? <==> lat.Some? && lng.Some? && subjectLat.Some? && subjectLng.Some?
    ensures r.Some? ==> r.value == haversine(lat.value, lng.value, subjectLat.value, subjectLng.value)
  {
    if lat.Some? && lng.Some? && subjectLat.Some? && subjectLng.Some?
    then Some(haversine(lat.value, lng.value, subjectLat.value, subjectLng.value))
    else None
  }

  /** The mean of the scores of `reviews` (`reduce` sum divided by `length`), or `null` when there
      are none. The one-decimal `toFixed(1)` rounding is not modelled. */
  function MeanRating<T>(reviews: seq<T>, score: T -> int): (r: Option<real>)
    ensures r.None? <==> reviews == []
    ensures r.Some? ==> r.value * |reviews| as real == Total(reviews, score) as real
  {
    if |reviews| > 0 then Some(Total(reviews, score) as real / |reviews| as real) else None
  }

  /** The range filter: with a radius and a known distance, keep iff the distance is within it;
      without either, keep. */
  predicate InRange(rangeKm: Option<real>, distance: Option<real>)
  {
    if rangeKm.Some? && distance.Some? then distance.value <= rangeKm.value else true
  }

  /** The rating filter: with a minimum and a known rating, keep iff the rating reaches it;
      without either, keep. */
  predicate MeetsMinRating(minRating: Option<real>, rating: Option<real>)
  {
    if minRating.Some? && rating.Some? then rating.value >= minRating.value else true
  }

  lemma QuotientWithin(total: int, n: int, lo: int, hi: int)
    requires n > 0 && lo * n <= total <= hi * n
    ensures lo as real <= total as real / n as real <= hi as real
  {
    var t, m := total as real, n as real;
    assert (lo * n) as real == lo as real * m;
    assert (hi * n) as real == hi as real * m;
    assert t / m - lo as real == (t - lo as real * m) / m;
    assert hi as real - t / m == (hi as real * m - t) / m;
  }

  /** A mean of scores that all lie in [lo, hi] lies in [lo, hi]. */
  lemma MeanRatingBounds<T>(reviews: seq<T>, score: T -> int, lo: int, hi: int)
    requires reviews != []
    requires forall x :: x in reviews ==> lo <= score(x) <= hi
    ensures MeanRating(reviews, score).Some?
    ensures lo as real <= MeanRating(reviews, score).value <= hi as real
  {
    TotalBounds(reviews, score, lo, hi);
    QuotientWithin(Total(reviews, score), |reviews|, lo, hi);
  }

  // ---------------------------------------------------------------------------------------------
  // Professionals

  datatype ProfileType = Professional | OtherProfile

  /** A user record, with the fields the professional handlers read. */
  datatype User = User(
    id: Id,
    profileType: ProfileType,
    displayName: Option<string>,
    username: string,
    categoryId: Option<Id>,
    gender: Option<string>,
    tier: Option<string>,
    latitude: Option<real>,
    longitude: Option<real>,
    serviceDescription: Option<string>,
    bio: Option<string>)

  /** A review of a professional, attached to the professional of its service request. */
  datatype ProfessionalReview = ProfessionalReview(professionalId: Id, hearts: int)

  function Hearts(review: ProfessionalReview): int
  {
    review.hearts
  }

  /** The running `{ total, count }` entry of `reviewMap`. */
  datatype Stats = Stats(total: int, count: nat)

  /** The query parameters of `GET /professionals`, after the `typeof ... === "string"` check
      (strings) and after `Number(...)` (numbers). */
  datatype ProfessionalsQuery = ProfessionalsQuery(
    categoryId: Option<string>,
    gender: Option<string>,
    tier: Option<string>,
    rangeKm: JsNumber,
    lat: JsNumber,
    lng: JsNumber)

  /** A professional in the list response. */
  datatype ProfessionalResult = ProfessionalResult(
    id: Id, name: string, rating: Option<real>, distance: Option<real>)

  /** `displayName || username`. */
  function DisplayName(u: User): string
  {
    if Truthy(u.displayName) then u.displayName.value else u.username
  }

  /** The `where` clause of the list query: a professional matching every given criterion. */
  predicate IsListed(q: ProfessionalsQuery, u: User)
  {
    && u.profileType == Professional
    && MatchesCriterion(q.categoryId, u.categoryId)
    && MatchesCriterion(q.gender, u.gender)
    && MatchesCriterion(q.tier, u.tier)
  }

  /** The professionals the list query returns. */
  function ListedProfessionals(q: ProfessionalsQuery, users: seq<User>): seq<User>
  {
    Filter(users, (u: User) => IsListed(q, u))
  }

  /** The reviews whose service request belongs to professional `id` (the detail query). */
  function ReviewsOf(reviews: seq<ProfessionalReview>, id: Id): seq<ProfessionalReview>
  {
    Filter(reviews, (x: ProfessionalReview) => x.professionalId == id)
  }

  /** The reviews the list query fetches: those of a listed professional. */
  function FetchedReviews(reviews: seq<ProfessionalReview>, listed: seq<User>): seq<ProfessionalReview>
  {
    var ids := set u | u in listed :: u.id;
    Filter(reviews, (x: ProfessionalReview) => x.professionalId in ids)
  }

  /** What `reviewMap.get(id)` holds once every review is folded in: the hearts total and the
      number of the reviews of `id`, or nothing when `id` has none. */
  function StatsOf(reviews: seq<ProfessionalReview>, id: Id): (r: Option<Stats>)
    ensures r.None? <==> ReviewsOf(reviews, id) == []
    ensures r.Some? ==> r.value.count == |ReviewsOf(reviews, id)| > 0
    ensures r.Some? ==> r.value.total == Total(ReviewsOf(reviews, id), Hearts)
  {
    Summary(ReviewsOf(reviews, id))
  }

  /** The hearts total and the number of `mine`, or nothing when there are none. */
  function Summary(mine: seq<ProfessionalReview>): Option<Stats>
  {
    if mine == [] then None else Some(Stats(Total(mine, Hearts), |mine|))
  }

  /** One more review adds its hearts and one to the summary, starting from `{0, 0}`. */
  lemma SummarySnoc(mine: seq<ProfessionalReview>, x: ProfessionalReview)
    ensures var entry := GetOr(Summary(mine), Stats(0, 0));
            Summary(mine + [x]) == Some(Stats(entry.total + x.hearts, entry.count + 1))
  {
    TotalSnoc(mine, x, Hearts);
  }

  lemma ReviewsOfSnoc(reviews: seq<ProfessionalReview>, x: ProfessionalReview, id: Id)
    ensures ReviewsOf(reviews + [x], id)
            == ReviewsOf(reviews, id) + (if x.professionalId == id then [x] else [])
  {
    FilterSnoc(reviews, x, (y: ProfessionalReview) => y.professionalId == id);
  }

  /** Folding one more review into the stats of its professional. */
  lemma StatsOfSnoc(reviews: seq<ProfessionalReview>, x: ProfessionalReview, id: Id)
    ensures StatsOf(reviews + [x], id)
            == if x.professionalId != id then StatsOf(reviews, id)
               else
                 var entry := GetOr(StatsOf(reviews, id), Stats(0, 0));
                 Some(Stats(entry.total + x.hearts, entry.count + 1))
  {
    var mine, next := ReviewsOf(reviews, id), ReviewsOf(reviews + [x], id);
    ReviewsOfSnoc(reviews, x, id);
    assert StatsOf(reviews, id) == Summary(mine);
    assert StatsOf(reviews + [x], id) == Summary(next);
    if x.professionalId == id {
      assert next == mine + [x];
      SummarySnoc(mine, x);
    } else {
      assert next == mine;
    }
  }

  /** `reviewMap` holds, for every id, what `StatsOf` says. */
  ghost predicate HoldsStatsOf(reviewMap: map<Id, Stats>, reviews: seq<ProfessionalReview>)
  {
    forall id :: Get(reviewMap, id) == StatsOf(reviews, id)
  }

  /** `reviewMap` after the loop body has folded `review` in: the entry of its professional,
      `{0, 0}` when missing, with the hearts and one added. */
  function Bumped(reviewMap: map<Id, Stats>, review: ProfessionalReview): map<Id, Stats>
  {
    var entry := GetOr(Get(reviewMap, review.professionalId), Stats(0, 0));
    reviewMap[review.professionalId := Stats(entry.total + review.hearts, entry.count + 1)]
  }

  /** The entry of `id` after one iteration of the `reviewMap` loop is the stats of the reviews
      seen so far plus `review`. */
  lemma EntryStep(reviewMap: map<Id, Stats>, done: seq<ProfessionalReview>,
                  review: ProfessionalReview, id: Id)
    requires Get(reviewMap, id) == StatsOf(done, id)
    requires Get(reviewMap, review.professionalId) == StatsOf(done, review.professionalId)
    ensures Get(Bumped(reviewMap, review), id) == StatsOf(done + [review], id)
  {
    StatsOfSnoc(done, review, id);
  }

  /** One iteration of the `reviewMap` loop keeps the map equal to the stats of the reviews seen. */
  lemma ReviewMapStep(reviewMap: map<Id, Stats>, reviews: seq<ProfessionalReview>, i: nat)
    requires i < |reviews|
    requires HoldsStatsOf(reviewMap, reviews[..i])
    ensures HoldsStatsOf(Bumped(reviewMap, reviews[i]), reviews[..i + 1])
  {
    var done, review := reviews[..i], reviews[i];
    assert reviews[..i + 1] == done + [review];
    forall id
      ensures Get(Bumped(reviewMap, review), id) == StatsOf(done + [review], id)
    {
      EntryStep(reviewMap, done, review, id);
    }
  }

  /** The `reviewMap` loop: one pass over the reviews, creating an entry `{0, 0}` for a
      professional on its first review and adding the hearts and one to its entry on each. */
  method BuildReviewMap(reviews: seq<ProfessionalReview>) returns (reviewMap: map<Id, Stats>)
    ensures forall id :: Get(reviewMap, id) == StatsOf(reviews, id)
  {
    reviewMap := map[];
    var i := 0;
    while i < |reviews|
      invariant 0 <= i <= |reviews|
      invariant HoldsStatsOf(reviewMap, reviews[..i])
    {
      var review := reviews[i];
      var profId := review.professionalId;
      var entry := GetOr(Get(reviewMap, profId), Stats(0, 0));
      entry := Stats(entry.total + review.hearts, entry.count + 1);
      ReviewMapStep(reviewMap, reviews, i);
      reviewMap := reviewMap[profId := entry];
      i := i + 1;
    }
    assert reviews[..i] == reviews;
  }

  /** `stats ? total / count : null`. */
  function StatsRating(stats: Option<Stats>): (r: Option<real>)
    requires stats.Some? ==> stats.value.count > 0
    ensures r.None? <==> stats.None?
    ensures r.Some? ==> r.value * stats.value.count as real == stats.value.total as real
  {
    match stats
    case None => None
    case Some(s) => Some(s.total as real / s.count as real)
  }

  /** The list entry of professional `u` given its `reviewMap` entry. */
  function ProjectProfessional(u: User, stats: Option<Stats>, lat: Option<real>, lng: Option<real>,
                               haversine: DistanceFn): ProfessionalResult
    requires stats.Some? ==> stats.value.count > 0
  {
    ProfessionalResult(u.id, DisplayName(u), StatsRating(stats),
                       Distance(lat, lng, u.latitude, u.longitude, haversine))
  }

  /** The professionals list before the range filter: one entry per listed professional. */
  function ProjectProfessionals(listed: seq<User>, reviews: seq<ProfessionalReview>,
                                lat: Option<real>, lng: Option<real>, haversine: DistanceFn)
    : (r: seq<ProfessionalResult>)
    ensures |r| == |listed|
    ensures forall i :: 0 <= i < |listed| ==> r[i].id == listed[i].id
    ensures forall i :: 0 <= i < |listed| ==>
              (r[i].rating.None? <==> ReviewsOf(reviews, listed[i].id) == [])
    ensures forall i :: 0 <= i < |listed| ==>
              r[i].rating == MeanRating(ReviewsOf(reviews, listed[i].id), Hearts)
    ensures forall i :: 0 <= i < |listed| ==>
              (r[i].distance.Some? <==> lat.Some? && lng.Some?
                                        && listed[i].latitude.Some? && listed[i].longitude.Some?)
    ensures forall i :: 0 <= i < |listed| && r[i].distance.Some? ==>
              r[i].distance.value == haversine(lat.value, lng.value, listed[i].latitude.value,
                                               listed[i].longitude.value)
  {
    MapSeq(listed, (u: User) => ProjectProfessional(u, StatsOf(reviews, u.id), lat, lng, haversine))
  }

  /** The body of the `GET /professionals` response. No `minRating` filter applies here. */
  function ProfessionalsResponse(q: ProfessionalsQuery, users: seq<User>,
                                 reviews: seq<ProfessionalReview>, haversine: DistanceFn)
    : seq<ProfessionalResult>
  {
    var listed := ListedProfessionals(q, users);
    var rangeKm := ParseNumber(q.rangeKm);
    var projected := ProjectProfessionals(listed, FetchedReviews(reviews, listed),
                                          ParseNumber(q.lat), ParseNumber(q.lng), haversine);
    Filter(projected, (r: ProfessionalResult) => InRange(rangeKm, r.distance))
  }

  /** The `GET /professionals` handler: the list query, the review query, the `reviewMap` loop,
      the projection and the range filter. */
  method ListProfessionals(q: ProfessionalsQuery, users: seq<User>,
                           reviews: seq<ProfessionalReview>, haversine: DistanceFn)
    returns (results: seq<ProfessionalResult>)
    ensures results == ProfessionalsResponse(q, users, reviews, haversine)
  {
    var rangeKm, lat, lng := ParseNumber(q.rangeKm), ParseNumber(q.lat), ParseNumber(q.lng);
    var professionals := ListedProfessionals(q, users);
    var fetched := FetchedReviews(reviews, professionals);
    var reviewMap := BuildReviewMap(fetched);
    var projected := MapSeq(professionals, (u: User) requires Get(reviewMap, u.id).Some? ==> Get(reviewMap, u.id).value.count > 0 =>
      ProjectProfessional(u, Get(reviewMap, u.id), lat, lng, haversine));
    assert projected == ProjectProfessionals(professionals, fetched, lat, lng, haversine);
    results := Filter(projected, (r: ProfessionalResult) => InRange(rangeKm, r.distance));
  }

  /** A professional's detail page. */
  datatype ProfessionalDetail = ProfessionalDetail(
    id: Id, name: string, description: Option<string>, rating: Option<real>)

  predicate IsProfessionalWithId(u: User, id: Id)
  {
    u.id == id && u.profileType == Professional
  }

  /** The `GET /professionals/:id` handler: `NOT_FOUND` unless a professional has this id, and
      otherwise the mean hearts of its reviews. */
  function ProfessionalDetailOf(users: seq<User>, reviews: seq<ProfessionalReview>, id: Id)
    : (r: Result<ProfessionalDetail, ApiError>)
    ensures r.Failure? <==> forall u :: u in users ==> !IsProfessionalWithId(u, id)
    ensures r.Failure? ==> r.error == NotFound
    ensures r.Success? ==> r.value.id == id
    ensures r.Success? ==> (r.value.rating.None? <==> ReviewsOf(reviews, id) == [])
    ensures r.Success? ==> r.value.rating == MeanRating(ReviewsOf(reviews, id), Hearts)
  {
    match FindFirst(users, (u: User) => IsProfessionalWithId(u, id))
    case None => Failure(NotFound)
    case Some(p) =>
      var description :=
        if Truthy(p.serviceDescription) then p.serviceDescription else p.bio;
      Success(ProfessionalDetail(p.id, DisplayName(p), description,
                                 MeanRating(ReviewsOf(reviews, p.id), Hearts)))
  }

  // ---------------------------------------------------------------------------------------------
  // Establishments

  datatype EstablishmentReview = EstablishmentReview(stars: int, comment: Option<string>)

  function Stars(review: EstablishmentReview): int
  {
    review.stars
  }

  /** An establishment record together with its reviews. */
  datatype Establishment = Establishment(
    id: Id,
    name: string,
    categoryId: Option<Id>,
    latitude: Option<real>,
    longitude: Option<real>,
    reviews: seq<EstablishmentReview>)

  /** The query parameters of `GET /establishments`. */
  datatype EstablishmentsQuery = EstablishmentsQuery(
    categoryId: Option<string>,
    rangeKm: JsNumber,
    minRating: JsNumber,
    lat: JsNumber,
    lng: JsNumber)

  datatype EstablishmentResult = EstablishmentResult(
    id: Id, name: string, rating: Option<real>, distance: Option<real>)

  function ProjectEstablishment(e: Establishment, lat: Option<real>, lng: Option<real>,
                                haversine: DistanceFn): EstablishmentResult
  {
    EstablishmentResult(e.id, e.name, MeanRating(e.reviews, Stars),
                        Distance(lat, lng, e.latitude, e.longitude, haversine))
  }

  /** The establishments list before the two filters: one entry per listed establishment. */
  function ProjectEstablishments(listed: seq<Establishment>, lat: Option<real>, lng: Option<real>,
                                 haversine: DistanceFn): (r: seq<EstablishmentResult>)
    ensures |r| == |listed|
    ensures forall i :: 0 <= i < |listed| ==> r[i].id == listed[i].id
    ensures forall i :: 0 <= i < |listed| ==> (r[i].rating.None? <==> listed[i].reviews == [])
    ensures forall i :: 0 <= i < |listed| ==> r[i].rating == MeanRating(listed[i].reviews, Stars)
    ensures forall i :: 0 <= i < |listed| ==>
              (r[i].distance.Some? <==> lat.Some? && lng.Some?
                                        && listed[i].latitude.Some? && listed[i].longitude.Some?)
    ensures forall i :: 0 <= i < |listed| && r[i].distance.Some? ==>
              r[i].distance.value == haversine(lat.value, lng.value, listed[i].latitude.value,
                                               listed[i].longitude.value)
  {
    MapSeq(listed, (e: Establishment) => ProjectEstablishment(e, lat, lng, haversine))
  }

  function ListedEstablishments(q: EstablishmentsQuery, establishments: seq<Establishment>)
    : seq<Establishment>
  {
    Filter(establishments, (e: Establishment) => MatchesCriterion(q.categoryId, e.categoryId))
  }

  /** The body of the `GET /establishments` response: the range filter, then the rating filter. */
  function EstablishmentsResponse(q: EstablishmentsQuery, establishments: seq<Establishment>,
                                  haversine: DistanceFn): seq<EstablishmentResult>
  {
    var rangeKm, minRating := ParseNumber(q.rangeKm), ParseNumber(q.minRating);
    var projected := ProjectEstablishments(ListedEstablishments(q, establishments),
                                           ParseNumber(q.lat), ParseNumber(q.lng), haversine);
    Filter(Filter(projected, (r: EstablishmentResult) => InRange(rangeKm, r.distance)),
           (r: EstablishmentResult) => MeetsMinRating(minRating, r.rating))
  }

  datatype EstablishmentDetail = EstablishmentDetail(id: Id, name: string, rating: Option<real>)

  /** The `GET /establishments/:id` handler. */
  function EstablishmentDetailOf(establishments: seq<Establishment>, id: Id)
    : (r: Result<EstablishmentDetail, ApiError>)
    ensures r.Failure? <==> forall e :: e in establishments ==> e.id != id
    ensures r.Failure? ==> r.error == NotFound
    ensures r.Success? ==> r.value.id == id
    ensures r.Success? ==> exists e :: e in establishments && e.id == id
                                       && r.value.rating == MeanRating(e.reviews, Stars)
  {
    match FindFirst(establishments, (e: Establishment) => e.id == id)
    case None => Failure(NotFound)
    case Some(e) => Success(EstablishmentDetail(e.id, e.name, MeanRating(e.reviews, Stars)))
  }

  /** The guard of `POST /establishments/:id/reviews`: `!stars || stars < 1 || stars > 5`
      rejects an unparsable, zero or out-of-range value. */
  function ValidateStars(coerced: JsNumber): (r: Result<real, ApiError>)
    ensures r.Success? <==> IsFinite(coerced) && 1.0 <= coerced.value <= 5.0
    ensures r.Success? ==> r.value == coerced.value
    ensures r.Failure? ==> r.error == InvalidRating
  {
    var stars := ParseNumber(coerced);
    if stars.None? || stars.value == 0.0 || stars.value < 1.0 || stars.value > 5.0
    then Failure(InvalidRating)
    else Success(stars.value)
  }
}

/** What the discovery handlers guarantee, stated over the whole pipeline. */
module DiscoveryProperties {
  import opened Wrappers
  import opened Js
  import opened Sequences
  import opened Discovery

  function ResultIds(rs: seq<ProfessionalResult>): seq<Id>
  {
    MapSeq(rs, (r: ProfessionalResult) => r.id)
  }

  function UserIds(us: seq<User>): seq<Id>
  {
    MapSeq(us, (u: User) => u.id)
  }

  function EstablishmentResultIds(rs: seq<EstablishmentResult>): seq<Id>
  {
    MapSeq(rs, (r: EstablishmentResult) => r.id)
  }

  function EstablishmentIds(es: seq<Establishment>): seq<Id>
  {
    MapSeq(es, (e: Establishment) => e.id)
  }

  /** The professionals list keeps a projected entry exactly when the range filter keeps it:
      its rating plays no part. */
  lemma ProfessionalsKeptIff(q: ProfessionalsQuery, users: seq<User>,
                             reviews: seq<ProfessionalReview>, haversine: DistanceFn)
    ensures var listed := ListedProfessionals(q, users);
            var projected := ProjectProfessionals(listed, FetchedReviews(reviews, listed),
                                                  ParseNumber(q.lat), ParseNumber(q.lng), haversine);
            var rangeKm := ParseNumber(q.rangeKm);
            forall r :: r in ProfessionalsResponse(q, users, reviews, haversine)
                        <==> && r in projected
                             && (rangeKm.None? || r.distance.None? || r.distance.value <= rangeKm.value)
  {
    var listed := ListedProfessionals(q, users);
    var projected := ProjectProfessionals(listed, FetchedReviews(reviews, listed),
                                          ParseNumber(q.lat), ParseNumber(q.lng), haversine);
    var rangeKm := ParseNumber(q.rangeKm);
    FilterMembers(projected, (r: ProfessionalResult) => InRange(rangeKm, r.distance));
  }

  /** The ids of the professionals list are, in order, a subsequence of the ids of the user
      records. */
  lemma ProfessionalsOrderPreserved(q: ProfessionalsQuery, users: seq<User>,
                                    reviews: seq<ProfessionalReview>, haversine: DistanceFn)
    ensures IsSubsequence(ResultIds(ProfessionalsResponse(q, users, reviews, haversine)), UserIds(users))
  {
    var listed := ListedProfessionals(q, users);
    var projected := ProjectProfessionals(listed, FetchedReviews(reviews, listed),
                                          ParseNumber(q.lat), ParseNumber(q.lng), haversine);
    var keep := (r: ProfessionalResult) => InRange(ParseNumber(q.rangeKm), r.distance);
    var response := Filter(projected, keep);
    assert response == ProfessionalsResponse(q, users, reviews, haversine);
    FilterIsSubsequence(projected, keep);
    SubsequenceMap(response, projected, (r: ProfessionalResult) => r.id);
    assert ResultIds(projected) == UserIds(listed);
    FilterIsSubsequence(users, (u: User) => IsListed(q, u));
    SubsequenceMap(listed, users, (u: User) => u.id);
    SubsequenceTransitive(ResultIds(response), UserIds(listed), UserIds(users));
  }

  /** Every entry of the professionals list belongs to a professional matching the query. */
  lemma ProfessionalsMatchQuery(q: ProfessionalsQuery, users: seq<User>,
                                reviews: seq<ProfessionalReview>, haversine: DistanceFn)
    ensures forall r :: r in ProfessionalsResponse(q, users, reviews, haversine) ==>
              exists u :: u in users && IsListed(q, u) && u.id == r.id
  {
    var listed := ListedProfessionals(q, users);
    var projected := ProjectProfessionals(listed, FetchedReviews(reviews, listed),
                                          ParseNumber(q.lat), ParseNumber(q.lng), haversine);
    ProfessionalsKeptIff(q, users, reviews, haversine);
    FilterMembers(users, (u: User) => IsListed(q, u));
    forall r | r in ProfessionalsResponse(q, users, reviews, haversine)
      ensures exists u :: u in users && IsListed(q, u) && u.id == r.id
    {
      var i :| 0 <= i < |projected| && projected[i] == r;
      assert listed[i] in listed;
    }
  }

  /** A listed professional whose distance cannot be computed is always in the list, whatever
      the radius. */
  lemma UnknownDistanceAlwaysListed(q: ProfessionalsQuery, users: seq<User>,
                                    reviews: seq<ProfessionalReview>, haversine: DistanceFn, i: nat)
    requires i < |ListedProfessionals(q, users)|
    requires var u := ListedProfessionals(q, users)[i];
             !IsFinite(q.lat) || !IsFinite(q.lng) || u.latitude.None? || u.longitude.None?
    ensures var listed := ListedProfessionals(q, users);
            ProjectProfessionals(listed, FetchedReviews(reviews, listed), ParseNumber(q.lat),
                                 ParseNumber(q.lng), haversine)[i]
              in ProfessionalsResponse(q, users, reviews, haversine)
  {
    ProfessionalsKeptIff(q, users, reviews, haversine);
  }

  /** The rating a professional shows in the list (through `reviewMap`) is the rating its detail
      page computes (through `reduce` over its own reviews). */
  lemma ListAndDetailRatingsAgree(q: ProfessionalsQuery, users: seq<User>,
                                  reviews: seq<ProfessionalReview>, haversine: DistanceFn, i: nat)
    requires i < |ListedProfessionals(q, users)|
    ensures var listed := ListedProfessionals(q, users);
            var detail := ProfessionalDetailOf(users, reviews, listed[i].id);
            && detail.Success?
            && ProjectProfessionals(listed, FetchedReviews(reviews, listed), ParseNumber(q.lat),
                                    ParseNumber(q.lng), haversine)[i].rating
               == detail.value.rating
  {
    var listed := ListedProfessionals(q, users);
    var u := listed[i];
    var ids := set v | v in listed :: v.id;
    assert u in listed;
    FilterMembers(users, (v: User) => IsListed(q, v));
    assert IsProfessionalWithId(u, u.id);
    var inIds := (x: ProfessionalReview) => x.professionalId in ids;
    var isU := (x: ProfessionalReview) => x.professionalId == u.id;
    FilterAbsorbs(reviews, inIds, isU);
    assert ReviewsOf(FetchedReviews(reviews, listed), u.id) == ReviewsOf(reviews, u.id);
  }

  /** The establishments list keeps an entry exactly when both permissive filters keep it. */
  lemma EstablishmentsKeptIff(q: EstablishmentsQuery, establishments: seq<Establishment>,
                              haversine: DistanceFn)
    ensures var projected := ProjectEstablishments(ListedEstablishments(q, establishments),
                                                   ParseNumber(q.lat), ParseNumber(q.lng), haversine);
            var rangeKm, minRating := ParseNumber(q.rangeKm), ParseNumber(q.minRating);
            forall r :: r in EstablishmentsResponse(q, establishments, haversine)
                        <==> && r in projected
                             && (rangeKm.None? || r.distance.None? || r.distance.value <= rangeKm.value)
                             && (minRating.None? || r.rating.None? || r.rating.value >= minRating.value)
  {
    var projected := ProjectEstablishments(ListedEstablishments(q, establishments),
                                           ParseNumber(q.lat), ParseNumber(q.lng), haversine);
    var inRange := (r: EstablishmentResult) => InRange(ParseNumber(q.rangeKm), r.distance);
    var rated := (r: EstablishmentResult) => MeetsMinRating(ParseNumber(q.minRating), r.rating);
    FilterMembers(projected, inRange);
    FilterMembers(Filter(projected, inRange), rated);
  }

  /** Applying the rating filter before the range filter gives the same list. */
  lemma EstablishmentFiltersCommute(q: EstablishmentsQuery, establishments: seq<Establishment>,
                                    haversine: DistanceFn)
    ensures var projected := ProjectEstablishments(ListedEstablishments(q, establishments),
                                                   ParseNumber(q.lat), ParseNumber(q.lng), haversine);
            EstablishmentsResponse(q, establishments, haversine)
            == Filter(Filter(projected, (r: EstablishmentResult) => MeetsMinRating(ParseNumber(q.minRating), r.rating)),
                      (r: EstablishmentResult) => InRange(ParseNumber(q.rangeKm), r.distance))
  {
    var projected := ProjectEstablishments(ListedEstablishments(q, establishments),
                                           ParseNumber(q.lat), ParseNumber(q.lng), haversine);
    FilterCommutes(projected,
                   (r: EstablishmentResult) => InRange(ParseNumber(q.rangeKm), r.distance),
                   (r: EstablishmentResult) => MeetsMinRating(ParseNumber(q.minRating), r.rating));
  }

  /** The ids of the establishments list are, in order, a subsequence of the establishment ids. */
  lemma EstablishmentsOrderPreserved(q: EstablishmentsQuery, establishments: seq<Establishment>,
                                     haversine: DistanceFn)
    ensures IsSubsequence(EstablishmentResultIds(EstablishmentsResponse(q, establishments, haversine)),
                          EstablishmentIds(establishments))
  {
    var listed := ListedEstablishments(q, establishments);
    var projected := ProjectEstablishments(listed, ParseNumber(q.lat), ParseNumber(q.lng), haversine);
    var inRange := (r: EstablishmentResult) => InRange(ParseNumber(q.rangeKm), r.distance);
    var rated := (r: EstablishmentResult) => MeetsMinRating(ParseNumber(q.minRating), r.rating);
    var ranged := Filter(projected, inRange);
    var response := Filter(ranged, rated);
    assert response == EstablishmentsResponse(q, establishments, haversine);
    var id := (r: EstablishmentResult) => r.id;
    FilterIsSubsequence(ranged, rated);
    FilterIsSubsequence(projected, inRange);
    SubsequenceTransitive(response, ranged, projected);
    SubsequenceMap(response, projected, id);
    assert EstablishmentResultIds(projected) == EstablishmentIds(listed);
    FilterIsSubsequence(establishments, (e: Establishment) => MatchesCriterion(q.categoryId, e.categoryId));
    SubsequenceMap(listed, establishments, (e: Establishment) => e.id);
    SubsequenceTransitive(EstablishmentResultIds(response), EstablishmentIds(listed),
                          EstablishmentIds(establishments));
  }

  /** When every stored review has 1 to 5 stars, every listed rating lies in [1, 5]. */
  lemma EstablishmentRatingsWithinStars(q: EstablishmentsQuery, establishments: seq<Establishment>,
                                        haversine: DistanceFn)
    requires forall e, x :: e in establishments && x in e.reviews ==> 1 <= x.stars <= 5
    ensures forall r :: r in EstablishmentsResponse(q, establishments, haversine) && r.rating.Some?
                        ==> 1.0 <= r.rating.value <= 5.0
  {
    var listed := ListedEstablishments(q, establishments);
    var projected := ProjectEstablishments(listed, ParseNumber(q.lat), ParseNumber(q.lng), haversine);
    EstablishmentsKeptIff(q, establishments, haversine);
    FilterMembers(establishments, (e: Establishment) => MatchesCriterion(q.categoryId, e.categoryId));
    forall r | r in EstablishmentsResponse(q, establishments, haversine) && r.rating.Some?
      ensures 1.0 <= r.rating.value <= 5.0
    {
      var i :| 0 <= i < |projected| && projected[i] == r;
      var e := listed[i];
      assert e in listed;
      MeanRatingBounds(e.reviews, Stars, 1, 5);
    }
  }

  /** Three reviews with 3, 4 and 5 stars average 4. */
  lemma ThreeReviewsAverageFour()
    ensures MeanRating([EstablishmentReview(3, None), EstablishmentReview(4, None),
                        EstablishmentReview(5, None)], Stars) == Some(4.0)
  {
    var a, b, c := EstablishmentReview(3, None), EstablishmentReview(4, None), EstablishmentReview(5, None);
    TotalSnoc([], a, Stars);
    TotalSnoc([a], b, Stars);
    TotalSnoc([a, b], c, Stars);
    assert [] + [a] == [a] && [a] + [b] == [a, b] && [a, b] + [c] == [a, b, c];
    assert Total([a, b, c], Stars) == 12;
  }

  /** An establishment at (0, 0) seen from (0, 1), about 111.19 km away: a 100 km radius drops
      it and a 120 km radius keeps it. */
  lemma RadiusScenario(haversine: DistanceFn, e: Establishment)
    requires haversine(0.0, 1.0, 0.0, 0.0) == 111.19
    requires e.categoryId == None && e.latitude == Some(0.0) && e.longitude == Some(0.0)
    ensures EstablishmentsResponse(EstablishmentsQuery(None, Finite(100.0), NaN, Finite(0.0), Finite(1.0)),
                                   [e], haversine) == []
    ensures EstablishmentsResponse(EstablishmentsQuery(None, Finite(120.0), NaN, Finite(0.0), Finite(1.0)),
                                   [e], haversine)
            == [EstablishmentResult(e.id, e.name, MeanRating(e.reviews, Stars), Some(111.19))]
  {
    var q100 := EstablishmentsQuery(None, Finite(100.0), NaN, Finite(0.0), Finite(1.0));
    var q120 := EstablishmentsQuery(None, Finite(120.0), NaN, Finite(0.0), Finite(1.0));
    var r := EstablishmentResult(e.id, e.name, MeanRating(e.reviews, Stars), Some(111.19));
    assert [e][..0] == [];
    assert ListedEstablishments(q100, [e]) == [e];
    assert ListedEstablishments(q120, [e]) == [e];
    assert ProjectEstablishments([e], Some(0.0), Some(1.0), haversine) == [r];
    assert [r][..0] == [];
  }

  /** User ids are the primary key of the user table. */
  ghost predicate UniqueIds(users: seq<User>)
  {
    forall j, k :: 0 <= j < |users| && 0 <= k < |users| && users[j].id == users[k].id ==> j == k
  }

  /** With unique user ids, a listed professional shows the same name in the list and on its
      detail page: its `displayName` when that is non-empty, its `username` otherwise. */
  lemma ListAndDetailNamesAgree(q: ProfessionalsQuery, users: seq<User>,
                                reviews: seq<ProfessionalReview>, haversine: DistanceFn, i: nat)
    requires UniqueIds(users)
    requires i < |ListedProfessionals(q, users)|
    ensures var listed := ListedProfessionals(q, users);
            var detail := ProfessionalDetailOf(users, reviews, listed[i].id);
            var name := if Truthy(listed[i].displayName) then listed[i].displayName.value
                        else listed[i].username;
            && detail.Success?
            && detail.value.name == name
            && ProjectProfessionals(listed, FetchedReviews(reviews, listed), ParseNumber(q.lat),
                                    ParseNumber(q.lng), haversine)[i].name == name
  {
    var listed := ListedProfessionals(q, users);
    var u := listed[i];
    assert u in listed;
    FilterMembers(users, (v: User) => IsListed(q, v));
    var matches := (v: User) => IsProfessionalWithId(v, u.id);
    assert matches(u);
    var found := FindFirst(users, matches);
    var k :| 0 <= k < |users| && users[k] == found.value && matches(users[k]);
    var j :| 0 <= j < |users| && users[j] == u;
    assert users[k].id == users[j].id;
  }

  /** With unique user ids, the detail page of a professional describes it by its
      `serviceDescription` when that is non-empty, and by its `bio` otherwise. */
  lemma DetailDescriptionFallsBackToBio(users: seq<User>, reviews: seq<ProfessionalReview>,
                                        u: User)
    requires UniqueIds(users)
    requires u in users && u.profileType == Professional
    ensures var detail := ProfessionalDetailOf(users, reviews, u.id);
            && detail.Success?
            && detail.value.description
               == (if u.serviceDescription.Some? && u.serviceDescription.value != ""
                   then u.serviceDescription else u.bio)
  {
    var matches := (v: User) => IsProfessionalWithId(v, u.id);
    assert matches(u);
    var found := FindFirst(users, matches);
    var k :| 0 <= k < |users| && users[k] == found.value && matches(users[k]);
    var j :| 0 <= j < |users| && users[j] == u;
    assert users[k].id == users[j].id;
  }

  /** The list query returns, in order, exactly the professionals that match every criterion
      given as a non-empty string; an absent or empty criterion matches everyone. */
  lemma ListedProfessionalsIff(q: ProfessionalsQuery, users: seq<User>)
    ensures IsSubsequence(ListedProfessionals(q, users), users)
    ensures forall u :: u in ListedProfessionals(q, users) <==>
              && u in users && u.profileType == Professional
              && (q.categoryId.Some? && q.categoryId.value != "" ==> u.categoryId == q.categoryId)
              && (q.gender.Some? && q.gender.value != "" ==> u.gender == q.gender)
              && (q.tier.Some? && q.tier.value != "" ==> u.tier == q.tier)
  {
    FilterMembers(users, (u: User) => IsListed(q, u));
    FilterIsSubsequence(users, (u: User) => IsListed(q, u));
  }

  /** The establishments query returns, in order, the establishments of the category when one
      is given as a non-empty string, and all of them otherwise. */
  lemma ListedEstablishmentsIff(q: EstablishmentsQuery, establishments: seq<Establishment>)
    ensures IsSubsequence(ListedEstablishments(q, establishments), establishments)
    ensures forall e :: e in ListedEstablishments(q, establishments) <==>
              && e in establishments
              && (q.categoryId.Some? && q.categoryId.value != "" ==> e.categoryId == q.categoryId)
    ensures !Truthy(q.categoryId) ==> ListedEstablishments(q, establishments) == establishments
  {
    var keep := (e: Establishment) => MatchesCriterion(q.categoryId, e.categoryId);
    FilterMembers(establishments, keep);
    FilterIsSubsequence(establishments, keep);
    if !Truthy(q.categoryId) {
      FilterKeepsAll(establishments, keep);
    }
  }

  /** The review query fetches, in order, exactly the reviews of the listed professionals. */
  lemma FetchedReviewsIff(reviews: seq<ProfessionalReview>, listed: seq<User>)
    ensures IsSubsequence(FetchedReviews(reviews, listed), reviews)
    ensures forall x :: x in FetchedReviews(reviews, listed) <==>
              x in reviews && exists u :: u in listed && u.id == x.professionalId
  {
    var ids := set u | u in listed :: u.id;
    var keep := (x: ProfessionalReview) => x.professionalId in ids;
    FilterMembers(reviews, keep);
    FilterIsSubsequence(reviews, keep);
  }

  /** A radius that does not parse as a finite number filters nothing: the professionals list is
      the whole projection. */
  lemma UnparsableRadiusKeepsAllProfessionals(q: ProfessionalsQuery, users: seq<User>,
                                              reviews: seq<ProfessionalReview>, haversine: DistanceFn)
    requires !IsFinite(q.rangeKm)
    ensures var listed := ListedProfessionals(q, users);
            ProfessionalsResponse(q, users, reviews, haversine)
            == ProjectProfessionals(listed, FetchedReviews(reviews, listed), ParseNumber(q.lat),
                                    ParseNumber(q.lng), haversine)
  {
    var listed := ListedProfessionals(q, users);
    var projected := ProjectProfessionals(listed, FetchedReviews(reviews, listed),
                                          ParseNumber(q.lat), ParseNumber(q.lng), haversine);
    FilterKeepsAll(projected, (r: ProfessionalResult) => InRange(ParseNumber(q.rangeKm), r.distance));
  }

  /** A radius or a minimum rating that does not parse as a finite number drops that filter from
      the establishments list; with neither, the list is the whole projection. */
  lemma UnparsableCriteriaKeepAllEstablishments(q: EstablishmentsQuery, establishments: seq<Establishment>,
                                                haversine: DistanceFn)
    ensures var projected := ProjectEstablishments(ListedEstablishments(q, establishments),
                                                   ParseNumber(q.lat), ParseNumber(q.lng), haversine);
            var inRange := (r: EstablishmentResult) => InRange(ParseNumber(q.rangeKm), r.distance);
            var rated := (r: EstablishmentResult) => MeetsMinRating(ParseNumber(q.minRating), r.rating);
            && (!IsFinite(q.minRating) ==>
                  EstablishmentsResponse(q, establishments, haversine) == Filter(projected, inRange))
            && (!IsFinite(q.rangeKm) ==>
                  EstablishmentsResponse(q, establishments, haversine) == Filter(projected, rated))
            && (!IsFinite(q.rangeKm) && !IsFinite(q.minRating) ==>
                  EstablishmentsResponse(q, establishments, haversine) == projected)
  {
    var projected := ProjectEstablishments(ListedEstablishments(q, establishments),
                                           ParseNumber(q.lat), ParseNumber(q.lng), haversine);
    var inRange := (r: EstablishmentResult) => InRange(ParseNumber(q.rangeKm), r.distance);
    var rated := (r: EstablishmentResult) => MeetsMinRating(ParseNumber(q.minRating), r.rating);
    assert EstablishmentsResponse(q, establishments, haversine) == Filter(Filter(projected, inRange), rated);
    if !IsFinite(q.minRating) {
      FilterKeepsAll(Filter(projected, inRange), rated);
    }
    if !IsFinite(q.rangeKm) {
      FilterKeepsAll(projected, inRange);
    }
  }
}
