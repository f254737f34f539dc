/**
  The course API of the server (`routes/courses.js`): listing, reading,
  creating, updating and deleting courses, with the ownership check on
  update and delete, and reviews that recompute the course rating as their
  mean. The store is a map from course id to course; the authenticated
  user's id is a parameter, as the authentication middleware is not part of
  this model.
 */
module CourseRoutes {
  import opened Wrappers
  import Listing
  import Seqs

  datatype Review = Review(user: nat, rating: real, comment: string)

  /**
    A stored course: its instructor, the fields this file never reads (as a
    map from field name to value), its reviews, its rating and its creation
    time.
   */
  datatype ApiCourse = ApiCourse(
    instructor: nat,
    info: map<string, string>,
    reviews: seq<Review>,
    rating: real,
    createdAt: int)

  /** The course collection; `nextId` is the id the next created course receives. */
  datatype Store = Store(courses: map<nat, ApiCourse>, nextId: nat)

  /** Every stored id was handed out before `nextId`. */
  predicate IdsIssued(s: Store)
  {
    forall id :: id in s.courses ==> id < s.nextId
  }

  /** A request body: any field may be given, including the ones the server sets itself. */
  datatype CourseBody = CourseBody(
    instructor: Option<nat>,
    info: map<string, string>,
    reviews: Option<seq<Review>>,
    rating: Option<real>,
    createdAt: Option<int>)

  /**
    What a handler answers. `Invalid` is a 400 carrying the database's own
    validation message, which is not modelled.
   */
  datatype Reply =
    | Found(status: nat, id: nat, course: ApiCourse)
    | Courses(status: nat, list: seq<ApiCourse>)
    | Message(status: nat, text: string)
    | Invalid(status: nat)

  const NotFound := "Course not found"
  const NotAuthorized := "Not authorized"
  const Deleted := "Course deleted"

  /** `GET /:id`: the course, or 404 "Course not found". */
  function GetCourse(s: Store, id: nat): (r: Reply)
    ensures id !in s.courses <==> r == Message(404, NotFound)
    ensures id in s.courses ==> r == Found(200, id, s.courses[id])
  {
    if id !in s.courses then Message(404, NotFound) else Found(200, id, s.courses[id])
  }

  /**
    `GET /`: every course, newest first. The order among courses created at the
    same time is whatever the database returns, so any such order is allowed.
   */
  method ListCourses(s: Store) returns (r: Reply, ghost ids: seq<nat>)
    ensures r.Courses? && r.status == 200
    ensures Seqs.NoDuplicates(ids) && (forall id :: id in s.courses <==> id in ids)
    ensures Listing.AllStored(s.courses, ids) && r.list == Listing.Records(s.courses, ids)
    ensures |r.list| == |s.courses.Keys|
    ensures forall i, j :: 0 <= i < j < |r.list| ==> r.list[i].createdAt >= r.list[j].createdAt
    ensures forall id :: id in s.courses ==> s.courses[id] in r.list
    ensures forall i :: 0 <= i < |r.list| ==> r.list[i] in s.courses.Values
  {
    var sorted := Listing.SortedIds(s.courses, (c: ApiCourse) => c.createdAt);
    var list := Listing.Records(s.courses, sorted);
    forall id | id in s.courses
      ensures s.courses[id] in list
    {
      var k :| 0 <= k < |sorted| && sorted[k] == id;
      assert list[k] == s.courses[id];
    }
    r, ids := Courses(200, list), sorted;
  }

  /**
    The course a create builds: the body's fields, with the instructor always
    the authenticated user. Reviews, rating and creation time not given in
    the body take the schema defaults assumed here: none, 0 and now.
   */
  function NewCourse(user: nat, body: CourseBody, now: int): (c: ApiCourse)
    ensures c.instructor == user
    ensures c.info == body.info
    ensures body.createdAt.None? ==> c.createdAt == now
  {
    ApiCourse(user, body.info, body.reviews.GetOr([]), body.rating.GetOr(0.0), body.createdAt.GetOr(now))
  }

  /**
    `POST /`: stores the new course under a fresh id and answers 201 with it;
    when the schema rejects it (`accepts` stands for the server's validation,
    whose schema is not part of this model) answers 400 and stores nothing.
   */
  function CreateCourse(s: Store, user: nat, body: CourseBody, now: int, accepts: ApiCourse -> bool): (r: (Store, Reply))
    ensures r.1.Found? || r.1 == Invalid(400)
    ensures r.1.Found? <==> accepts(NewCourse(user, body, now))
    ensures r.1 == Invalid(400) ==> r.0 == s
    ensures r.1.Found? ==>
      && r.1.status == 201 && r.1.id == s.nextId && r.1.course.instructor == user
      && r.1.course == NewCourse(user, body, now)
      && r.0.courses == s.courses[s.nextId := r.1.course]
      && r.0.nextId == s.nextId + 1
  {
    var c := NewCourse(user, body, now);
    if !accepts(c) then (s, Invalid(400))
    else (Store(s.courses[s.nextId := c], s.nextId + 1), Found(201, s.nextId, c))
  }

  /** The fields an update body may set; absent ones are left alone. */
  datatype CoursePatch = CoursePatch(
    instructor: Option<nat>,
    info: map<string, string>,
    reviews: Option<seq<Review>>,
    rating: Option<real>,
    createdAt: Option<int>)

  /** `findByIdAndUpdate(id, body)`: every field the body gives replaces the stored one; no validator runs. */
  function ApplyPatch(c: ApiCourse, p: CoursePatch): (r: ApiCourse)
    ensures p.instructor.None? ==> r.instructor == c.instructor
    ensures p.instructor.Some? ==> r.instructor == p.instructor.value
    ensures p.reviews.None? ==> r.reviews == c.reviews
    ensures p.reviews.Some? ==> r.reviews == p.reviews.value
    ensures p.rating.None? ==> r.rating == c.rating
    ensures p.rating.Some? ==> r.rating == p.rating.value
    ensures p.createdAt.None? ==> r.createdAt == c.createdAt
    ensures p.createdAt.Some? ==> r.createdAt == p.createdAt.value
    ensures forall k :: k in r.info <==> k in c.info || k in p.info
    ensures forall k :: k in p.info ==> r.info[k] == p.info[k]
    ensures forall k :: k in c.info && k !in p.info ==> r.info[k] == c.info[k]
  {
    ApiCourse(
      p.instructor.GetOr(c.instructor),
      c.info + p.info,
      p.reviews.GetOr(c.reviews),
      p.rating.GetOr(c.rating),
      p.createdAt.GetOr(c.createdAt))
  }

  /**
    `PUT /:id`: a missing course is 404 before anything else; a course of
    another instructor is 401 and nothing changes; the owner's body is merged
    in and the updated course returned.
   */
  function UpdateCourse(s: Store, user: nat, id: nat, p: CoursePatch): (r: (Store, Reply))
    ensures id !in s.courses ==> r == (s, Message(404, NotFound))
    ensures id in s.courses && s.courses[id].instructor != user ==> r == (s, Message(401, NotAuthorized))
    ensures id in s.courses && s.courses[id].instructor == user ==>
      && r.1 == Found(200, id, ApplyPatch(s.courses[id], p))
      && r.0 == s.(courses := s.courses[id := r.1.course])
  {
    if id !in s.courses then (s, Message(404, NotFound))
    else if s.courses[id].instructor != user then (s, Message(401, NotAuthorized))
    else
      var c := ApplyPatch(s.courses[id], p);
      (s.(courses := s.courses[id := c]), Found(200, id, c))
  }

  /**
    `DELETE /:id`: 404 for a missing course, 401 for another instructor's
    course (nothing changes), otherwise exactly that course is removed.
   */
  function DeleteCourse(s: Store, user: nat, id: nat): (r: (Store, Reply))
    ensures id !in s.courses ==> r == (s, Message(404, NotFound))
    ensures id in s.courses && s.courses[id].instructor != user ==> r == (s, Message(401, NotAuthorized))
    ensures id in s.courses && s.courses[id].instructor == user ==>
      && r.1 == Message(200, Deleted)
      && id !in r.0.courses
      && r.0.courses.Keys == s.courses.Keys - {id}
      && (forall k :: k in r.0.courses ==> r.0.courses[k] == s.courses[k])
      && r.0.nextId == s.nextId
  {
    if id !in s.courses then (s, Message(404, NotFound))
    else if s.courses[id].instructor != user then (s, Message(401, NotAuthorized))
    else (s.(courses := s.courses - {id}), Message(200, Deleted))
  }

  /** `reviews.reduce((acc, item) => item.rating + acc, 0)`: the ratings summed from the left. */
  function SumRatings(rs: seq<Review>): (r: real)
    ensures |rs| == 0 ==> r == 0.0
    ensures |rs| == 1 ==> r == rs[0].rating
    decreases |rs|
  {
    if |rs| == 0 then 0.0 else SumRatings(rs[..|rs| - 1]) + rs[|rs| - 1].rating
  }

  /** The mean rating of a non-empty list of reviews. */
  function MeanRating(rs: seq<Review>): real
    requires |rs| > 0
  {
    SumRatings(rs) / (|rs| as real)
  }

  /** The review list with one more review at the end and the rating recomputed from all of them. */
  function WithReview(c: ApiCourse, rv: Review): (r: ApiCourse)
    ensures r.reviews == c.reviews + [rv]
    ensures |r.reviews| == |c.reviews| + 1
    ensures r.rating == MeanRating(r.reviews)
    ensures r.instructor == c.instructor && r.info == c.info && r.createdAt == c.createdAt
  {
    var rs := c.reviews + [rv];
    c.(reviews := rs, rating := SumRatings(rs) / (|rs| as real))
  }

  /**
    `POST /:id/reviews`: 404 for a missing course; otherwise any authenticated
    user's review is appended and the rating becomes the mean of all review
    ratings, answered with 201 (400 with nothing stored when the schema
    rejects the result).
   */
  function AddReview(s: Store, user: nat, id: nat, rating: real, comment: string, accepts: ApiCourse -> bool): (r: (Store, Reply))
    ensures id !in s.courses ==> r == (s, Message(404, NotFound))
    ensures id in s.courses ==> r.1.Found? || r == (s, Invalid(400))
    ensures id in s.courses ==> (r.1.Found? <==> accepts(WithReview(s.courses[id], Review(user, rating, comment))))
    ensures r.1.Found? ==>
      && r.1.status == 201 && r.1.id == id && id in s.courses
      && r.1.course == WithReview(s.courses[id], Review(user, rating, comment))
      && r.0 == s.(courses := s.courses[id := r.1.course])
  {
    if id !in s.courses then (s, Message(404, NotFound))
    else
      var c := WithReview(s.courses[id], Review(user, rating, comment));
      if !accepts(c) then (s, Invalid(400))
      else (s.(courses := s.courses[id := c]), Found(201, id, c))
  }

  /** The sum of ratings that all lie in `[lo, hi]` lies between `n * lo` and `n * hi`. */
  lemma {:induction false} SumBounds(rs: seq<Review>, lo: real, hi: real)
    requires forall i :: 0 <= i < |rs| ==> lo <= rs[i].rating <= hi
    ensures (|rs| as real) * lo <= SumRatings(rs) <= (|rs| as real) * hi
    decreases |rs|
  {
    if |rs| > 0 {
      var m := (|rs| - 1) as real;
      SumBounds(rs[..|rs| - 1], lo, hi);
      assert (|rs| as real) * lo == m * lo + lo && (|rs| as real) * hi == m * hi + hi;
    }
  }

  /** The mean lies between the smallest and largest possible rating; with 1 to 5 stars it is between 1 and 5. */
  lemma MeanBounds(rs: seq<Review>, lo: real, hi: real)
    requires |rs| > 0
    requires forall i :: 0 <= i < |rs| ==> lo <= rs[i].rating <= hi
    ensures lo <= MeanRating(rs) <= hi
  {
    SumBounds(rs, lo, hi);
    MeanBetween(SumRatings(rs), |rs| as real, lo, hi);
  }

  /** A total of `n` values between `lo` and `hi`, divided by `n`, lies between them. */
  lemma MeanBetween(sum: real, n: real, lo: real, hi: real)
    requires n > 0.0 && n * lo <= sum <= n * hi
    ensures lo <= sum / n <= hi
  {
    DivMonotone(n * lo, sum, n);
    DivMonotone(sum, n * hi, n);
    assert lo == (n * lo) / n && hi == (n * hi) / n;
  }

  /** Dividing by a positive number keeps the order. */
  lemma DivMonotone(a: real, b: real, n: real)
    requires n > 0.0 && a <= b
    ensures a / n <= b / n
  {
    var d := (b - a) / n;
    assert d * n == b - a;
    assert b / n - a / n == d;
  }

  /** The sum over an extended list is the old sum plus the new rating. */
  lemma SumAppend(rs: seq<Review>, rv: Review)
    ensures SumRatings(rs + [rv]) == SumRatings(rs) + rv.rating
  {
    assert (rs + [rv])[..|rs|] == rs;
  }

  /**
    The stored rating can be maintained incrementally: when it already is the
    mean of the reviews, the new mean is the old one weighted by the old count
    plus the new rating, over the new count.
   */
  lemma IncrementalMean(c: ApiCourse, rv: Review)
    requires |c.reviews| > 0 && c.rating == MeanRating(c.reviews)
    ensures var n := |c.reviews| as real;
      WithReview(c, rv).rating == (c.rating * n + rv.rating) / (n + 1.0)
  {
    var n := |c.reviews| as real;
    SumAppend(c.reviews, rv);
    assert c.rating * n == SumRatings(c.reviews);
    assert |c.reviews + [rv]| as real == n + 1.0;
  }

  /** Only the owner can change a course: any other user's update or delete leaves the store as it was. */
  lemma NonOwnerChangesNothing(s: Store, user: nat, id: nat, p: CoursePatch)
    requires id in s.courses && s.courses[id].instructor != user
    ensures UpdateCourse(s, user, id, p).0 == s && UpdateCourse(s, user, id, p).1.status == 401
    ensures DeleteCourse(s, user, id).0 == s && DeleteCourse(s, user, id).1.status == 401
  {
  }

  /**
    The instructor an update body names is taken as it is: an owner can hand a
    course to another user, after which the former owner is refused.
   */
  lemma UpdateCanTransferOwnership(s: Store, owner: nat, other: nat, id: nat, p: CoursePatch, q: CoursePatch)
    requires id in s.courses && s.courses[id].instructor == owner
    requires p.instructor == Some(other) && other != owner
    ensures var s1 := UpdateCourse(s, owner, id, p).0;
      UpdateCourse(s1, owner, id, q) == (s1, Message(401, NotAuthorized))
  {
  }

  /**
    A create body's own rating is kept: a course can start with a rating that
    no review supports.
   */
  lemma CreateKeepsBodyRating(s: Store, user: nat, now: int, accepts: ApiCourse -> bool)
    requires accepts(NewCourse(user, CourseBody(None, map[], None, Some(5.0), None), now))
    ensures var r := CreateCourse(s, user, CourseBody(None, map[], None, Some(5.0), None), now, accepts);
      r.1.Found? && r.1.course.rating == 5.0 && r.1.course.reviews == []
  {
  }

  /** A created course can be read back under the id the reply names. */
  lemma GetAfterCreate(s: Store, user: nat, body: CourseBody, now: int, accepts: ApiCourse -> bool)
    requires accepts(NewCourse(user, body, now))
    ensures var r := CreateCourse(s, user, body, now, accepts);
      GetCourse(r.0, r.1.id) == Found(200, r.1.id, NewCourse(user, body, now))
  {
  }

  /**
    An accepted review is stored: reading the course afterwards shows exactly
    one more review, the new one last, and a rating that stays between the
    lowest and highest rating given whenever every rating lies in `[lo, hi]`.
   */
  lemma GetAfterReview(s: Store, user: nat, id: nat, rating: real, comment: string, accepts: ApiCourse -> bool, lo: real, hi: real)
    requires id in s.courses
    requires accepts(WithReview(s.courses[id], Review(user, rating, comment)))
    requires lo <= rating <= hi
    requires forall i :: 0 <= i < |s.courses[id].reviews| ==> lo <= s.courses[id].reviews[i].rating <= hi
    ensures var r := AddReview(s, user, id, rating, comment, accepts);
      var g := GetCourse(r.0, id);
      && g.Found?
      && |g.course.reviews| == |s.courses[id].reviews| + 1
      && g.course.reviews[|g.course.reviews| - 1] == Review(user, rating, comment)
      && lo <= g.course.rating <= hi
  {
    var c := WithReview(s.courses[id], Review(user, rating, comment));
    var rs := c.reviews;
    forall i | 0 <= i < |rs|
      ensures lo <= rs[i].rating <= hi
    {
      if i < |s.courses[id].reviews| {
        assert rs[i] == s.courses[id].reviews[i];
      }
    }
    MeanBounds(rs, lo, hi);
  }

  /** After the owner deletes a course, reading it is 404, and deleting it again is 404 too. */
  lemma DeleteThenGet(s: Store, user: nat, id: nat)
    requires id in s.courses && s.courses[id].instructor == user
    ensures var s1 := DeleteCourse(s, user, id).0;
      GetCourse(s1, id) == Message(404, NotFound) && DeleteCourse(s1, user, id).1 == Message(404, NotFound)
  {
  }

  /** Every handler keeps ids issued, so a create never overwrites a stored course. */
  lemma HandlersKeepIdsIssued(s: Store, user: nat, id: nat, body: CourseBody, p: CoursePatch, rating: real,
                              comment: string, now: int, accepts: ApiCourse -> bool)
    requires IdsIssued(s)
    ensures IdsIssued(CreateCourse(s, user, body, now, accepts).0)
    ensures IdsIssued(UpdateCourse(s, user, id, p).0)
    ensures IdsIssued(DeleteCourse(s, user, id).0)
    ensures IdsIssued(AddReview(s, user, id, rating, comment, accepts).0)
    ensures s.nextId !in s.courses
  {
  }
}
