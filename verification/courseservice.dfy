/**
  The course schema of the client's database layer (`models/Course.js`) and
  the service over it (`courseService.js`): validation on save, the creation
  and update timestamps, and the five store operations with their generic
  error messages.
 */
module CourseSchema {
  import opened Wrappers

  /** The lesson material of a module; every list is optional. */
  datatype Content = Content(concepts: seq<string>, examples: seq<string>, exercises: seq<string>, resources: seq<string>)

  /** A module as given to the schema: title and description may be missing. */
  datatype ModuleDraft = ModuleDraft(title: Option<string>, description: Option<string>, content: Content)

  /** The object handed to `new Course(...)`: any field may be missing. */
  datatype CourseDraft = CourseDraft(
    title: Option<string>,
    description: Option<string>,
    duration: Option<string>,
    level: Option<string>,
    objectives: seq<Option<string>>,
    modules: seq<ModuleDraft>,
    createdBy: Option<nat>,
    createdAt: Option<int>)

  datatype CourseModule = CourseModule(title: string, description: string, content: Content)

  /** A stored course document. */
  datatype Course = Course(
    title: string,
    description: string,
    duration: string,
    level: string,
    objectives: seq<string>,
    modules: seq<CourseModule>,
    createdBy: nat,
    createdAt: int,
    updatedAt: int)

  const Levels: seq<string> := ["Beginner", "Intermediate", "Advanced"]

  /** A required string is present and not empty. */
  predicate Present(x: Option<string>)
  {
    x.Some? && x.value != ""
  }

  /** The document paths the validators report. */
  datatype Path =
    | TitlePath | DescriptionPath | DurationPath | LevelPath | CreatedByPath
    | ObjectivePath(index: nat)
    | ModuleTitlePath(index: nat)
    | ModuleDescriptionPath(index: nat)

  /**
    Every validation failure of a draft: each missing or empty required
    string, a level outside the enumeration, each empty objective, each module
    without title or description, and a missing creator.
   */
  function Violations(d: CourseDraft): (r: set<Path>)
    ensures TitlePath in r <==> !Present(d.title)
    ensures DescriptionPath in r <==> !Present(d.description)
    ensures DurationPath in r <==> !Present(d.duration)
    ensures LevelPath in r <==> !(d.level.Some? && d.level.value in Levels)
    ensures CreatedByPath in r <==> d.createdBy.None?
    ensures forall p :: p in r && p.ObjectivePath? ==> p.index < |d.objectives|
    ensures forall p :: p in r && (p.ModuleTitlePath? || p.ModuleDescriptionPath?) ==> p.index < |d.modules|
    ensures forall i :: 0 <= i < |d.objectives| ==> (ObjectivePath(i) in r <==> !Present(d.objectives[i]))
    ensures forall i :: 0 <= i < |d.modules| ==> (ModuleTitlePath(i) in r <==> !Present(d.modules[i].title))
    ensures forall i :: 0 <= i < |d.modules| ==> (ModuleDescriptionPath(i) in r <==> !Present(d.modules[i].description))
  {
    FieldViolations(d) + ObjectiveViolations(d.objectives) + ModuleViolations(d.modules)
  }

  /** The paths of the missing or invalid top-level fields. */
  function FieldViolations(d: CourseDraft): (r: set<Path>)
    ensures forall p :: p in r ==> !p.ObjectivePath? && !p.ModuleTitlePath? && !p.ModuleDescriptionPath?
    ensures TitlePath in r <==> !Present(d.title)
    ensures DescriptionPath in r <==> !Present(d.description)
    ensures DurationPath in r <==> !Present(d.duration)
    ensures LevelPath in r <==> !(d.level.Some? && d.level.value in Levels)
    ensures CreatedByPath in r <==> d.createdBy.None?
  {
    (if Present(d.title) then {} else {TitlePath})
    + (if Present(d.description) then {} else {DescriptionPath})
    + (if Present(d.duration) then {} else {DurationPath})
    + (if d.level.Some? && d.level.value in Levels then {} else {LevelPath})
    + (if d.createdBy.Some? then {} else {CreatedByPath})
  }

  /** The paths of the empty or missing objectives. */
  function ObjectiveViolations(objectives: seq<Option<string>>): (r: set<Path>)
    ensures forall p :: p in r ==> p.ObjectivePath? && p.index < |objectives|
    ensures forall i :: 0 <= i < |objectives| ==> (ObjectivePath(i) in r <==> !Present(objectives[i]))
  {
    set i: nat | i < |objectives| && !Present(objectives[i]) :: ObjectivePath(i)
  }

  /** The paths of the modules without title or without description. */
  function ModuleViolations(modules: seq<ModuleDraft>): (r: set<Path>)
    ensures forall p :: p in r ==> (p.ModuleTitlePath? || p.ModuleDescriptionPath?) && p.index < |modules|
    ensures forall i :: 0 <= i < |modules| ==> (ModuleTitlePath(i) in r <==> !Present(modules[i].title))
    ensures forall i :: 0 <= i < |modules| ==> (ModuleDescriptionPath(i) in r <==> !Present(modules[i].description))
  {
    (set i: nat | i < |modules| && !Present(modules[i].title) :: ModuleTitlePath(i))
    + (set i: nat | i < |modules| && !Present(modules[i].description) :: ModuleDescriptionPath(i))
  }

  /** A stored document meets every constraint of the schema. */
  predicate WellFormed(c: Course)
  {
    && c.title != "" && c.description != "" && c.duration != ""
    && c.level in Levels
    && (forall i :: 0 <= i < |c.objectives| ==> c.objectives[i] != "")
    && (forall i :: 0 <= i < |c.modules| ==> c.modules[i].title != "" && c.modules[i].description != "")
  }

  /** The constraints a draft must meet, stated field by field. */
  predicate Admissible(d: CourseDraft)
  {
    && Present(d.title) && Present(d.description) && Present(d.duration)
    && d.level.Some? && d.level.value in Levels
    && d.createdBy.Some?
    && (forall i :: 0 <= i < |d.objectives| ==> Present(d.objectives[i]))
    && (forall i :: 0 <= i < |d.modules| ==> Present(d.modules[i].title) && Present(d.modules[i].description))
  }

  /** The validators report nothing exactly for the admissible drafts. */
  lemma NoViolationsIff(d: CourseDraft)
    ensures Violations(d) == {} <==> Admissible(d)
  {
    if Violations(d) == {} {
      forall i | 0 <= i < |d.objectives|
        ensures Present(d.objectives[i])
      {
        assert ObjectivePath(i) !in Violations(d);
      }
      forall i | 0 <= i < |d.modules|
        ensures Present(d.modules[i].title) && Present(d.modules[i].description)
      {
        assert ModuleTitlePath(i) !in Violations(d);
        assert ModuleDescriptionPath(i) !in Violations(d);
      }
    }
  }

  function Build(d: CourseDraft, created: int, saved: int): Course
    requires Admissible(d)
  {
    Course(d.title.value, d.description.value, d.duration.value, d.level.value,
           seq(|d.objectives|, i requires 0 <= i < |d.objectives| => d.objectives[i].value),
           seq(|d.modules|, i requires 0 <= i < |d.modules| =>
             CourseModule(d.modules[i].title.value, d.modules[i].description.value, d.modules[i].content)),
           d.createdBy.value,
           d.createdAt.GetOr(created),
           saved)
  }

  /**
    `new Course(d).save()`, with the clock read twice: `created` when the
    document is constructed (the schema default of `createdAt`) and `saved`
    when the pre-save hook runs, after validation. A draft with violations is
    rejected with all of them; otherwise the creation time defaults to
    `created` and the update time is `saved` whatever the draft said.
   */
  function Save(d: CourseDraft, created: int, saved: int): (r: Result<Course, set<Path>>)
    ensures r.Err? <==> !Admissible(d)
    ensures r.Err? ==> r.error == Violations(d) && r.error != {}
    ensures r.Ok? ==>
      && WellFormed(r.value)
      && r.value.updatedAt == saved
      && r.value.createdAt == (if d.createdAt.Some? then d.createdAt.value else created)
      && Some(r.value.title) == d.title && Some(r.value.level) == d.level
      && Some(r.value.createdBy) == d.createdBy
      && |r.value.objectives| == |d.objectives| && |r.value.modules| == |d.modules|
    ensures r.Ok? ==> ToDraft(r.value) == d.(createdAt := Some(r.value.createdAt))
  {
    NoViolationsIff(d);
    if Violations(d) != {} then Err(Violations(d))
    else
      BuildReadsBack(d, created, saved);
      Ok(Build(d, created, saved))
  }

  /**
    A fresh document, saved with a clock that has not gone backwards between
    construction and the hook, was not updated before it was created; the
    two times coincide only when both readings do.
   */
  lemma FreshSaveTimesOrdered(d: CourseDraft, created: int, saved: int)
    requires d.createdAt.None? && Admissible(d) && created <= saved
    ensures Save(d, created, saved).Ok?
    ensures Save(d, created, saved).value.createdAt <= Save(d, created, saved).value.updatedAt
    ensures Save(d, created, saved).value.createdAt == Save(d, created, saved).value.updatedAt <==> created == saved
  {
  }

  /** A built document holds exactly the draft's values: read back, it is the draft with its creation time filled in. */
  lemma BuildReadsBack(d: CourseDraft, created: int, saved: int)
    requires Admissible(d)
    ensures ToDraft(Build(d, created, saved)) == d.(createdAt := Some(d.createdAt.GetOr(created)))
  {
    var back := ToDraft(Build(d, created, saved));
    assert back.objectives == d.objectives;
    assert back.modules == d.modules;
  }

  /** A stored document read back as a draft. */
  function ToDraft(c: Course): CourseDraft
  {
    CourseDraft(Some(c.title), Some(c.description), Some(c.duration), Some(c.level),
                seq(|c.objectives|, i requires 0 <= i < |c.objectives| => Some(c.objectives[i])),
                seq(|c.modules|, i requires 0 <= i < |c.modules| =>
                  ModuleDraft(Some(c.modules[i].title), Some(c.modules[i].description), c.modules[i].content)),
                Some(c.createdBy),
                Some(c.createdAt))
  }

  /** Saving a well-formed document again keeps it, except that the update time becomes the new now. */
  lemma ResaveRefreshesOnlyUpdatedAt(c: Course, now: int)
    requires WellFormed(c)
    ensures forall created :: Save(ToDraft(c), created, now) == Ok(c.(updatedAt := now))
  {
    var d := ToDraft(c);
    assert Admissible(d);
    var b := Build(d, c.createdAt, now);
    assert b.objectives == c.objectives;
    assert b.modules == c.modules;
  }

  /** A draft whose level is outside the enumeration is rejected at that path, whatever else it holds. */
  lemma LevelOutsideEnumRejected(d: CourseDraft, created: int, saved: int)
    requires d.level == Some("Expert")
    ensures Save(d, created, saved).Err? && LevelPath in Save(d, created, saved).error
  {
  }

  /** A module may have empty content lists, but not an empty title. */
  lemma ModuleTitleRequired(d: CourseDraft, i: nat, created: int, saved: int)
    requires i < |d.modules| && d.modules[i].title == Some("")
    ensures Save(d, created, saved).Err? && ModuleTitlePath(i) in Save(d, created, saved).error
  {
  }
}

module CourseService {
  import opened Wrappers
  import Listing
  import Seqs
  import opened CourseSchema

  const SaveFailure := "Failed to save course"
  const FetchAllFailure := "Failed to fetch courses"
  const FetchFailure := "Failed to fetch course"
  const UpdateFailure := "Failed to update course"
  const DeleteFailure := "Failed to delete course"

  /** The course collection; `nextId` stands for the fresh id the next document receives. */
  datatype Db = Db(courses: map<nat, Course>, nextId: nat)

  predicate IdsIssued(db: Db)
  {
    forall id :: id in db.courses ==> id < db.nextId
  }

  /**
    `saveCourse(courseData, userId)`: the creator is always `userId`, whatever
    the data says; every failure, validation included, becomes the one
    message "Failed to save course" and stores nothing. The clock is read
    at construction (`created`) and again in the pre-save hook (`saved`).
   */
  function SaveCourse(db: Db, data: CourseDraft, userId: Option<nat>, created: int, saved: int): (r: (Db, Result<(nat, Course), string>))
    ensures r.1.Err? ==> r == (db, Err(SaveFailure))
    ensures r.1.Ok? <==> Admissible(data.(createdBy := userId))
    ensures r.1.Ok? ==>
      && r.1.value.0 == db.nextId
      && r.1.value.1 == Save(data.(createdBy := userId), created, saved).value
      && Some(r.1.value.1.createdBy) == userId
      && r.0 == Db(db.courses[db.nextId := r.1.value.1], db.nextId + 1)
  {
    match Save(data.(createdBy := userId), created, saved)
    case Err(_) => (db, Err(SaveFailure))
    case Ok(c) => (Db(db.courses[db.nextId := c], db.nextId + 1), Ok((db.nextId, c)))
  }

  /**
    `getCourses()`: every stored course, newest first; the order among courses
    created at the same time is whatever the database returns.
   */
  method GetCourses(db: Db) returns (list: seq<Course>, ghost ids: seq<nat>)
    ensures Seqs.NoDuplicates(ids) && (forall id :: id in db.courses <==> id in ids)
    ensures Listing.AllStored(db.courses, ids) && list == Listing.Records(db.courses, ids)
    ensures |list| == |db.courses.Keys|
    ensures forall i, j :: 0 <= i < j < |list| ==> list[i].createdAt >= list[j].createdAt
    ensures forall id :: id in db.courses ==> db.courses[id] in list
    ensures forall i :: 0 <= i < |list| ==> list[i] in db.courses.Values
  {
    var sorted := Listing.SortedIds(db.courses, (c: Course) => c.createdAt);
    list := Listing.Records(db.courses, sorted);
    forall id | id in db.courses
      ensures db.courses[id] in list
    {
      var k :| 0 <= k < |sorted| && sorted[k] == id;
      assert list[k] == db.courses[id];
    }
    ids := sorted;
  }

  /** `getCourseById(id)`: the course, or the generic fetch failure ("Course not found" never escapes). */
  function GetCourseById(db: Db, id: nat): (r: Result<Course, string>)
    ensures r.Ok? <==> id in db.courses
    ensures r.Ok? ==> r.value == db.courses[id]
    ensures r.Err? ==> r.error == FetchFailure
  {
    if id in db.courses then Ok(db.courses[id]) else Err(FetchFailure)
  }

  /** The fields an update may carry; absent ones are left alone. */
  datatype CourseUpdates = CourseUpdates(
    title: Option<string>,
    description: Option<string>,
    duration: Option<string>,
    level: Option<string>,
    objectives: Option<seq<string>>,
    modules: Option<seq<CourseModule>>,
    createdBy: Option<nat>,
    createdAt: Option<int>,
    updatedAt: Option<int>)

  /**
    `{ ...updates, updatedAt: Date.now() }` applied by `findByIdAndUpdate`:
    every given field replaces the stored one, the update time is now even
    when the updates carry their own, and no validator or save hook runs.
   */
  function Merge(c: Course, u: CourseUpdates, now: int): (r: Course)
    ensures r.updatedAt == now
    ensures u.title.None? ==> r.title == c.title
    ensures u.title.Some? ==> r.title == u.title.value
    ensures u.level.None? ==> r.level == c.level
    ensures u.level.Some? ==> r.level == u.level.value
    ensures u.description.None? ==> r.description == c.description
    ensures u.description.Some? ==> r.description == u.description.value
    ensures u.duration.None? ==> r.duration == c.duration
    ensures u.duration.Some? ==> r.duration == u.duration.value
    ensures u.objectives.None? ==> r.objectives == c.objectives
    ensures u.objectives.Some? ==> r.objectives == u.objectives.value
    ensures u.modules.None? ==> r.modules == c.modules
    ensures u.modules.Some? ==> r.modules == u.modules.value
    ensures u.createdBy.None? ==> r.createdBy == c.createdBy
    ensures u.createdBy.Some? ==> r.createdBy == u.createdBy.value
    ensures u.createdAt.None? ==> r.createdAt == c.createdAt
    ensures u.createdAt.Some? ==> r.createdAt == u.createdAt.value
  {
    Course(u.title.GetOr(c.title), u.description.GetOr(c.description), u.duration.GetOr(c.duration),
           u.level.GetOr(c.level), u.objectives.GetOr(c.objectives), u.modules.GetOr(c.modules),
           u.createdBy.GetOr(c.createdBy), u.createdAt.GetOr(c.createdAt), now)
  }

  /** `updateCourse(id, updates)`: the merged course, or the generic update failure with nothing changed. */
  function UpdateCourse(db: Db, id: nat, u: CourseUpdates, now: int): (r: (Db, Result<Course, string>))
    ensures id !in db.courses <==> r.1.Err?
    ensures r.1.Err? ==> r == (db, Err(UpdateFailure))
    ensures r.1.Ok? ==> r.1.value == Merge(db.courses[id], u, now) && r.0 == db.(courses := db.courses[id := r.1.value])
  {
    if id !in db.courses then (db, Err(UpdateFailure))
    else
      var c := Merge(db.courses[id], u, now);
      (db.(courses := db.courses[id := c]), Ok(c))
  }

  /** `deleteCourse(id)`: removes exactly that course and returns it, or fails with nothing changed. */
  function DeleteCourse(db: Db, id: nat): (r: (Db, Result<Course, string>))
    ensures id !in db.courses <==> r.1.Err?
    ensures r.1.Err? ==> r == (db, Err(DeleteFailure))
    ensures r.1.Ok? ==>
      && r.1.value == db.courses[id]
      && r.0.courses.Keys == db.courses.Keys - {id}
      && (forall k :: k in r.0.courses ==> r.0.courses[k] == db.courses[k])
  {
    if id !in db.courses then (db, Err(DeleteFailure))
    else (db.(courses := db.courses - {id}), Ok(db.courses[id]))
  }

  /** The messages a caller can see: the five generic ones, never "Course not found". */
  lemma OnlyGenericMessages(db: Db, data: CourseDraft, user: Option<nat>, id: nat, u: CourseUpdates, now: int, saved: int)
    ensures SaveCourse(db, data, user, now, saved).1.Err? ==> SaveCourse(db, data, user, now, saved).1.error == SaveFailure
    ensures GetCourseById(db, id).Err? ==> GetCourseById(db, id).error == FetchFailure
    ensures UpdateCourse(db, id, u, now).1.Err? ==> UpdateCourse(db, id, u, now).1.error == UpdateFailure
    ensures DeleteCourse(db, id).1.Err? ==> DeleteCourse(db, id).1.error == DeleteFailure
    ensures "Course not found" !in {SaveFailure, FetchAllFailure, FetchFailure, UpdateFailure, DeleteFailure}
  {
  }

  /** A saved course can be fetched under the id it was given. */
  lemma GetAfterSave(db: Db, data: CourseDraft, user: Option<nat>, created: int, saved: int)
    requires IdsIssued(db)
    requires SaveCourse(db, data, user, created, saved).1.Ok?
    ensures var r := SaveCourse(db, data, user, created, saved);
      GetCourseById(r.0, r.1.value.0) == Ok(r.1.value.1)
  {
  }

  /** A deleted course can no longer be fetched, updated or deleted. */
  lemma DeleteIsFinal(db: Db, id: nat, u: CourseUpdates, now: int)
    requires id in db.courses
    ensures var db1 := DeleteCourse(db, id).0;
      && GetCourseById(db1, id) == Err(FetchFailure)
      && UpdateCourse(db1, id, u, now) == (db1, Err(UpdateFailure))
      && DeleteCourse(db1, id) == (db1, Err(DeleteFailure))
  {
  }

  /** Every write keeps the ids issued, so a save never overwrites a stored course. */
  lemma WritesKeepIdsIssued(db: Db, data: CourseDraft, user: Option<nat>, id: nat, u: CourseUpdates, now: int, saved: int)
    requires IdsIssued(db)
    ensures IdsIssued(SaveCourse(db, data, user, now, saved).0)
    ensures IdsIssued(UpdateCourse(db, id, u, now).0)
    ensures IdsIssued(DeleteCourse(db, id).0)
    ensures db.nextId !in db.courses
  {
  }

  /**
    Updates bypass the schema: a well-formed stored course can be updated to a
    level outside the enumeration, which a save would have rejected.
   */
  lemma UpdateBypassesValidation(db: Db, id: nat, now: int)
    requires id in db.courses && WellFormed(db.courses[id])
    ensures var u := CourseUpdates(None, None, None, Some("Expert"), None, None, None, None, None);
      var r := UpdateCourse(db, id, u, now);
      r.1.Ok? && !WellFormed(r.1.value)
  {
  }

  /** An update time supplied with the updates is overridden by the clock. */
  lemma SuppliedUpdatedAtIgnored(db: Db, id: nat, u: CourseUpdates, now: int)
    requires id in db.courses && u.updatedAt.Some? && u.updatedAt.value != now
    ensures UpdateCourse(db, id, u, now).1.value.updatedAt == now
  {
  }
}
