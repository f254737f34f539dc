/**
  The list computations of the course and blog screens: the course-list
  search and filters, the category menu, the blog search, the dashboard's
  two tabs and the home page's featured courses.
 */
module Catalog {
  /** A course as the client screens see it after fetching. */
  datatype CourseCard = CourseCard(
    id: string,
    title: string,
    description: string,
    category: string,
    level: string,
    instructorId: string)

  /** The sentinel value of the category and level menus that disables that filter. */
  const All := "all"
}

module CourseList {
  import Text
  import Seqs
  import opened Catalog

  /** The search term occurs, ignoring ASCII case, in the title or in the description. */
  predicate MatchesSearch(c: CourseCard, term: string)
  {
    Text.Includes(Text.Lower(c.title), Text.Lower(term))
    || Text.Includes(Text.Lower(c.description), Text.Lower(term))
  }

  /** The three conditions a course must meet to stay in the list. */
  predicate Keep(c: CourseCard, term: string, category: string, level: string)
  {
    && MatchesSearch(c, term)
    && (category == All || c.category == category)
    && (level == All || c.level == level)
  }

  function KeepFn(term: string, category: string, level: string): CourseCard -> bool
  {
    c => Keep(c, term, category, level)
  }

  /** `filteredCourses`: the courses meeting the search, category and level conditions, in list order. */
  function FilteredCourses(courses: seq<CourseCard>, term: string, category: string, level: string): (r: seq<CourseCard>)
    ensures forall i :: 0 <= i < |r| ==> r[i] in courses && Keep(r[i], term, category, level)
    ensures forall i :: 0 <= i < |courses| && Keep(courses[i], term, category, level) ==> courses[i] in r
  {
    Seqs.Filter(courses, KeepFn(term, category, level))
  }

  /** A course that meets the three conditions is listed as often as it was fetched; any other course not at all. */
  lemma FilteredKeepsEveryCopy(courses: seq<CourseCard>, term: string, category: string, level: string, c: CourseCard)
    ensures multiset(FilteredCourses(courses, term, category, level))[c]
            == if Keep(c, term, category, level) then multiset(courses)[c] else 0
  {
    Seqs.FilterCounts(courses, KeepFn(term, category, level), c);
  }

  /** The filtered list is an order-preserving subsequence of the fetched list. */
  lemma FilteredIsSubsequence(courses: seq<CourseCard>, term: string, category: string, level: string)
    ensures Seqs.IsSubsequence(FilteredCourses(courses, term, category, level), courses)
  {
    Seqs.FilterIsSubsequence(courses, KeepFn(term, category, level));
  }

  /** With an empty search and both menus on "all", every course is listed, in order. */
  lemma DefaultShowsAll(courses: seq<CourseCard>)
    ensures FilteredCourses(courses, "", All, All) == courses
  {
    forall i | 0 <= i < |courses|
      ensures KeepFn("", All, All)(courses[i])
    {
      Text.IncludesEmpty(Text.Lower(courses[i].title));
    }
    Seqs.FilterAll(courses, KeepFn("", All, All));
  }

  /** The independent meaning of the search: the lowered term occurs at some offset of the lowered title or description. */
  ghost predicate TermOccurs(c: CourseCard, term: string)
  {
    || (exists i :: Text.OccursAt(Text.Lower(c.title), Text.Lower(term), i))
    || (exists i :: Text.OccursAt(Text.Lower(c.description), Text.Lower(term), i))
  }

  /** The search predicate agrees with its meaning, in both directions. */
  lemma SearchMeaning(c: CourseCard, term: string)
    ensures MatchesSearch(c, term) <==> TermOccurs(c, term)
  {
    Text.IncludesIff(Text.Lower(c.title), Text.Lower(term));
    Text.IncludesIff(Text.Lower(c.description), Text.Lower(term));
  }

  /** A kept course matches the chosen category and level exactly, and the search term occurs in it. */
  lemma KeptCourseMeaning(courses: seq<CourseCard>, term: string, category: string, level: string, c: CourseCard)
    requires c in FilteredCourses(courses, term, category, level)
    ensures category != All ==> c.category == category
    ensures level != All ==> c.level == level
    ensures TermOccurs(c, term)
  {
    KeptIsKept(courses, term, category, level, c);
    SearchMeaning(c, term);
  }

  lemma KeptIsKept(courses: seq<CourseCard>, term: string, category: string, level: string, c: CourseCard)
    requires c in FilteredCourses(courses, term, category, level)
    ensures Keep(c, term, category, level)
  {
    var r := FilteredCourses(courses, term, category, level);
    var k :| 0 <= k < |r| && r[k] == c;
  }

  /** The search ignores the case of ASCII letters on both sides. */
  lemma SearchIgnoresCase(c: CourseCard, term: string)
    ensures MatchesSearch(c, Text.Lower(term)) == MatchesSearch(c, term)
  {
    Text.LowerIdempotent(term);
  }

  /** The categories of the fetched courses, one per course, in list order. */
  function CategoryColumn(courses: seq<CourseCard>): (cats: seq<string>)
    ensures |cats| == |courses| && forall i :: 0 <= i < |courses| ==> cats[i] == courses[i].category
  {
    seq(|courses|, i requires 0 <= i < |courses| => courses[i].category)
  }

  /**
    The category menu, `[...new Set(courses.map(c => c.category))]`: each
    category of the fetched courses exactly once, and nothing else.
   */
  function Categories(courses: seq<CourseCard>): (r: seq<string>)
    ensures Seqs.NoDuplicates(r)
    ensures forall i :: 0 <= i < |courses| ==> courses[i].category in r
    ensures forall k :: 0 <= k < |r| ==> r[k] in CategoryColumn(courses)
  {
    Seqs.DistinctSpec(CategoryColumn(courses));
    Seqs.Distinct(CategoryColumn(courses))
  }

  /** The menu lists the categories in the order of their first appearance among the courses. */
  lemma CategoriesInFirstAppearanceOrder(courses: seq<CourseCard>)
    ensures var r := Categories(courses);
      forall i, j :: 0 <= i < j < |r| ==>
        Seqs.FirstIndex(CategoryColumn(courses), r[i]) < Seqs.FirstIndex(CategoryColumn(courses), r[j])
  {
    Seqs.DistinctSpec(CategoryColumn(courses));
  }
}

module BlogList {
  import Text
  import Seqs

  datatype BlogCard = BlogCard(title: string, excerpt: string, tags: seq<string>)

  /** Some tag includes the lowered term. */
  predicate TagMatches(tags: seq<string>, term: string)
  {
    exists i :: 0 <= i < |tags| && Text.Includes(Text.Lower(tags[i]), Text.Lower(term))
  }

  /** The blog search: the term occurs, ignoring ASCII case, in the title, the excerpt or some tag. */
  predicate BlogMatches(b: BlogCard, term: string)
  {
    || Text.Includes(Text.Lower(b.title), Text.Lower(term))
    || Text.Includes(Text.Lower(b.excerpt), Text.Lower(term))
    || TagMatches(b.tags, term)
  }

  function MatchFn(term: string): BlogCard -> bool
  {
    b => BlogMatches(b, term)
  }

  /** `filteredBlogs`: the blogs matching the search, in list order. */
  function FilteredBlogs(blogs: seq<BlogCard>, term: string): (r: seq<BlogCard>)
    ensures forall i :: 0 <= i < |r| ==> r[i] in blogs && BlogMatches(r[i], term)
    ensures forall i :: 0 <= i < |blogs| && BlogMatches(blogs[i], term) ==> blogs[i] in r
  {
    Seqs.Filter(blogs, MatchFn(term))
  }

  /** The filtered blogs are an order-preserving subsequence of the fetched blogs. */
  lemma FilteredBlogsIsSubsequence(blogs: seq<BlogCard>, term: string)
    ensures Seqs.IsSubsequence(FilteredBlogs(blogs, term), blogs)
  {
    Seqs.FilterIsSubsequence(blogs, MatchFn(term));
  }

  /** An empty search keeps every blog, in order. */
  lemma EmptySearchKeepsAll(blogs: seq<BlogCard>)
    ensures FilteredBlogs(blogs, "") == blogs
  {
    forall i | 0 <= i < |blogs|
      ensures MatchFn("")(blogs[i])
    {
      Text.IncludesEmpty(Text.Lower(blogs[i].title));
    }
    Seqs.FilterAll(blogs, MatchFn(""));
  }

  /** The independent meaning of the blog search: the lowered term occurs in the lowered title, excerpt or some tag. */
  ghost predicate BlogTermOccurs(b: BlogCard, term: string)
  {
    || (exists i :: Text.OccursAt(Text.Lower(b.title), Text.Lower(term), i))
    || (exists i :: Text.OccursAt(Text.Lower(b.excerpt), Text.Lower(term), i))
    || (exists t, i :: 0 <= t < |b.tags| && Text.OccursAt(Text.Lower(b.tags[t]), Text.Lower(term), i))
  }

  /** Every listed blog contains the lowered term in its title, its excerpt or one of its tags. */
  lemma KeptBlogMeaning(blogs: seq<BlogCard>, term: string, b: BlogCard)
    requires b in FilteredBlogs(blogs, term)
    ensures BlogTermOccurs(b, term)
  {
    KeptBlogMatches(blogs, term, b);
    var n := Text.Lower(term);
    if Text.Includes(Text.Lower(b.title), n) {
      Text.IncludesIff(Text.Lower(b.title), n);
    } else if Text.Includes(Text.Lower(b.excerpt), n) {
      Text.IncludesIff(Text.Lower(b.excerpt), n);
    } else {
      var t :| 0 <= t < |b.tags| && Text.Includes(Text.Lower(b.tags[t]), n);
      Text.IncludesIff(Text.Lower(b.tags[t]), n);
      var i :| Text.OccursAt(Text.Lower(b.tags[t]), n, i);
    }
  }

  lemma KeptBlogMatches(blogs: seq<BlogCard>, term: string, b: BlogCard)
    requires b in FilteredBlogs(blogs, term)
    ensures BlogMatches(b, term)
  {
    var r := FilteredBlogs(blogs, term);
    var k :| 0 <= k < |r| && r[k] == b;
  }

  /** A blog one of whose tags matches is listed, even when neither title nor excerpt matches. */
  lemma TagAloneSuffices(blogs: seq<BlogCard>, term: string, k: nat, t: nat)
    requires k < |blogs| && t < |blogs[k].tags|
    requires Text.Includes(Text.Lower(blogs[k].tags[t]), Text.Lower(term))
    ensures blogs[k] in FilteredBlogs(blogs, term)
  {
    assert TagMatches(blogs[k].tags, term);
  }
}

module Dashboard {
  import opened Wrappers
  import Seqs
  import opened Catalog

  /** The signed-in user as the dashboard reads it; absent before sign-in. */
  datatype DashboardUser = DashboardUser(id: string, enrolledCourses: seq<string>)

  /** `course.instructor._id === user?._id`: with no user the right side is `undefined` and never equal. */
  predicate Teaches(user: Option<DashboardUser>, c: CourseCard)
  {
    user.Some? && c.instructorId == user.value.id
  }

  /** `user?.enrolledCourses.includes(course._id)`: with no user the result is `undefined`, which is falsy. */
  predicate Enrolled(user: Option<DashboardUser>, c: CourseCard)
  {
    user.Some? && c.id in user.value.enrolledCourses
  }

  function TeachesFn(user: Option<DashboardUser>): CourseCard -> bool
  {
    c => Teaches(user, c)
  }

  function EnrolledFn(user: Option<DashboardUser>): CourseCard -> bool
  {
    c => Enrolled(user, c)
  }

  /** `userCourses`: exactly the courses the user teaches, in course order. */
  function UserCourses(courses: seq<CourseCard>, user: Option<DashboardUser>): (r: seq<CourseCard>)
    ensures forall i :: 0 <= i < |r| ==> r[i] in courses && user.Some? && r[i].instructorId == user.value.id
    ensures user.Some? ==> forall i :: 0 <= i < |courses| && courses[i].instructorId == user.value.id ==> courses[i] in r
  {
    Seqs.Filter(courses, TeachesFn(user))
  }

  /** `enrolledCourses`: exactly the courses whose id the user lists, in course order. */
  function EnrolledCourses(courses: seq<CourseCard>, user: Option<DashboardUser>): (r: seq<CourseCard>)
    ensures forall i :: 0 <= i < |r| ==> r[i] in courses && user.Some? && r[i].id in user.value.enrolledCourses
    ensures user.Some? ==> forall i :: 0 <= i < |courses| && courses[i].id in user.value.enrolledCourses ==> courses[i] in r
  {
    Seqs.Filter(courses, EnrolledFn(user))
  }

  /** Before sign-in both tabs are empty, whatever the courses. */
  lemma NoUserNoTabs(courses: seq<CourseCard>)
    ensures UserCourses(courses, None) == [] && EnrolledCourses(courses, None) == []
  {
    Seqs.FilterNone(courses, TeachesFn(None));
    Seqs.FilterNone(courses, EnrolledFn(None));
  }

  /** Both tabs list order-preserving subsequences of the fetched courses. */
  lemma TabsAreSubsequences(courses: seq<CourseCard>, user: Option<DashboardUser>)
    ensures Seqs.IsSubsequence(UserCourses(courses, user), courses)
    ensures Seqs.IsSubsequence(EnrolledCourses(courses, user), courses)
  {
    Seqs.FilterIsSubsequence(courses, TeachesFn(user));
    Seqs.FilterIsSubsequence(courses, EnrolledFn(user));
  }

  /**
    The enrolled tab follows the course list, not the enrolment list: two users
    enrolled in the same set of courses, in any order or with repeats, see the
    same tab.
   */
  lemma {:induction false} EnrolmentOrderIrrelevant(courses: seq<CourseCard>, a: DashboardUser, b: DashboardUser)
    requires forall x :: x in a.enrolledCourses <==> x in b.enrolledCourses
    ensures EnrolledCourses(courses, Some(a)) == EnrolledCourses(courses, Some(b))
  {
    if |courses| > 0 {
      EnrolmentOrderIrrelevant(courses[1..], a, b);
    }
  }
}

module Home {
  import Seqs
  import opened Catalog

  /** How many courses the home page features. */
  const FeaturedCount: nat := 3

  /** `courses.slice(0, 3)`: the first three courses, or all of them when there are fewer. */
  function FeaturedCourses(courses: seq<CourseCard>): (r: seq<CourseCard>)
    ensures |r| == if |courses| < FeaturedCount then |courses| else FeaturedCount
    ensures r <= courses
    ensures forall i :: 0 <= i < |r| ==> r[i] == courses[i]
  {
    Seqs.Take(courses, FeaturedCount)
  }
}
