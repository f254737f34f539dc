# coursegen core, modelled in Dafny

This project models the logic under the screens and services of coursegen,
a course-generation and learning site with an Express/Mongoose server and a
React client, and proves properties of that model. Each component of the
system is one Dafny module:

- **Course store, server side** (`CourseRoutes`). This is the course API: list newest first, get, create, update, delete and add-review.
  - Update and delete check ownership.
  - A review recomputes the rating as the mean of all review ratings.
  - The store is a map from id to course. The authenticated user's id and the clock are parameters.
- **Course store, client database layer** (`CourseSchema`, `CourseService`).
  - The Mongoose schema's validation is modelled: required strings, the level enumeration, module titles and descriptions, and the creator.
  - So are its timestamps: the creation default and the pre-save refresh of `updatedAt`.
  - The five service operations all report one generic message per operation.
- **Generated outlines** (`Gemini`, `Generator`).
  - The model call and `JSON.parse` become a function from prompt to an optional JSON value.
  - What is modelled is the JavaScript-truthiness presence check, the collapse of every failure into one message, and the exact prompt templates.
  - The generator screen has a blank-topic check, a deterministic mock outline, and a spinner that shows exactly while one generation runs.
- **Admin session** (`AdminSlice`, `AdminRoute`, `AdminLogin`): the reducer of the admin slice, the three-way route gate and the login form's navigate-on-submit rule.
- **List views** (`Catalog`, `CourseList`, `BlogList`, `Dashboard`, `Home`): the course search with category and level filters, the category menu, the blog search, the dashboard's two tabs, the featured courses and the 100-character description excerpt.
- **Forms** (`CreateCourse`, `BlogForm`).
  - The course form edits its module list and never empties it through the UI.
  - The blog form covers the initial state, field edits, the multipart encoding (tags as JSON text) and the create-or-update request.
- **Small records** (`BlogPublish`, `Statistics`, `UserModel`).
  - Blog publish and unpublish transitions.
  - The find-or-create counter record.
  - The user document: required fields, role enumeration, unique email, and hashing only a modified password.

Shared modules:

- `Wrappers`: `Option` and `Result`.
- `Text`: ASCII lower-casing, `includes`, `trim`, and the excerpt.
- `Seqs`: `filter`, `slice` and de-duplication, with their subsequence and membership facts.
- `Listing`: the newest-first listing of a map.
- `Json`: JSON values, property reads, and `JSON.stringify`/`JSON.parse` of string arrays.

The outline check in `client/src/services/geminiService.js` is modelled as written:

- Every failure, whether the reply does not parse or a field is missing, becomes the single message "Failed to generate course content. Please try again.".
- An empty `modules` array is accepted, because arrays are truthy in JavaScript.

## Model

| member | source | states |
|---|---|---|
| Text.Lower | client/src/components/courses/CourseList.js:37-38 | `toLowerCase` on ASCII: same length, every character mapped by the ASCII case rule |
| Text.Includes | client/src/components/courses/CourseList.js:37-38 | `includes` holds when the needle is a prefix, and never for a needle longer than the haystack; `Text.IncludesIff` gives its full meaning |
| Text.LowerIdempotent | client/src/pages/BlogList.js:44-47 | lowering an already lowered string changes nothing |
| Text.IncludesIff | client/src/components/courses/CourseList.js:37-38 | `includes` holds exactly when the needle occurs at some offset of the haystack |
| Text.IncludesEmpty | client/src/components/courses/CourseList.js:37-38 | the empty term is included in every string |
| Text.TrimStart | client/src/components/courses/CourseGenerator.js:24 | removes exactly a leading run of JavaScript white space and line terminators |
| Text.TrimEnd | client/src/components/courses/CourseGenerator.js:24 | removes exactly a trailing run of white space and line terminators |
| Text.Trim | client/src/components/courses/CourseGenerator.js:24 | `trim()` returns an infix of the string with nothing trimmable at either end and only trimmable characters cut away on both sides |
| Text.TrimBothEnds | client/src/components/courses/CourseGenerator.js:24 | trimming the start, then the end, cuts only trimmable characters around the infix it keeps |
| Text.BlankIff | client/src/components/courses/CourseGenerator.js:24 | `!prompt.trim()` holds exactly when every character is white space |
| Text.Excerpt | client/src/components/courses/CourseList.js:139-141 | a description of at most 100 characters is unchanged; a longer one becomes its first 100 characters plus "...", so at most 103 |
| Text.ExcerptIdempotent | client/src/components/dashboard/Dashboard.js:145-147 | cutting an excerpt again changes nothing |
| Text.ExcerptKeepsPrefix | client/src/components/pages/Home.js:110-112 | the excerpt always starts with the first min(100, n) characters of the description |
| Seqs.Filter | client/src/components/courses/CourseList.js:36-42 | `filter` keeps only elements satisfying the predicate, and every value that satisfies it appears in the result |
| Seqs.FilterPositions | client/src/components/courses/CourseList.js:36-42 | the kept elements sit at strictly increasing positions of the input |
| Seqs.FilterIsSubsequence | client/src/pages/BlogList.js:44-48 | a filter result is an order-preserving subsequence of its input |
| Seqs.FilterCounts | client/src/components/courses/CourseList.js:36-42 | every occurrence of an accepted value is kept and no occurrence of a rejected one, so with the subsequence fact the result is fully determined even with repeated values |
| Seqs.FilterAll | client/src/components/courses/CourseList.js:36-42 | a predicate true everywhere keeps the whole input |
| Seqs.FilterNone | client/src/components/dashboard/Dashboard.js:46-48 | a predicate false everywhere keeps nothing |
| Seqs.FilterKeepsExactly | client/src/components/dashboard/Dashboard.js:42-48 | an element is kept exactly when it is in the input and satisfies the predicate |
| Seqs.Take | client/src/components/pages/Home.js:24 | `slice(0, n)` is a prefix of length min(n, length) |
| Seqs.Distinct | client/src/components/courses/CourseList.js:33 | `[...new Set(xs)]` has no duplicates and holds exactly the values of `xs` |
| Seqs.DistinctSpec | client/src/components/courses/CourseList.js:33 | `[...new Set(xs)]` has no duplicates, holds exactly the elements of `xs`, in first-occurrence order |
| Listing.Insert | routes/courses.js:9-11 | inserting into a newest-first list keeps it newest first and adds exactly the new id |
| Listing.SortedIds | routes/courses.js:9-11 | every stored id exactly once, ordered so that creation times never increase |
| Listing.Records | client/src/services/courseService.js:22-25 | the records of the listed ids, in list order |
| Json.Lookup | client/src/services/geminiService.js:37-40 | a property read on a parsed object finds the last member with that key, and nothing when no member has it |
| Json.LookupLast | client/src/services/geminiService.js:37-40 | a member with no later duplicate is what the read returns |
| Json.LookupOtherKey | client/src/services/geminiService.js:40 | a trailing member with another key does not change a read |
| Json.Get | client/src/services/geminiService.js:40 | a property read on a non-object gives `undefined` |
| Json.TruthyShapes | client/src/services/geminiService.js:40 | strings are truthy exactly when non-empty; arrays and objects, even empty, are always truthy |
| Json.EscapeChar | client/src/components/admin/BlogForm.js:82-83 | `JSON.stringify` writes every character other than quote, backslash and control characters as itself, and those three kinds as an escape starting with a backslash |
| Json.StringifyStrings | client/src/components/admin/BlogForm.js:82-83 | `JSON.stringify` of a string array is bracketed, and is "[]" exactly for the empty array; `Json.StringifyRoundTrip` shows it is read back exactly |
| Json.ReadChars | client/src/components/admin/BlogForm.js:82-83 | reading a JSON string body consumes input and stops at the closing quote |
| Json.ReadEscaped | client/src/components/admin/BlogForm.js:82-83 | reading back an escaped string yields the string and leaves the rest |
| Json.ReadJoined | client/src/components/admin/BlogForm.js:82-83 | reading back the comma-joined quoted tags yields the tags |
| Json.StringifyRoundTrip | client/src/components/admin/BlogForm.js:82-83 | `JSON.parse(JSON.stringify(tags))` gives back exactly the tags |
| Json.ParseStrings | client/src/components/admin/BlogForm.js:82-83 | `JSON.parse` of a string array accepts only text opening with "[", reads "[]" as the empty array, and inverts `Json.StringifyStrings` |
| Gemini.CoursePrompt | client/src/services/geminiService.js:9-30 | the course prompt is the fixed template with the topic embedded verbatim |
| Gemini.ModulePrompt | client/src/services/geminiService.js:55-67 | the module prompt is the fixed template with the topic embedded verbatim |
| Gemini.PromptDeterminesTopic | client/src/services/geminiService.js:9 | different topics give different prompts |
| Gemini.GenerateCourse | client/src/services/geminiService.js:5-49 | succeeds exactly when the reply parses and title, description and modules are truthy; returns the parsed object unchanged; every failure is the one course message |
| Gemini.GenerateModuleContent | client/src/services/geminiService.js:51-86 | succeeds exactly when concepts and examples are truthy; every failure is the one module message |
| Gemini.TruthinessDecides | client/src/services/geminiService.js:40 | with an empty modules array the outline is accepted exactly when title and description are non-empty |
| Gemini.ReplyReads | client/src/services/geminiService.js:40 | a reply's title, description and modules read back as written |
| Gemini.NullReplyFails | client/src/services/geminiService.js:37-48 | a reply that parses to `null` fails with the course message |
| Gemini.UncheckedMembersIgnored | client/src/services/geminiService.js:40 | objectives, duration, level and any other extra member never change the outcome |
| Gemini.ModuleExtrasIgnored | client/src/services/geminiService.js:77 | exercises, resources and other extras never change the module outcome |
| Gemini.FailuresCollapse | client/src/services/geminiService.js:45-48 | a reply that does not parse and a parsed reply missing fields fail with the same message |
| Generator.MockOutline | client/src/components/courses/CourseGenerator.js:38-58 | title is the untrimmed prompt plus " Course"; 3 modules of 3 topics; level "Intermediate"; duration "8 weeks" |
| Generator.HandleGenerate | client/src/components/courses/CourseGenerator.js:23-31 | a blank topic only sets the error; otherwise error and outline are cleared, loading starts and the topic is captured |
| Generator.Settle | client/src/components/courses/CourseGenerator.js:59-66 | success shows the mock outline of the captured topic, failure shows the error, loading stops either way |
| Generator.Step | client/src/components/courses/CourseGenerator.js:92-96 | a click on the disabled button (while loading) does nothing |
| Generator.StepConsistent | client/src/components/courses/CourseGenerator.js:29-66 | every event keeps loading tied to a running generation |
| Generator.RunConsistent | client/src/components/courses/CourseGenerator.js:23-96 | from any consistent screen, whatever happens, loading shows exactly while one generation runs |
| Generator.MockPassesPresenceCheck | client/src/components/courses/CourseGenerator.js:38-58 | every mock outline passes the presence check of the generation client |
| Generator.OutlineReads | client/src/services/geminiService.js:40 | the JSON object of an outline reads back its title, description and module array |
| Generator.MachineLearningScenario | client/src/components/courses/CourseGenerator.js:23-66 | typing "Introduction to Machine Learning", clicking and finishing shows "Introduction to Machine Learning Course" |
| Generator.NotBlank | client/src/components/courses/CourseGenerator.js:24 | a topic starting with a non-space character is not blank |
| Generator.RunThree | client/src/components/courses/CourseGenerator.js:23-66 | running three events is three steps |
| Generator.BlankNeverStarts | client/src/components/courses/CourseGenerator.js:24-27 | a whitespace-only topic starts no generation and sets "Please enter a course topic" |
| AdminSlice.AdminLogin | client/src/store/slices/adminSlice.js:14-23 | the exact pair opens the session; anything else sets "Invalid admin credentials" and keeps the session as it was |
| AdminSlice.AdminLogout | client/src/store/slices/adminSlice.js:24-28 | the session closes and the error clears |
| AdminSlice.ClearAdminError | client/src/store/slices/adminSlice.js:29-31 | only the error changes |
| AdminSlice.Reduce | client/src/store/slices/adminSlice.js:12-32 | after any action the session is open exactly when the action is a successful login, or it was open and the action is not logout; loading never changes |
| AdminSlice.ReducePreserves | client/src/store/slices/adminSlice.js:3-33 | every reducer keeps: email present exactly when admin, and it is the admin email; loading never set |
| AdminSlice.ReachableInvariant | client/src/store/slices/adminSlice.js:3-33 | every state reached by any action sequence satisfies the session invariant |
| AdminSlice.LogoutForgetsEverything | client/src/store/slices/adminSlice.js:24-28 | after logout the state is the initial state |
| AdminSlice.FailedLoginKeepsSession | client/src/store/slices/adminSlice.js:20-22 | a failed login after a successful one leaves the session open |
| AdminRoute.Gate | client/src/components/auth/AdminRoute.js:9-29 | spinner exactly when loading; redirect exactly when not loading and not admin; children exactly otherwise |
| AdminRoute.GateOverReachableStates | client/src/components/auth/AdminRoute.js:9-29 | driven by the slice, the spinner never shows and the page renders exactly when the session is open |
| AdminLogin.HandleChange | client/src/components/admin/AdminLogin.js:29-32 | only the named field changes; a shown error is cleared |
| AdminLogin.HandleSubmit | client/src/components/admin/AdminLogin.js:34-40 | always dispatches the login; navigates to the dashboard exactly for the literal pair |
| AdminLogin.NavigationMatchesSession | client/src/components/admin/AdminLogin.js:34-40 | a navigation always lands in an open session, and opening a closed session always navigates |
| CourseList.FilteredCourses | client/src/components/courses/CourseList.js:36-42 | exactly the courses meeting search, category and level, each kept one taken from the list |
| CourseList.FilteredKeepsEveryCopy | client/src/components/courses/CourseList.js:36-42 | a course meeting search, category and level is listed as many times as it was fetched, any other course never |
| CourseList.FilteredIsSubsequence | client/src/components/courses/CourseList.js:36-42 | the filtered list is an order-preserving subsequence |
| CourseList.DefaultShowsAll | client/src/components/courses/CourseList.js:36-42 | empty search with "all"/"all" lists every course in order |
| CourseList.SearchMeaning | client/src/components/courses/CourseList.js:37-38 | the search matches exactly when the lowered term occurs in the lowered title or description |
| CourseList.KeptCourseMeaning | client/src/components/courses/CourseList.js:37-40 | a kept course has the chosen category and level and contains the term |
| CourseList.KeptIsKept | client/src/components/courses/CourseList.js:36-42 | a listed course meets all three conditions |
| CourseList.SearchIgnoresCase | client/src/components/courses/CourseList.js:37-38 | searching for the lowered term is the same as searching for the term |
| CourseList.Categories | client/src/components/courses/CourseList.js:33 | the category menu has no duplicates, names every course's category and nothing else |
| CourseList.CategoriesInFirstAppearanceOrder | client/src/components/courses/CourseList.js:33 | the menu follows the order of first appearance |
| BlogList.FilteredBlogs | client/src/pages/BlogList.js:44-48 | exactly the blogs whose title, excerpt or some tag contains the term, ignoring case |
| BlogList.FilteredBlogsIsSubsequence | client/src/pages/BlogList.js:44-48 | the filtered blogs are an order-preserving subsequence |
| BlogList.EmptySearchKeepsAll | client/src/pages/BlogList.js:44-48 | an empty search keeps every blog |
| BlogList.KeptBlogMeaning | client/src/pages/BlogList.js:44-48 | every kept blog contains the lowered term in title, excerpt or a tag |
| BlogList.KeptBlogMatches | client/src/pages/BlogList.js:44-48 | every listed blog satisfies the search predicate |
| BlogList.TagAloneSuffices | client/src/pages/BlogList.js:47 | a matching tag alone keeps a blog |
| Dashboard.UserCourses | client/src/components/dashboard/Dashboard.js:42-44 | exactly the courses the user teaches, in course order |
| Dashboard.EnrolledCourses | client/src/components/dashboard/Dashboard.js:46-48 | exactly the courses whose id the user lists, in course order |
| Dashboard.NoUserNoTabs | client/src/components/dashboard/Dashboard.js:42-48 | with no user both tabs are empty |
| Dashboard.TabsAreSubsequences | client/src/components/dashboard/Dashboard.js:42-48 | both tabs are order-preserving subsequences of the courses |
| Dashboard.EnrolmentOrderIrrelevant | client/src/components/dashboard/Dashboard.js:46-48 | the enrolled tab depends only on the set of enrolled ids, not their order |
| Home.FeaturedCourses | client/src/components/pages/Home.js:24 | the first min(3, n) courses, a prefix of the list |
| CreateCourse.HandleChange | client/src/components/courses/CreateCourse.js:38-40 | only the named field changes; modules are kept |
| CreateCourse.SetModuleField | client/src/components/courses/CreateCourse.js:44 | only the named field of a module changes |
| CreateCourse.HandleModuleChange | client/src/components/courses/CreateCourse.js:42-46 | only the named field of the module at the index changes; other modules and fields are kept; an index with no module throws |
| CreateCourse.AddModule | client/src/components/courses/CreateCourse.js:48-53 | one blank module appended, existing modules unchanged |
| CreateCourse.RemoveAt | client/src/components/courses/CreateCourse.js:56 | a valid index removes exactly that element keeping order; any other index changes nothing |
| CreateCourse.RemoveModule | client/src/components/courses/CreateCourse.js:55-58 | removes the module at the index, other fields kept |
| CreateCourse.RemoveUndoesAdd | client/src/components/courses/CreateCourse.js:48-58 | removing the module just added restores the form |
| CreateCourse.ModuleChangeToSameValue | client/src/components/courses/CreateCourse.js:42-46 | setting a module field to its current value leaves the form unchanged |
| CreateCourse.Apply | client/src/components/courses/CreateCourse.js:194-198 | a disabled control (delete of the last module) does nothing |
| CreateCourse.ApplyKeepsAModule | client/src/components/courses/CreateCourse.js:194-198 | no enabled action empties a non-empty module list |
| CreateCourse.NeverEmpty | client/src/components/courses/CreateCourse.js:27-58 | whatever the user does, at least one module remains |
| CreateCourse.InitialNeverEmpty | client/src/components/courses/CreateCourse.js:27-34 | starting from the initial form the module list is never empty |
| BlogForm.StatusOrDraft | client/src/components/admin/BlogForm.js:35 | a missing or empty status becomes "draft" |
| BlogForm.InitialForm | client/src/components/admin/BlogForm.js:28-36 | the blog's fields when editing, defaults otherwise; the image always starts empty |
| BlogForm.HandleChange | client/src/components/admin/BlogForm.js:56-62 | only the named field changes |
| BlogForm.SetTags | client/src/components/admin/BlogForm.js:219-221 | the tags are replaced; other fields are kept |
| BlogForm.HandleImageChange | client/src/components/admin/BlogForm.js:64-72 | a cancelled pick changes nothing; a picked file replaces the image |
| BlogForm.ImageEntryValue | client/src/components/admin/BlogForm.js:85 | a file is sent as a file; no image is sent as the text "null" |
| BlogForm.Encode | client/src/components/admin/BlogForm.js:80-87 | one entry per form field in field order; the tags as JSON text |
| BlogForm.EncodeRoundTrip | client/src/components/admin/BlogForm.js:80-87 | the multipart body reads back as the form, tags and image included |
| BlogForm.EncodeInjective | client/src/components/admin/BlogForm.js:80-87 | different forms are sent as different bodies |
| BlogForm.SubmitRequest | client/src/components/admin/BlogForm.js:89-93 | update by slug exactly when editing an existing blog, otherwise create |
| BlogForm.BeginSubmit | client/src/components/admin/BlogForm.js:74-78 | loading on and error cleared before the request |
| BlogForm.FinishSubmit | client/src/components/admin/BlogForm.js:94-101 | success navigates to the blog list, failure sets "Failed to save blog", loading off either way |
| BlogForm.Step | client/src/components/admin/BlogForm.js:315 | submit is ignored while loading |
| BlogForm.StepKeepsLoadingTracked | client/src/components/admin/BlogForm.js:74-101 | every event keeps loading tied to a request in flight |
| BlogForm.LoadingTrackedAlways | client/src/components/admin/BlogForm.js:74-101 | loading is on exactly while a request is in flight, on every path |
| BlogForm.UntouchedEditSendsBlogBack | client/src/components/admin/BlogForm.js:28-93 | saving an untouched edit sends the blog's own fields to its slug |
| BlogPublish.PublishBlog | client/src/services/blogService.js:65-85 | status "published", publication and update times now; a missing blog fails with "Failed to publish blog" and nothing changes |
| BlogPublish.UnpublishBlog | client/src/services/blogService.js:87-106 | status "draft", update time now, publication time kept; a missing blog fails with "Failed to unpublish blog" |
| BlogPublish.OthersUntouched | client/src/services/blogService.js:68-97 | both transitions change only the named blog |
| BlogPublish.PublishThenUnpublish | client/src/services/blogService.js:68-100 | publish then unpublish gives a draft that keeps its publication time |
| BlogPublish.RepublishRefreshes | client/src/services/blogService.js:68-76 | publishing again moves the publication time forward |
| BlogPublish.NeverPublishedStaysUndated | client/src/services/blogService.js:90-97 | unpublishing a never-published blog leaves it without publication time |
| CourseRoutes.GetCourse | routes/courses.js:19-29 | the course, or 404 "Course not found" exactly when missing |
| CourseRoutes.ListCourses | routes/courses.js:7-16 | the records of a duplicate-free list of exactly the stored ids, so every course exactly once, newest first |
| CourseRoutes.NewCourse | routes/courses.js:34-37 | the instructor is always the authenticated user, whatever the body says |
| CourseRoutes.CreateCourse | routes/courses.js:32-43 | 201 with the new course under a fresh id exactly when the schema (the parameter `accepts`) accepts it, else 400 with nothing stored |
| CourseRoutes.ApplyPatch | routes/courses.js:55-59 | every field the body gives replaces the stored one and every absent field is kept |
| CourseRoutes.UpdateCourse | routes/courses.js:46-64 | 404 before the ownership check; 401 "Not authorized" with nothing changed; otherwise the merged course |
| CourseRoutes.DeleteCourse | routes/courses.js:67-81 | 404 before the ownership check; 401 with nothing changed; otherwise exactly that course removed |
| CourseRoutes.WithReview | routes/courses.js:96-97 | one review appended at the end; rating is the mean of all review ratings |
| CourseRoutes.SumRatings | routes/courses.js:97 | the `reduce` of no reviews is 0 and of one review is its rating; `CourseRoutes.SumAppend` and `CourseRoutes.SumBounds` state the rest |
| CourseRoutes.AddReview | routes/courses.js:84-104 | 404 for a missing course; otherwise, when the schema (the parameter `accepts`) accepts the result, the review appended, the rating recomputed as the mean and 201, else 400 with nothing stored |
| CourseRoutes.SumBounds | routes/courses.js:97 | the sum of n ratings in [lo, hi] lies in [n lo, n hi] |
| CourseRoutes.MeanBounds | routes/courses.js:97 | the mean rating lies between the lowest and highest possible rating |
| CourseRoutes.MeanBetween | routes/courses.js:97 | a total of n ratings within [lo, hi], divided by n, lies within [lo, hi] |
| CourseRoutes.DivMonotone | routes/courses.js:97 | dividing by the positive review count keeps the order |
| CourseRoutes.SumAppend | routes/courses.js:96-97 | the new sum is the old sum plus the new rating |
| CourseRoutes.IncrementalMean | routes/courses.js:96-97 | recomputing from all reviews equals the incremental mean update |
| CourseRoutes.NonOwnerChangesNothing | routes/courses.js:51-53 | a non-owner's update or delete is 401 and leaves the store unchanged |
| CourseRoutes.UpdateCanTransferOwnership | routes/courses.js:55-59 | an owner's update may name another instructor, after which the former owner is refused |
| CourseRoutes.CreateKeepsBodyRating | routes/courses.js:34-37 | a rating given in the create body is stored though no review supports it |
| CourseRoutes.GetAfterReview | routes/courses.js:84-104 | an accepted review is stored: the course then reads back with one more review, the new one last, and a rating within the bounds of all ratings |
| CourseRoutes.GetAfterCreate | routes/courses.js:19-43 | a created course reads back under its id |
| CourseRoutes.DeleteThenGet | routes/courses.js:67-77 | after a delete, get and a second delete are 404 |
| CourseRoutes.HandlersKeepIdsIssued | routes/courses.js:32-104 | no handler creates a course under a taken id |
| CourseSchema.NoViolationsIff | client/src/models/Course.js:3-54 | the validators report nothing exactly for drafts meeting every field constraint |
| CourseSchema.Violations | client/src/models/Course.js:4-45 | each required field, each objective and each module title and description is reported exactly when it is missing or empty, the level exactly when it is outside the enumeration, the creator exactly when it is missing; index paths only name objectives and modules that exist |
| CourseSchema.FieldViolations | client/src/models/Course.js:4-45 | title, description and duration are reported exactly when missing or empty, the level exactly when outside the enumeration, the creator exactly when missing; no index path |
| CourseSchema.ObjectiveViolations | client/src/models/Course.js:21-24 | an objective path is reported exactly for a missing or empty objective, and only for objectives that exist |
| CourseSchema.ModuleViolations | client/src/models/Course.js:25-33 | a module title or description path is reported exactly when that field is missing or empty, and only for existing modules |
| CourseSchema.BuildReadsBack | client/src/models/Course.js:3-54 | a built document holds exactly the draft's values, with the creation time filled in |
| CourseSchema.Save | client/src/models/Course.js:3-60 | rejected with all violations, or stored well-formed holding exactly the draft's values, with createdAt defaulting to the clock read at construction and updatedAt the clock read in the pre-save hook |
| CourseSchema.FreshSaveTimesOrdered | client/src/models/Course.js:46-60 | with a clock that does not go backwards, a fresh document's creation time is at most its update time, and equal only when the two readings are |
| CourseSchema.ResaveRefreshesOnlyUpdatedAt | client/src/models/Course.js:57-60 | re-saving a stored course changes only updatedAt, to the hook's clock reading, whatever the construction-time reading |
| CourseSchema.LevelOutsideEnumRejected | client/src/models/Course.js:16-20 | a level outside Beginner/Intermediate/Advanced is rejected at that path |
| CourseSchema.ModuleTitleRequired | client/src/models/Course.js:25-33 | a module with an empty title is rejected at that module's path |
| CourseService.SaveCourse | client/src/services/courseService.js:4-17 | the creator is forced to the user; the clock is read at construction and again in the pre-save hook; any failure is "Failed to save course" with nothing stored |
| CourseService.GetCourses | client/src/services/courseService.js:19-30 | the records of a duplicate-free list of exactly the stored ids, so every course exactly once, newest first |
| CourseService.GetCourseById | client/src/services/courseService.js:32-45 | the course, or "Failed to fetch course" exactly when missing |
| CourseService.Merge | client/src/services/courseService.js:50-54 | every given field replaces the stored one and every absent field is kept; updatedAt is now even if the updates carry one |
| CourseService.UpdateCourse | client/src/services/courseService.js:47-63 | the merged course, or "Failed to update course" with nothing changed |
| CourseService.DeleteCourse | client/src/services/courseService.js:65-77 | exactly that course removed and returned, or "Failed to delete course" with nothing changed |
| CourseService.OnlyGenericMessages | client/src/services/courseService.js:37-44 | callers only ever see the generic messages, never "Course not found" |
| CourseService.GetAfterSave | client/src/services/courseService.js:4-45 | a saved course is fetched back under its id |
| CourseService.DeleteIsFinal | client/src/services/courseService.js:65-77 | a deleted course can no longer be fetched, updated or deleted |
| CourseService.WritesKeepIdsIssued | client/src/services/courseService.js:4-77 | no write stores a course under a taken id |
| CourseService.UpdateBypassesValidation | client/src/services/courseService.js:50-54 | an update can store a level outside the enumeration, because no validator runs |
| CourseService.SuppliedUpdatedAtIgnored | client/src/services/courseService.js:52 | an updatedAt given in the updates is overridden by now |
| Statistics.Set | client/src/services/statisticsService.js:42 | only the named counter changes |
| Statistics.Fresh | client/src/models/Statistics.js:3-24 | a new record has every counter 0 and the creation time |
| Statistics.LatestIndex | client/src/services/statisticsService.js:5 | the current record has the greatest lastUpdated |
| Statistics.GetStatistics | client/src/services/statisticsService.js:3-16 | the most recently updated record, or the all-zero default without time exactly when none exists |
| Statistics.Assign | client/src/services/statisticsService.js:22-23 | given counters replace stored ones; lastUpdated is now |
| Statistics.Create | client/src/services/statisticsService.js:26-29 | the counters given, 0 for the rest, lastUpdated now |
| Statistics.UpdateStatistics | client/src/services/statisticsService.js:18-36 | overwrites the current record or creates the first; returns the re-read state |
| Statistics.IncrementStatistics | client/src/services/statisticsService.js:38-56 | adds the amount (default 1) to one counter of the current record or creates it; returns the re-read state |
| Statistics.ReplaceLatest | client/src/services/statisticsService.js:20-31 | overwriting the current record with one stamped now, when no stored time is later, makes it the record read back |
| Statistics.NewestIsRead | client/src/services/statisticsService.js:5 | a record newer than all earlier ones is the one read |
| Statistics.UpdateReadsBack | client/src/services/statisticsService.js:18-31 | with a forward clock the update returns what it wrote |
| Statistics.IncrementReadsBack | client/src/services/statisticsService.js:38-51 | with a forward clock exactly the named counter rises by the amount, from 0 on a first write |
| Statistics.IncrementsAdd | client/src/services/statisticsService.js:38-51 | two increments add up |
| Statistics.EmptyReadsDefault | client/src/services/statisticsService.js:6-11 | with no record every counter reads 0 and there is no time |
| UserModel.RoleOf | models/User.js:18-22 | a missing role is "student" |
| UserModel.Violations | models/User.js:4-22 | no violation exactly when name, email and password are non-empty and the role is in the enumeration |
| UserModel.Register | models/User.js:4-48 | saves exactly valid users with an unused email, under a fresh id, storing exactly the given name, email, enrolments and created courses, the hashed password, the defaulted role and the defaulted createdAt |
| UserModel.SaveUser | models/User.js:4-48 | the assigned name, email, role and enrolments are stored and the rest kept; a modified password is hashed, an unmodified one kept as stored; fails exactly on violations or another user's email |
| UserModel.RegisterKeepsEmailsUnique | models/User.js:9-13 | a first save keeps emails unique |
| UserModel.SaveKeepsEmailsUnique | models/User.js:9-13 | a later save keeps emails unique |
| UserModel.DuplicateRegistrationRefused | models/User.js:9-13 | registering the same email twice is refused by the index |
| UserModel.ResaveDoesNotRehash | models/User.js:38-40 | saving without touching the password never hashes the stored hash again |
| UserModel.RoleDefaultsToStudent | models/User.js:18-22 | a user registered without role is a student |

## Left out

- I/O is left out: `connectDB`, the database drivers, axios, Express routing and the authentication middleware. The middleware is not part of this model, so the user id is a parameter. Database and connection failures (the 500 answers and the service `catch` paths they reach) are not modelled.
- Mongoose `populate` is left out: it only replaces references by documents when reading.
- Cast errors of malformed ids are left out: ids are natural numbers.
- Rendering is left out: JSX and MUI styling.
- The dashboards and static pages with hard-coded data are left out, and so are the stub handlers that only log.
- The client's `App.js` routing and store wiring are left out.
- The blog service's axios wrappers (create, get, update, delete, categories, tags, search) are left out. So is `BlogForm`'s fetch of categories and tags: both are network calls.
- `CreateCourse`'s submit is left out: it dispatches to the course slice, which is not part of this model.
- bcrypt is left out: hashing is an uninterpreted function, and `comparePassword` is not modelled.
- Time is a clock parameter.
- The generator's `setTimeout` delay is left out: starting and settling are two transitions.
- In the generator source, the mock never throws, so its failure path is reachable only in the model.
- Concurrency between requests and the async ordering of React state updates are left out: every handler is one atomic transition.
- Text.Lower: lower-cases ASCII letters only, not the full Unicode case mapping of `toLowerCase`.
- Text.Excerpt: strings are sequences of Unicode code points. JavaScript counts UTF-16 code units, so for text outside the Basic Multilingual Plane the 100-character cut falls at a different place.
- Json.ReadChars: strings cannot hold lone surrogates, so `\u` escapes in the surrogate range are rejected rather than paired.
- Gemini.GenerateCourse: the model call and `JSON.parse` are one abstract function from prompt to optional JSON value. The `model.generateContent` round trip and the text extraction are left out.
- Statistics.LatestIndex: among records with equal `lastUpdated` the database's pick is unspecified. The model takes the earliest stored.
- Statistics.IncrementStatistics: the field is one of the four counters. Other field names and JavaScript number arithmetic (floating point, `NaN`) are not modelled.
- CourseRoutes.CreateCourse: an `_id` in the request body is not modelled. The new course always gets the next free id. In the source a body `_id` that is already taken fails on the duplicate key and answers 400.
- CourseService.SaveCourse: an `_id` inside `courseData` is not modelled. The new course always gets the next free id. In the source the spread keeps such an `_id`: one already in use fails on the duplicate key and gives "Failed to save course", and a fresh one stores the course under that id.
- CourseRoutes.UpdateCourse: an `_id` in the request body is not modelled. The patch has no id field. In the source a body `_id` different from the route's id is refused by MongoDB, and the route answers 400.
- CourseRoutes.NewCourse: the server's course schema is not part of this model. Its defaults are assumed: no reviews, rating 0, and creation time now.
- CourseRoutes.CreateCourse: validation by that schema is the parameter `accepts`, and its 400 message is not modelled.
- CourseRoutes.DeleteCourse: `course.remove()` is taken to delete the document. In Mongoose versions without `Document.prototype.remove` it throws and the route answers 500. The Mongoose version is not part of this model.
- CourseRoutes.ListCourses: the order among courses with equal creation times is unspecified, as in the database, so only the descending order is stated.
- CourseRoutes.SumRatings: ratings are real numbers, not floating point. A missing rating in the body (which would give `NaN`) is not modelled.
- CreateCourse.HandleModuleChange: the source mutates the module object it shares with the previous state. The model's states are values, so that aliasing has no counterpart.
- BlogPublish.PublishBlog: the source reads the clock twice, for `publishedAt` and `updatedAt`. The model uses one reading for both.
- UserModel.Register: the hash is a deterministic function. The random salt is not modelled.
- UserModel.SaveUser: the hook's failure path (`next(error)`) is not modelled.
- Updates that assign `null` to a field are left out.
