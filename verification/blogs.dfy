/**
  The blog editor (`BlogForm.js`): the initial form, field edits, the
  multipart encoding of a submit, the create-or-update choice and the
  loading/error lifecycle; and the two status transitions of
  `blogService.js`, `publishBlog` and `unpublishBlog`.
 */
module BlogForm {
  import opened Wrappers
  import Json

  /** A file the user picked; its bytes are not modelled. */
  datatype FileRef = FileRef(name: string)

  /** The blog being edited, as the form reads it: any field may be missing. */
  datatype BlogInput = BlogInput(
    slug: string,
    title: Option<string>,
    content: Option<string>,
    excerpt: Option<string>,
    category: Option<string>,
    tags: Option<seq<string>>,
    status: Option<string>)

  /** The form state, its fields in declaration order. */
  datatype FormData = FormData(
    title: string,
    content: string,
    excerpt: string,
    category: string,
    tags: seq<string>,
    featuredImage: Option<FileRef>,
    status: string)

  const DefaultStatus := "draft"

  /** `x || ''` for an optional string: a missing or empty string gives the empty string. */
  function OrEmpty(x: Option<string>): string
  {
    if x.Some? then x.value else ""
  }

  /** `x || 'draft'`: a missing or empty status gives "draft". */
  function StatusOrDraft(x: Option<string>): (r: string)
    ensures r != ""
    ensures x.Some? && x.value != "" ==> r == x.value
  {
    if x.Some? && x.value != "" then x.value else DefaultStatus
  }

  /**
    The initial form: the fields of the blog being edited when there is one,
    defaults otherwise; the image always starts empty, since an existing image
    is not re-sent.
   */
  function InitialForm(blog: Option<BlogInput>): (r: FormData)
    ensures r.featuredImage.None? && r.status != ""
    ensures blog.None? ==> r == FormData("", "", "", "", [], None, DefaultStatus)
    ensures blog.Some? ==>
      && r.title == OrEmpty(blog.value.title) && r.content == OrEmpty(blog.value.content)
      && r.excerpt == OrEmpty(blog.value.excerpt) && r.category == OrEmpty(blog.value.category)
      && r.tags == blog.value.tags.GetOr([])
      && r.status == StatusOrDraft(blog.value.status)
  {
    match blog
    case None => FormData("", "", "", "", [], None, DefaultStatus)
    case Some(b) =>
      FormData(OrEmpty(b.title), OrEmpty(b.content), OrEmpty(b.excerpt), OrEmpty(b.category),
               b.tags.GetOr([]), None, StatusOrDraft(b.status))
  }

  /** The inputs bound to `handleChange`, by their `name` attribute. */
  datatype TextField = Title | Content | Excerpt | Category | Status

  function TextValue(f: FormData, k: TextField): string
  {
    match k
    case Title => f.title
    case Content => f.content
    case Excerpt => f.excerpt
    case Category => f.category
    case Status => f.status
  }

  /** `handleChange`: the named field takes the value; every other field, the tags and the image are kept. */
  function HandleChange(f: FormData, k: TextField, v: string): (r: FormData)
    ensures TextValue(r, k) == v
    ensures forall k' :: k' != k ==> TextValue(r, k') == TextValue(f, k')
    ensures r.tags == f.tags && r.featuredImage == f.featuredImage
  {
    match k
    case Title => f.(title := v)
    case Content => f.(content := v)
    case Excerpt => f.(excerpt := v)
    case Category => f.(category := v)
    case Status => f.(status := v)
  }

  /** The tag picker's `onChange`: the tags are replaced by the picker's new list. */
  function SetTags(f: FormData, tags: seq<string>): (r: FormData)
    ensures r.tags == tags
    ensures forall k :: TextValue(r, k) == TextValue(f, k)
    ensures r.featuredImage == f.featuredImage
  {
    f.(tags := tags)
  }

  /** `handleImageChange`: a picked file replaces the image; a cancelled pick changes nothing. */
  function HandleImageChange(f: FormData, picked: Option<FileRef>): (r: FormData)
    ensures picked.None? ==> r == f
    ensures picked.Some? ==> r.featuredImage == picked
    ensures forall k :: TextValue(r, k) == TextValue(f, k)
    ensures r.tags == f.tags
  {
    if picked.Some? then f.(featuredImage := picked) else f
  }

  /** A `FormData` entry value: a string, or a file. */
  datatype EntryValue = Text(text: string) | Blob(file: FileRef)

  datatype Entry = Entry(name: string, value: EntryValue)

  /** `Object.keys(formData)`: the keys in the order the initial object literal declares them. */
  const FieldOrder: seq<string> := ["title", "content", "excerpt", "category", "tags", "featuredImage", "status"]

  /** `append(key, value)` of a value other than the tags: a file stays a file, `null` becomes the text "null". */
  function ImageEntryValue(image: Option<FileRef>): (r: EntryValue)
    ensures image.Some? <==> r.Blob?
    ensures image.None? ==> r == Text("null")
  {
    match image
    case Some(file) => Blob(file)
    case None => Text("null")
  }

  /**
    The multipart body of a submit: one entry per form field, in field order;
    the tags as their `JSON.stringify` text; every other field as it is.
   */
  function Encode(f: FormData): (r: seq<Entry>)
    ensures |r| == |FieldOrder|
    ensures forall i :: 0 <= i < |r| ==> r[i].name == FieldOrder[i]
    ensures r[4].value == Text(Json.StringifyStrings(f.tags))
    ensures forall i :: 0 <= i < |r| && i != 5 ==> r[i].value.Text?
  {
    [ Entry("title", Text(f.title)),
      Entry("content", Text(f.content)),
      Entry("excerpt", Text(f.excerpt)),
      Entry("category", Text(f.category)),
      Entry("tags", Text(Json.StringifyStrings(f.tags))),
      Entry("featuredImage", ImageEntryValue(f.featuredImage)),
      Entry("status", Text(f.status)) ]
  }

  /** The entry names are exactly the field names, in order. */
  predicate NamesInOrder(es: seq<Entry>)
  {
    |es| == |FieldOrder| && forall i :: 0 <= i < |es| ==> es[i].name == FieldOrder[i]
  }

  /** The image entry read back: a file, or the text "null" for no file. */
  function ReadImage(v: EntryValue): Option<Option<FileRef>>
  {
    match v
    case Blob(file) => Some(Some(file))
    case Text(t) => if t == "null" then Some(None) else None
  }

  /**
    A reference reader for the multipart body, as a server would read it: the
    seven named entries, the tags parsed back from JSON, the image a file or
    the text "null". Anything else is rejected.
   */
  function Decode(es: seq<Entry>): Option<FormData>
  {
    if !NamesInOrder(es) then None
    else if !(es[0].value.Text? && es[1].value.Text? && es[2].value.Text? && es[3].value.Text?
              && es[4].value.Text? && es[6].value.Text?) then None
    else
      var tags := Json.ParseStrings(es[4].value.text);
      var image := ReadImage(es[5].value);
      if tags.None? || image.None? then None
      else Some(FormData(es[0].value.text, es[1].value.text, es[2].value.text, es[3].value.text,
                         tags.value, image.value, es[6].value.text))
  }

  /** Nothing is lost in the encoding: every form, tags and image included, reads back as itself. */
  lemma EncodeRoundTrip(f: FormData)
    ensures Decode(Encode(f)) == Some(f)
  {
    Json.StringifyRoundTrip(f.tags);
  }

  /** Two forms with the same encoding are the same form. */
  lemma EncodeInjective(f: FormData, g: FormData)
    requires Encode(f) == Encode(g)
    ensures f == g
  {
    EncodeRoundTrip(f);
    EncodeRoundTrip(g);
  }

  /** The request a submit sends. */
  datatype Request = CreateBlog(body: seq<Entry>) | UpdateBlog(slug: string, body: seq<Entry>)

  /** Editing an existing blog updates it by its slug; otherwise a new blog is created. */
  function SubmitRequest(blog: Option<BlogInput>, f: FormData): (r: Request)
    ensures r.UpdateBlog? <==> blog.Some?
    ensures r.UpdateBlog? ==> r.slug == blog.value.slug
    ensures r.body == Encode(f)
  {
    match blog
    case Some(b) => UpdateBlog(b.slug, Encode(f))
    case None => CreateBlog(Encode(f))
  }

  const SaveFailure := "Failed to save blog"
  const BlogsPath := "/admin/blogs"

  /**
    The editor screen: the form, the spinner, the error, the request in flight
    (absent when none is) and where the screen navigated, if anywhere.
   */
  datatype Screen = Screen(
    form: FormData,
    loading: bool,
    error: Option<string>,
    pending: Option<Request>,
    navigated: Option<string>)

  function Open(blog: Option<BlogInput>): Screen
  {
    Screen(InitialForm(blog), false, None, None, None)
  }

  /** The start of `handleSubmit`: spinner on, error cleared, the request sent. */
  function BeginSubmit(blog: Option<BlogInput>, s: Screen): (r: Screen)
    ensures r.loading && r.error.None?
    ensures r.pending == Some(SubmitRequest(blog, s.form))
    ensures r.form == s.form && r.navigated == s.navigated
  {
    s.(loading := true, error := None, pending := Some(SubmitRequest(blog, s.form)))
  }

  /**
    The end of `handleSubmit`: on success the screen goes to the blog list, on
    failure it shows the one error message; the spinner stops either way.
   */
  function FinishSubmit(s: Screen, ok: bool): (r: Screen)
    ensures !r.loading && r.pending.None? && r.form == s.form
    ensures ok ==> r.navigated == Some(BlogsPath) && r.error == s.error
    ensures !ok ==> r.error == Some(SaveFailure) && r.navigated == s.navigated
  {
    if ok then s.(loading := false, pending := None, navigated := Some(BlogsPath))
    else s.(loading := false, pending := None, error := Some(SaveFailure))
  }

  /** What the user and the pending request can do. */
  datatype Event =
    | Edit(field: TextField, value: string)
    | PickTags(tags: seq<string>)
    | PickImage(picked: Option<FileRef>)
    | Submit
    | Respond(ok: bool)

  /** One event; the submit button is disabled while loading, and a response needs a request. */
  function Step(blog: Option<BlogInput>, s: Screen, e: Event): (r: Screen)
    ensures e.Submit? && s.loading ==> r == s
    ensures e.Respond? && s.pending.None? ==> r == s
  {
    match e
    case Edit(k, v) => s.(form := HandleChange(s.form, k, v))
    case PickTags(ts) => s.(form := SetTags(s.form, ts))
    case PickImage(p) => s.(form := HandleImageChange(s.form, p))
    case Submit => if s.loading then s else BeginSubmit(blog, s)
    case Respond(ok) => if s.pending.Some? then FinishSubmit(s, ok) else s
  }

  function Run(blog: Option<BlogInput>, s: Screen, es: seq<Event>): Screen
    decreases |es|
  {
    if |es| == 0 then s else Run(blog, Step(blog, s, es[0]), es[1..])
  }

  /** The spinner shows exactly while a request is in flight. */
  predicate LoadingTracksRequest(s: Screen)
  {
    s.loading <==> s.pending.Some?
  }

  lemma StepKeepsLoadingTracked(blog: Option<BlogInput>, s: Screen, e: Event)
    requires LoadingTracksRequest(s)
    ensures LoadingTracksRequest(Step(blog, s, e))
  {
  }

  /** From the opened screen, whatever happens, the spinner is on exactly while a request is in flight. */
  lemma {:induction false} LoadingTrackedAlways(blog: Option<BlogInput>, s: Screen, es: seq<Event>)
    requires LoadingTracksRequest(s)
    ensures LoadingTracksRequest(Run(blog, s, es))
    decreases |es|
  {
    if |es| > 0 {
      StepKeepsLoadingTracked(blog, s, es[0]);
      LoadingTrackedAlways(blog, Step(blog, s, es[0]), es[1..]);
    }
  }

  /**
    Editing an existing blog and saving it untouched sends its own fields back:
    the body of the update decodes to the blog's title, content, excerpt,
    category, tags and status, with no image.
   */
  lemma UntouchedEditSendsBlogBack(b: BlogInput)
    requires b.title.Some? && b.content.Some? && b.excerpt.Some? && b.category.Some? && b.tags.Some?
    requires b.status.Some? && b.status.value != ""
    ensures var r := SubmitRequest(Some(b), InitialForm(Some(b)));
      && r == UpdateBlog(b.slug, r.body)
      && Decode(r.body) == Some(FormData(b.title.value, b.content.value, b.excerpt.value,
                                         b.category.value, b.tags.value, None, b.status.value))
  {
    EncodeRoundTrip(InitialForm(Some(b)));
  }
}

module BlogPublish {
  import opened Wrappers

  /** The blog fields the two transitions touch. */
  datatype Blog = Blog(title: string, status: string, publishedAt: Option<int>, updatedAt: int)

  const Published := "published"
  const Draft := "draft"
  const PublishFailure := "Failed to publish blog"
  const UnpublishFailure := "Failed to unpublish blog"

  /**
    `publishBlog(id)`: the blog becomes published, with the publication and
    update times set to now; a missing blog fails with the one generic message
    and nothing changes.
   */
  function PublishBlog(db: map<nat, Blog>, id: nat, now: int): (r: (map<nat, Blog>, Result<Blog, string>))
    ensures id !in db <==> r.1.Err?
    ensures r.1.Err? ==> r.0 == db && r.1.error == PublishFailure
    ensures r.1.Ok? ==>
      && r.1.value.status == Published && r.1.value.publishedAt == Some(now) && r.1.value.updatedAt == now
      && r.1.value.title == db[id].title
      && r.0 == db[id := r.1.value]
  {
    if id !in db then (db, Err(PublishFailure))
    else
      var b := db[id].(status := Published, publishedAt := Some(now), updatedAt := now);
      (db[id := b], Ok(b))
  }

  /**
    `unpublishBlog(id)`: the blog returns to draft with the update time set to
    now; its publication time is kept. A missing blog fails and nothing changes.
   */
  function UnpublishBlog(db: map<nat, Blog>, id: nat, now: int): (r: (map<nat, Blog>, Result<Blog, string>))
    ensures id !in db <==> r.1.Err?
    ensures r.1.Err? ==> r.0 == db && r.1.error == UnpublishFailure
    ensures r.1.Ok? ==>
      && r.1.value.status == Draft && r.1.value.updatedAt == now
      && r.1.value.publishedAt == db[id].publishedAt && r.1.value.title == db[id].title
      && r.0 == db[id := r.1.value]
  {
    if id !in db then (db, Err(UnpublishFailure))
    else
      var b := db[id].(status := Draft, updatedAt := now);
      (db[id := b], Ok(b))
  }

  /** Both transitions touch only the blog they name. */
  lemma OthersUntouched(db: map<nat, Blog>, id: nat, other: nat, now: int)
    requires other in db && other != id
    ensures other in PublishBlog(db, id, now).0 && PublishBlog(db, id, now).0[other] == db[other]
    ensures other in UnpublishBlog(db, id, now).0 && UnpublishBlog(db, id, now).0[other] == db[other]
    ensures PublishBlog(db, id, now).0.Keys == db.Keys && UnpublishBlog(db, id, now).0.Keys == db.Keys
  {
  }

  /** Publishing then unpublishing leaves a draft that remembers when it was published. */
  lemma PublishThenUnpublish(db: map<nat, Blog>, id: nat, t1: int, t2: int)
    requires id in db
    ensures var db1 := PublishBlog(db, id, t1).0;
      var r := UnpublishBlog(db1, id, t2);
      && r.1.Ok? && r.1.value.status == Draft
      && r.1.value.publishedAt == Some(t1) && r.1.value.updatedAt == t2
  {
  }

  /** Unpublishing then publishing again moves the publication time forward. */
  lemma RepublishRefreshes(db: map<nat, Blog>, id: nat, t1: int, t2: int, t3: int)
    requires id in db
    ensures var db1 := PublishBlog(db, id, t1).0;
      var db2 := UnpublishBlog(db1, id, t2).0;
      var r := PublishBlog(db2, id, t3);
      && r.1.Ok? && r.1.value.publishedAt == Some(t3) && r.1.value.status == Published
  {
  }

  /** Unpublishing a blog that was never published keeps it without a publication time. */
  lemma NeverPublishedStaysUndated(db: map<nat, Blog>, id: nat, now: int)
    requires id in db && db[id].publishedAt.None?
    ensures UnpublishBlog(db, id, now).1.Ok? && UnpublishBlog(db, id, now).1.value.publishedAt.None?
  {
  }
}
