/**
  The generation client of `geminiService.js`: each call builds a prompt from
  its topic, sends it to the generative model, parses the reply as JSON and
  checks a few properties for JavaScript truthiness. The model call followed
  by `JSON.parse` is the parameter `model`; `None` stands for any failure of
  either (transport error, service error, text that is not JSON).
 */
module Gemini {
  import opened Wrappers
  import opened Json

  /** The one error every failure of `generateCourse` is reported as. */
  const CourseFailure := "Failed to generate course content. Please try again."

  /** The one error every failure of `generateModuleContent` is reported as. */
  const ModuleFailure := "Failed to generate module content. Please try again."

  const CoursePromptHead := "Generate a comprehensive course structure for \""

  const CoursePromptTail :=
    "\". Include:\n" +
    "    1. Course title\n" +
    "    2. Brief description\n" +
    "    3. Duration (in weeks)\n" +
    "    4. Difficulty level (Beginner/Intermediate/Advanced)\n" +
    "    5. Learning objectives (3-5 points)\n" +
    "    6. Course modules (4-6 modules with titles and brief descriptions)\n" +
    "    \n" +
    "    Format the response as a JSON object with the following structure:\n" +
    "    {\n" +
    "      \"title\": \"string\",\n" +
    "      \"description\": \"string\",\n" +
    "      \"duration\": \"string\",\n" +
    "      \"level\": \"string\",\n" +
    "      \"objectives\": [\"string\"],\n" +
    "      \"modules\": [\n" +
    "        {\n" +
    "          \"title\": \"string\",\n" +
    "          \"description\": \"string\"\n" +
    "        }\n" +
    "      ]\n" +
    "    }"

  const ModulePromptHead := "Generate detailed content for the module \""

  const ModulePromptTail :=
    "\". Include:\n" +
    "    1. Key concepts (3-5 points)\n" +
    "    2. Examples (2-3 examples)\n" +
    "    3. Practice exercises (2-3 exercises)\n" +
    "    4. Additional resources (2-3 resources)\n" +
    "    \n" +
    "    Format the response as a JSON object with the following structure:\n" +
    "    {\n" +
    "      \"concepts\": [\"string\"],\n" +
    "      \"examples\": [\"string\"],\n" +
    "      \"exercises\": [\"string\"],\n" +
    "      \"resources\": [\"string\"]\n" +
    "    }"

  /** Places `topic`, unaltered, between a fixed head and tail. */
  function Embed(head: string, topic: string, tail: string): (r: string)
    ensures |r| == |head| + |topic| + |tail|
    ensures r[..|head|] == head
    ensures r[|head|..|head| + |topic|] == topic
    ensures r[|head| + |topic|..] == tail
  {
    head + topic + tail
  }

  /** The prompt for a course on `topic`: the topic appears verbatim inside the template. */
  function CoursePrompt(topic: string): (r: string)
    ensures |r| == |CoursePromptHead| + |topic| + |CoursePromptTail|
    ensures r[|CoursePromptHead|..|CoursePromptHead| + |topic|] == topic
  {
    Embed(CoursePromptHead, topic, CoursePromptTail)
  }

  /** The prompt for the content of a module on `topic`. */
  function ModulePrompt(topic: string): (r: string)
    ensures |r| == |ModulePromptHead| + |topic| + |ModulePromptTail|
    ensures r[|ModulePromptHead|..|ModulePromptHead| + |topic|] == topic
  {
    Embed(ModulePromptHead, topic, ModulePromptTail)
  }

  /** Different topics give different prompts, so the model is always told which topic was asked for. */
  lemma PromptDeterminesTopic(a: string, b: string)
    requires CoursePrompt(a) == CoursePrompt(b)
    ensures a == b
  {
    var pa, pb := CoursePrompt(a), CoursePrompt(b);
    assert |pa| == |CoursePromptHead| + |a| + |CoursePromptTail|;
    assert |a| == |b|;
  }

  /** The presence check of `generateCourse`: title, description and modules are truthy. */
  predicate CourseDataPresent(v: Json)
  {
    !v.Null? && Truthy(Get(v, "title")) && Truthy(Get(v, "description")) && Truthy(Get(v, "modules"))
  }

  /** The presence check of `generateModuleContent`: concepts and examples are truthy. */
  predicate ModuleDataPresent(v: Json)
  {
    !v.Null? && Truthy(Get(v, "concepts")) && Truthy(Get(v, "examples"))
  }

  /**
    `generateCourse(topic)`: one model call with the course prompt; a parsed
    reply passing the presence check is returned exactly as parsed, and every
    failure, whatever its cause, becomes the same error.
   */
  function GenerateCourse(topic: string, model: string -> Option<Json>): (r: Result<Json, string>)
    ensures r.Ok? <==> model(CoursePrompt(topic)).Some? && CourseDataPresent(model(CoursePrompt(topic)).value)
    ensures r.Ok? ==> Some(r.value) == model(CoursePrompt(topic))
    ensures r.Err? ==> r.error == CourseFailure
  {
    match model(CoursePrompt(topic))
    case None => Err(CourseFailure)
    case Some(v) => if CourseDataPresent(v) then Ok(v) else Err(CourseFailure)
  }

  /**
    `generateModuleContent(moduleTopic)`: the same shape as `GenerateCourse`
    with the module prompt, checking only concepts and examples.
   */
  function GenerateModuleContent(topic: string, model: string -> Option<Json>): (r: Result<Json, string>)
    ensures r.Ok? <==> model(ModulePrompt(topic)).Some? && ModuleDataPresent(model(ModulePrompt(topic)).value)
    ensures r.Ok? ==> Some(r.value) == model(ModulePrompt(topic))
    ensures r.Err? ==> r.error == ModuleFailure
  {
    match model(ModulePrompt(topic))
    case None => Err(ModuleFailure)
    case Some(v) => if ModuleDataPresent(v) then Ok(v) else Err(ModuleFailure)
  }

  /** A model that always answers with `v`, whatever it is asked. */
  function Answering(v: Option<Json>): string -> Option<Json>
  {
    _ => v
  }

  /** A reply object with the given title, description and modules. */
  function CourseReply(title: string, description: string, modules: seq<Json>, others: seq<Member>): Json
  {
    Object([Member("title", Str(title)), Member("description", Str(description)), Member("modules", Array(modules))] + others)
  }

  /**
    JavaScript truthiness decides acceptance: an empty modules array is
    accepted, an empty title or description is rejected.
   */
  lemma {:induction false} TruthinessDecides(topic: string, title: string, description: string)
    ensures GenerateCourse(topic, Answering(Some(CourseReply(title, description, [], [])))).Ok?
        <==> title != "" && description != ""
  {
    var v := CourseReply(title, description, [], []);
    ReplyReads(title, description, []);
    assert GenerateCourse(topic, Answering(Some(v))).Ok? <==> CourseDataPresent(v);
  }

  /** What the three checked properties of a three-member reply read as. */
  lemma ReplyReads(title: string, description: string, modules: seq<Json>)
    ensures var v := CourseReply(title, description, modules, []);
      && Get(v, "title") == Some(Str(title))
      && Get(v, "description") == Some(Str(description))
      && Get(v, "modules") == Some(Array(modules))
  {
    var mt, md, mm := Member("title", Str(title)), Member("description", Str(description)), Member("modules", Array(modules));
    assert CourseReply(title, description, modules, []).members == [mt, md, mm];
    assert [mt, md, mm] == [mt, md] + [mm];
    assert [mt, md] == [mt] + [md];
    assert [mt] == [] + [mt];
    LookupOtherKey([mt, md], mm, "title");
    LookupOtherKey([mt, md], mm, "description");
    LookupOtherKey([mt], md, "title");
  }

  /** A reply of `null` (valid JSON) fails as well: reading a property of null throws. */
  lemma NullReplyFails(topic: string)
    ensures GenerateCourse(topic, Answering(Some(Null))) == Err(CourseFailure)
  {
  }

  /**
    Members other than title, description and modules (objectives, duration,
    level, or anything else) never change whether a reply is accepted.
   */
  lemma {:induction false} UncheckedMembersIgnored(ms: seq<Member>, extra: Member)
    requires extra.key != "title" && extra.key != "description" && extra.key != "modules"
    ensures CourseDataPresent(Object(ms + [extra])) <==> CourseDataPresent(Object(ms))
  {
    LookupOtherKey(ms, extra, "title");
    LookupOtherKey(ms, extra, "description");
    LookupOtherKey(ms, extra, "modules");
  }

  /** Exercises and resources never change whether module content is accepted. */
  lemma {:induction false} ModuleExtrasIgnored(ms: seq<Member>, extra: Member)
    requires extra.key != "concepts" && extra.key != "examples"
    ensures ModuleDataPresent(Object(ms + [extra])) <==> ModuleDataPresent(Object(ms))
  {
    LookupOtherKey(ms, extra, "concepts");
    LookupOtherKey(ms, extra, "examples");
  }

  /** A parse failure and a failed presence check are indistinguishable to the caller. */
  lemma FailuresCollapse(topic: string, v: Json)
    requires !CourseDataPresent(v)
    ensures GenerateCourse(topic, Answering(None)) == GenerateCourse(topic, Answering(Some(v)))
  {
  }
}
