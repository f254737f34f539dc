/**
  The course generator screen (`CourseGenerator.js`). A click on the enabled
  button either rejects a blank topic or starts a generation, which after a
  delay settles with the deterministic mock outline built from the topic as
  it was at the click. The delay is left out: starting and settling are two
  separate transitions.
 */
module Generator {
  import opened Wrappers
  import opened Json
  import Text
  import Gemini

  const BlankTopicError := "Please enter a course topic"
  const GenerationError := "Failed to generate course. Please try again."

  datatype OutlineModule = OutlineModule(title: string, topics: seq<string>)

  /** The outline the screen shows. */
  datatype Outline = Outline(
    title: string,
    description: string,
    modules: seq<OutlineModule>,
    duration: string,
    level: string,
    prerequisites: seq<string>)

  /**
    The screen state: the topic field, the spinner flag, the error text and the
    shown outline. `inFlight` is the topic a running generation captured when
    it started (the closure of the pending handler), absent when none runs.
   */
  datatype GeneratorState = GeneratorState(
    prompt: string,
    loading: bool,
    error: string,
    course: Option<Outline>,
    inFlight: Option<string>)

  const Initial := GeneratorState("", false, "", None, None)

  /** The mock outline for `prompt`: the prompt is used exactly as typed, untrimmed. */
  function MockOutline(prompt: string): (o: Outline)
    ensures o.title == prompt + " Course"
    ensures |o.modules| == 3 && forall i :: 0 <= i < 3 ==> |o.modules[i].topics| == 3
    ensures o.level == "Intermediate" && o.duration == "8 weeks"
  {
    Outline(
      prompt + " Course",
      "A comprehensive course on " + prompt + " covering all essential topics and practical applications.",
      [ OutlineModule("Introduction to " + prompt, ["Overview", "Key Concepts", "Basic Principles"]),
        OutlineModule("Advanced " + prompt, ["Advanced Techniques", "Best Practices", "Case Studies"]),
        OutlineModule("Practical Applications", ["Real-world Examples", "Hands-on Projects", "Industry Applications"]) ],
      "8 weeks",
      "Intermediate",
      ["Basic knowledge of related field", "Eagerness to learn"])
  }

  /** The generate button is disabled while a generation runs. */
  predicate ButtonEnabled(s: GeneratorState)
  {
    !s.loading
  }

  /**
    `handleGenerate`: a blank topic only sets the error (no generation starts,
    the previous outline stays); otherwise the error and any previous outline
    are cleared, the spinner starts and the topic is captured.
   */
  function HandleGenerate(s: GeneratorState): (r: GeneratorState)
    ensures r.prompt == s.prompt
    ensures Text.IsBlank(s.prompt) ==>
      r.error == BlankTopicError && r.inFlight == s.inFlight && r.course == s.course && r.loading == s.loading
    ensures !Text.IsBlank(s.prompt) ==>
      r.error == "" && r.course.None? && r.loading && r.inFlight == Some(s.prompt)
  {
    if Text.IsBlank(s.prompt) then s.(error := BlankTopicError)
    else s.(loading := true, error := "", course := None, inFlight := Some(s.prompt))
  }

  /**
    The end of a running generation (the `try`/`catch`/`finally`): success
    shows the mock outline for the captured topic, failure shows the error,
    and the spinner stops either way.
   */
  function Settle(s: GeneratorState, ok: bool): (r: GeneratorState)
    requires s.inFlight.Some?
    ensures !r.loading && r.inFlight.None? && r.prompt == s.prompt
    ensures ok ==> r.course == Some(MockOutline(s.inFlight.value)) && r.error == s.error
    ensures !ok ==> r.error == GenerationError && r.course == s.course
  {
    if ok then s.(course := Some(MockOutline(s.inFlight.value)), loading := false, inFlight := None)
    else s.(error := GenerationError, loading := false, inFlight := None)
  }

  /** What the user and the pending timer can do. */
  datatype Event = Type(text: string) | Click | Finish(ok: bool)

  /** One event: typing edits the topic, a click reaches the handler only when the button is enabled. */
  function Step(s: GeneratorState, e: Event): (r: GeneratorState)
    ensures e.Click? && !ButtonEnabled(s) ==> r == s
  {
    match e
    case Type(t) => s.(prompt := t)
    case Click => if ButtonEnabled(s) then HandleGenerate(s) else s
    case Finish(ok) => if s.inFlight.Some? then Settle(s, ok) else s
  }

  function Run(s: GeneratorState, es: seq<Event>): GeneratorState
    decreases |es|
  {
    if |es| == 0 then s else Run(Step(s, es[0]), es[1..])
  }

  /** The spinner shows exactly while a generation is running. */
  predicate Consistent(s: GeneratorState)
  {
    s.loading <==> s.inFlight.Some?
  }

  /** Every event keeps the spinner tied to a running generation. */
  lemma StepConsistent(s: GeneratorState, e: Event)
    requires Consistent(s)
    ensures Consistent(Step(s, e))
  {
  }

  /**
    From the initial screen, whatever the user does, the spinner shows exactly
    while one generation runs, so at most one generation is ever in flight.
   */
  lemma {:induction false} RunConsistent(s: GeneratorState, es: seq<Event>)
    requires Consistent(s)
    ensures Consistent(Run(s, es))
    decreases |es|
  {
    if |es| > 0 {
      StepConsistent(s, es[0]);
      RunConsistent(Step(s, es[0]), es[1..]);
    }
  }

  /** An array of strings as JSON. */
  function StringsJson(ts: seq<string>): Json
  {
    Array(seq(|ts|, i requires 0 <= i < |ts| => Str(ts[i])))
  }

  function ModuleJson(m: OutlineModule): Json
  {
    Object([Member("title", Str(m.title)), Member("topics", StringsJson(m.topics))])
  }

  /** The mock outline as the JSON object the generation client would receive. */
  function OutlineJson(o: Outline): Json
  {
    Object([
      Member("title", Str(o.title)),
      Member("description", Str(o.description)),
      Member("modules", Array(seq(|o.modules|, i requires 0 <= i < |o.modules| => ModuleJson(o.modules[i])))),
      Member("duration", Str(o.duration)),
      Member("level", Str(o.level)),
      Member("prerequisites", StringsJson(o.prerequisites))])
  }

  /** Every mock outline, for every topic (even an empty one), passes the client's presence check. */
  lemma MockPassesPresenceCheck(prompt: string)
    ensures Gemini.CourseDataPresent(OutlineJson(MockOutline(prompt)))
  {
    var o := MockOutline(prompt);
    OutlineReads(o);
    assert |o.title| > 0 && |o.description| > 0;
  }

  /** The checked properties of an outline's JSON object read back its title, description and modules. */
  lemma OutlineReads(o: Outline)
    ensures Get(OutlineJson(o), "title") == Some(Str(o.title))
    ensures Get(OutlineJson(o), "description") == Some(Str(o.description))
    ensures Get(OutlineJson(o), "modules").Some? && Get(OutlineJson(o), "modules").value.Array?
  {
    var ms := OutlineJson(o).members;
    assert ms[3].key == "duration" && ms[4].key == "level" && ms[5].key == "prerequisites";
    LookupLast(ms, 0, "title");
    LookupLast(ms, 1, "description");
    LookupLast(ms, 2, "modules");
  }

  /** The worked scenario: a click on "Introduction to Machine Learning" and a successful finish. */
  lemma MachineLearningScenario()
    ensures var s := Run(Initial, [Type("Introduction to Machine Learning"), Click, Finish(true)]);
      && s.course.Some?
      && s.course.value.title == "Introduction to Machine Learning Course"
      && |s.course.value.modules| == 3
      && s.course.value.level == "Intermediate"
      && !s.loading && s.error == ""
  {
    var p := "Introduction to Machine Learning";
    NotBlank(p);
    RunThree(Initial, Type(p), Click, Finish(true));
  }

  /** A topic whose first character is not white space is not blank. */
  lemma NotBlank(p: string)
    requires |p| > 0 && !Text.IsTrimmable(p[0])
    ensures !Text.IsBlank(p)
  {
    Text.BlankIff(p);
  }

  /** Running three events is stepping three times. */
  lemma RunThree(s: GeneratorState, a: Event, b: Event, c: Event)
    ensures Run(s, [a, b, c]) == Step(Step(Step(s, a), b), c)
  {
    var s1 := Step(s, a);
    var s2 := Step(s1, b);
    var s3 := Step(s2, c);
    assert [a, b, c][1..] == [b, c];
    assert [b, c][1..] == [c];
    assert [c][1..] == [];
    assert Run(s3, []) == s3;
    assert Run(s2, [c]) == Run(s3, []);
    assert Run(s1, [b, c]) == Run(s2, [c]);
  }

  /** A blank topic never starts a generation: no spinner, nothing in flight, only the error. */
  lemma BlankNeverStarts(s: GeneratorState)
    requires Consistent(s) && ButtonEnabled(s)
    requires forall i :: 0 <= i < |s.prompt| ==> Text.IsTrimmable(s.prompt[i])
    ensures var r := Step(s, Click); !r.loading && r.inFlight.None? && r.error == BlankTopicError
  {
    Text.BlankIff(s.prompt);
  }
}
