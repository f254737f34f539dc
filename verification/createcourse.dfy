/**
  The course creation form (`CreateCourse.js`): editing the top-level
  fields, editing, adding and removing modules, and the rule that the delete
  button of the last remaining module is disabled.
 */
module CreateCourse {
  import opened Wrappers

  datatype ModuleForm = ModuleForm(title: string, content: string, duration: string)

  /** The form state; every input holds the text the user typed. */
  datatype CourseForm = CourseForm(
    title: string,
    description: string,
    category: string,
    level: string,
    price: string,
    modules: seq<ModuleForm>)

  const BlankModule := ModuleForm("", "", "")

  /** The initial form: empty fields and one blank module. */
  const InitialForm := CourseForm("", "", "", "", "", [BlankModule])

  /** The top-level inputs, by their `name` attribute. */
  datatype FormField = Title | Description | Category | Level | Price

  /** The inputs of one module, by their `name` attribute. */
  datatype ModuleField = ModuleTitle | ModuleContent | ModuleDuration

  function FieldValue(f: CourseForm, k: FormField): string
  {
    match k
    case Title => f.title
    case Description => f.description
    case Category => f.category
    case Level => f.level
    case Price => f.price
  }

  function ModuleValue(m: ModuleForm, k: ModuleField): string
  {
    match k
    case ModuleTitle => m.title
    case ModuleContent => m.content
    case ModuleDuration => m.duration
  }

  /** `handleChange`: the named field takes the value; every other field and the modules are kept. */
  function HandleChange(f: CourseForm, k: FormField, v: string): (r: CourseForm)
    ensures FieldValue(r, k) == v
    ensures forall k' :: k' != k ==> FieldValue(r, k') == FieldValue(f, k')
    ensures r.modules == f.modules
  {
    match k
    case Title => f.(title := v)
    case Description => f.(description := v)
    case Category => f.(category := v)
    case Level => f.(level := v)
    case Price => f.(price := v)
  }

  function SetModuleField(m: ModuleForm, k: ModuleField, v: string): (r: ModuleForm)
    ensures ModuleValue(r, k) == v
    ensures forall k' :: k' != k ==> ModuleValue(r, k') == ModuleValue(m, k')
  {
    match k
    case ModuleTitle => m.(title := v)
    case ModuleContent => m.(content := v)
    case ModuleDuration => m.(duration := v)
  }

  /**
    `handleModuleChange(index, e)`: the named field of the module at `index`
    takes the value; the other modules and the top-level fields are kept. An
    index with no module behind it makes the assignment throw a `TypeError`,
    modelled as `None`.
   */
  function HandleModuleChange(f: CourseForm, index: int, k: ModuleField, v: string): (r: Option<CourseForm>)
    ensures r.Some? <==> 0 <= index < |f.modules|
    ensures r.Some? ==>
      && |r.value.modules| == |f.modules|
      && ModuleValue(r.value.modules[index], k) == v
      && (forall k' :: k' != k ==> ModuleValue(r.value.modules[index], k') == ModuleValue(f.modules[index], k'))
      && (forall j :: 0 <= j < |f.modules| && j != index ==> r.value.modules[j] == f.modules[j])
      && (forall k' :: FieldValue(r.value, k') == FieldValue(f, k'))
  {
    if 0 <= index < |f.modules| then
      Some(f.(modules := f.modules[index := SetModuleField(f.modules[index], k, v)]))
    else None
  }

  /** `addModule`: one blank module is appended; everything else is kept. */
  function AddModule(f: CourseForm): (r: CourseForm)
    ensures |r.modules| == |f.modules| + 1
    ensures r.modules[..|f.modules|] == f.modules && r.modules[|f.modules|] == BlankModule
    ensures forall k :: FieldValue(r, k) == FieldValue(f, k)
  {
    f.(modules := f.modules + [BlankModule])
  }

  /** `modules.filter((_, i) => i !== index)`: drops the element at `index`, if there is one. */
  function RemoveAt<T>(s: seq<T>, index: int): (r: seq<T>)
    ensures 0 <= index < |s| ==>
      && |r| == |s| - 1
      && (forall j :: 0 <= j < index ==> r[j] == s[j])
      && (forall j :: index <= j < |r| ==> r[j] == s[j + 1])
    ensures !(0 <= index < |s|) ==> r == s
  {
    if 0 <= index < |s| then s[..index] + s[index + 1..] else s
  }

  /**
    `removeModule(index)`: the module at `index` is removed and the others keep
    their order; an index with no module leaves the list as it is.
   */
  function RemoveModule(f: CourseForm, index: int): (r: CourseForm)
    ensures r.modules == RemoveAt(f.modules, index)
    ensures forall k :: FieldValue(r, k) == FieldValue(f, k)
  {
    f.(modules := RemoveAt(f.modules, index))
  }

  /** Removing the module just added restores the form. */
  lemma RemoveUndoesAdd(f: CourseForm)
    ensures RemoveModule(AddModule(f), |f.modules|) == f
  {
    var m := AddModule(f).modules;
    assert RemoveAt(m, |f.modules|) == f.modules;
  }

  /** Changing a module field to the value it already holds leaves the form as it is. */
  lemma ModuleChangeToSameValue(f: CourseForm, index: int, k: ModuleField)
    requires 0 <= index < |f.modules|
    ensures HandleModuleChange(f, index, k, ModuleValue(f.modules[index], k)) == Some(f)
  {
    var m := f.modules[index];
    var m' := SetModuleField(m, k, ModuleValue(m, k));
    assert m' == m by {
      assert ModuleValue(m', ModuleTitle) == ModuleValue(m, ModuleTitle);
      assert ModuleValue(m', ModuleContent) == ModuleValue(m, ModuleContent);
      assert ModuleValue(m', ModuleDuration) == ModuleValue(m, ModuleDuration);
    }
    assert f.modules[index := m] == f.modules;
  }

  /** What the user can do on the rendered form. */
  datatype UiAction =
    | Change(field: FormField, value: string)
    | EditModule(index: int, moduleField: ModuleField, value: string)
    | Add
    | Remove(index: int)

  /**
    The rendered form offers module inputs and delete buttons only for
    existing modules, and the delete button is disabled while one module
    remains.
   */
  predicate Enabled(f: CourseForm, a: UiAction)
  {
    match a
    case EditModule(i, _, _) => 0 <= i < |f.modules|
    case Remove(i) => 0 <= i < |f.modules| && |f.modules| != 1
    case _ => true
  }

  /** One user action; a disabled control does nothing. */
  function Apply(f: CourseForm, a: UiAction): (r: CourseForm)
    ensures !Enabled(f, a) ==> r == f
  {
    if !Enabled(f, a) then f
    else match a
      case Change(k, v) => HandleChange(f, k, v)
      case EditModule(i, k, v) => HandleModuleChange(f, i, k, v).GetOr(f)
      case Add => AddModule(f)
      case Remove(i) => RemoveModule(f, i)
  }

  function ApplyAll(f: CourseForm, actions: seq<UiAction>): CourseForm
    decreases |actions|
  {
    if |actions| == 0 then f else ApplyAll(Apply(f, actions[0]), actions[1..])
  }

  /** No enabled action empties a non-empty module list. */
  lemma ApplyKeepsAModule(f: CourseForm, a: UiAction)
    requires |f.modules| >= 1
    ensures |Apply(f, a).modules| >= 1
  {
  }

  /** Whatever the user does through the form, at least one module remains. */
  lemma {:induction false} NeverEmpty(f: CourseForm, actions: seq<UiAction>)
    requires |f.modules| >= 1
    ensures |ApplyAll(f, actions).modules| >= 1
    decreases |actions|
  {
    if |actions| > 0 {
      ApplyKeepsAModule(f, actions[0]);
      NeverEmpty(Apply(f, actions[0]), actions[1..]);
    }
  }

  /** In particular, starting from the initial form the module list is never empty. */
  lemma InitialNeverEmpty(actions: seq<UiAction>)
    ensures |ApplyAll(InitialForm, actions).modules| >= 1
  {
    NeverEmpty(InitialForm, actions);
  }
}
