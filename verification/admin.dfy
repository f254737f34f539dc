/**
  The admin session: the reducers of `adminSlice.js`, the three-way gate of
  `AdminRoute.js` and the submit rule of `AdminLogin.js`.
 */
module AdminSlice {
  import opened Wrappers

  const AdminEmail := "admin@gmail.com"
  const AdminPassword := "123456778"
  const InvalidCredentials := "Invalid admin credentials"

  datatype AdminState = AdminState(isAdmin: bool, adminEmail: Option<string>, loading: bool, error: Option<string>)

  const Initial := AdminState(false, None, false, None)

  /** The actions the slice handles. */
  datatype Action = Login(email: string, password: string) | Logout | ClearError

  /** The credential check: both strings equal the built-in pair exactly. */
  predicate IsAdminPair(email: string, password: string)
  {
    email == AdminEmail && password == AdminPassword
  }

  /**
    `adminLogin`: the built-in pair opens the session under that email; any
    other pair only sets the error, so an existing session survives.
   */
  function AdminLogin(s: AdminState, email: string, password: string): (r: AdminState)
    ensures r.loading == s.loading
    ensures IsAdminPair(email, password) ==> r.isAdmin && r.adminEmail == Some(AdminEmail) && r.error.None?
    ensures !IsAdminPair(email, password) ==>
      r.error == Some(InvalidCredentials) && r.isAdmin == s.isAdmin && r.adminEmail == s.adminEmail
  {
    if IsAdminPair(email, password) then s.(isAdmin := true, adminEmail := Some(email), error := None)
    else s.(error := Some(InvalidCredentials))
  }

  /** `adminLogout`: closes the session and clears the error. */
  function AdminLogout(s: AdminState): (r: AdminState)
    ensures !r.isAdmin && r.adminEmail.None? && r.error.None? && r.loading == s.loading
  {
    s.(isAdmin := false, adminEmail := None, error := None)
  }

  /** `clearAdminError`: clears the error and nothing else. */
  function ClearAdminError(s: AdminState): (r: AdminState)
    ensures r.error.None?
    ensures r.isAdmin == s.isAdmin && r.adminEmail == s.adminEmail && r.loading == s.loading
  {
    s.(error := None)
  }

  /** One dispatched action; only a successful login opens the session and only logout closes it. */
  function Reduce(s: AdminState, a: Action): (r: AdminState)
    ensures r.loading == s.loading
    ensures r.isAdmin <==> (a.Login? && IsAdminPair(a.email, a.password)) || (s.isAdmin && !a.Logout?)
  {
    match a
    case Login(e, p) => AdminLogin(s, e, p)
    case Logout => AdminLogout(s)
    case ClearError => ClearAdminError(s)
  }

  function ReduceAll(s: AdminState, actions: seq<Action>): AdminState
    decreases |actions|
  {
    if |actions| == 0 then s else ReduceAll(Reduce(s, actions[0]), actions[1..])
  }

  /**
    The session invariant: the email is present exactly when the session is
    open and is then the built-in admin email; nothing ever sets `loading`.
   */
  predicate SessionInvariant(s: AdminState)
  {
    s.adminEmail == (if s.isAdmin then Some(AdminEmail) else None) && !s.loading
  }

  /** Every reducer preserves the session invariant. */
  lemma ReducePreserves(s: AdminState, a: Action)
    requires SessionInvariant(s)
    ensures SessionInvariant(Reduce(s, a))
  {
  }

  /** Every state reachable from the initial state satisfies the session invariant. */
  lemma {:induction false} ReachableInvariant(s: AdminState, actions: seq<Action>)
    requires SessionInvariant(s)
    ensures SessionInvariant(ReduceAll(s, actions))
    decreases |actions|
  {
    if |actions| > 0 {
      ReducePreserves(s, actions[0]);
      ReachableInvariant(Reduce(s, actions[0]), actions[1..]);
    }
  }

  /** After a logout nothing of the session is left: the state is the initial one, up to `loading`. */
  lemma LogoutForgetsEverything(s: AdminState)
    ensures AdminLogout(s) == Initial.(loading := s.loading)
  {
  }

  /** A failed login after a successful one keeps the session open. */
  lemma FailedLoginKeepsSession(s: AdminState, email: string, password: string)
    requires !IsAdminPair(email, password)
    ensures var r := AdminLogin(AdminLogin(s, AdminEmail, AdminPassword), email, password);
      r.isAdmin && r.adminEmail == Some(AdminEmail) && r.error == Some(InvalidCredentials)
  {
  }
}

module AdminRoute {
  import opened Wrappers
  import AdminSlice

  /** What the guarded route renders. */
  datatype Outcome = Spinner | RedirectToLogin | Children

  /** The path an unauthenticated visitor is sent to. */
  const LoginPath := "/admin/login"

  /** The gate: loading shows the spinner, otherwise a non-admin is redirected and an admin sees the page. */
  function Gate(isAdmin: bool, loading: bool): (o: Outcome)
    ensures o == Spinner <==> loading
    ensures o == RedirectToLogin <==> !loading && !isAdmin
    ensures o == Children <==> !loading && isAdmin
  {
    if loading then Spinner
    else if !isAdmin then RedirectToLogin
    else Children
  }

  /**
    With the slice driving the gate, the spinner never shows, and the page is
    rendered exactly when the session is open.
   */
  lemma GateOverReachableStates(actions: seq<AdminSlice.Action>)
    ensures var s := AdminSlice.ReduceAll(AdminSlice.Initial, actions);
      && Gate(s.isAdmin, s.loading) != Spinner
      && (Gate(s.isAdmin, s.loading) == Children <==> s.adminEmail == Some(AdminSlice.AdminEmail))
  {
    AdminSlice.ReachableInvariant(AdminSlice.Initial, actions);
  }
}

module AdminLogin {
  import opened Wrappers
  import AdminSlice

  const DashboardPath := "/admin/dashboard"

  datatype LoginForm = LoginForm(email: string, password: string)

  /** The two inputs of the form, by their `name` attribute. */
  datatype Field = Email | Password

  const EmptyForm := LoginForm("", "")

  /** JavaScript truthiness of the slice's error. */
  predicate ErrorShown(error: Option<string>)
  {
    error.Some? && error.value != ""
  }

  /**
    `handleChange`: the named input takes the new value, the other keeps its
    own, and a shown error is cleared through `clearAdminError`.
   */
  function HandleChange(form: LoginForm, s: AdminSlice.AdminState, field: Field, value: string): (r: (LoginForm, AdminSlice.AdminState))
    ensures field == Email ==> r.0 == LoginForm(value, form.password)
    ensures field == Password ==> r.0 == LoginForm(form.email, value)
    ensures ErrorShown(s.error) ==> r.1 == AdminSlice.ClearAdminError(s)
    ensures !ErrorShown(s.error) ==> r.1 == s
    ensures !ErrorShown(r.1.error)
  {
    var f := match field
      case Email => form.(email := value)
      case Password => form.(password := value);
    (f, if ErrorShown(s.error) then AdminSlice.ClearAdminError(s) else s)
  }

  /**
    `handleSubmit`: always dispatches `adminLogin` with the form, and navigates
    to the dashboard exactly when the form holds the built-in pair.
   */
  function HandleSubmit(form: LoginForm, s: AdminSlice.AdminState): (r: (AdminSlice.AdminState, Option<string>))
    ensures r.0 == AdminSlice.AdminLogin(s, form.email, form.password)
    ensures r.1 == Some(DashboardPath) <==> form.email == AdminSlice.AdminEmail && form.password == AdminSlice.AdminPassword
    ensures r.1.Some? ==> r.1 == Some(DashboardPath)
  {
    var next := AdminSlice.AdminLogin(s, form.email, form.password);
    if form.email == AdminSlice.AdminEmail && form.password == AdminSlice.AdminPassword then (next, Some(DashboardPath))
    else (next, None)
  }

  /**
    The navigation rule agrees with the reducer: a navigation always lands in
    an open session, and a submit that opens a session that was closed always
    navigates.
   */
  lemma NavigationMatchesSession(form: LoginForm, s: AdminSlice.AdminState)
    ensures var r := HandleSubmit(form, s);
      && (r.1.Some? ==> r.0.isAdmin && r.0.error.None?)
      && (!s.isAdmin && r.0.isAdmin ==> r.1 == Some(DashboardPath))
  {
  }
}
