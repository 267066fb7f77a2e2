/** The top-level view coordinator: it holds the collection as last delivered, the
    record open in the detail view, the loading flag, the current view and the login
    form, and forwards user actions to the project store. */
module App {
  import opened Types
  import Storage
  import Navbar

  /** The shared password of the client-side admin gate. It is a plain string comparison
      in the browser and no access control. */
  const AdminPassword: string := "admin123"

  /** The position of the first record with the given id, or `|ps|` if none has it. */
  function FirstWithId(ps: seq<Project>, id: string): (i: nat)
    ensures i <= |ps|
    ensures forall j :: 0 <= j < i ==> ps[j].id != id
    ensures i < |ps| ==> ps[i].id == id
  {
    if ps == [] then 0
    else if ps[0].id == id then 0
    else 1 + FirstWithId(ps[1..], id)
  }

  /** `ps.find(p => p.id === id)`: the first record with the id, if any. */
  function FindById(ps: seq<Project>, id: string): (r: Option<Project>)
    ensures r.None? <==> forall j :: 0 <= j < |ps| ==> ps[j].id != id
    ensures r.Some? ==> r.value.id == id && r.value in ps
    ensures r.Some? ==> r.value == ps[FirstWithId(ps, id)]
  {
    var i := FirstWithId(ps, id);
    if i < |ps| then Some(ps[i]) else None
  }

  /** The open detail record after a snapshot: closed stays closed; an open record is
      replaced by the first delivered record with its id, or closed if the id is gone. */
  function Reconcile(prev: Option<Project>, updated: seq<Project>): (r: Option<Project>)
    ensures prev.None? ==> r.None?
    ensures prev.Some? ==> r == FindById(updated, prev.value.id)
  {
    match prev
    case None => None
    case Some(p) => FindById(updated, p.id)
  }

  /** The selection survives a snapshot exactly when the snapshot still holds its id, and
      then it shows the delivered version of that record. */
  lemma ReconcileKeepsIffPresent(prev: Project, updated: seq<Project>)
    ensures Reconcile(Some(prev), updated).Some? <==> exists i :: 0 <= i < |updated| && updated[i].id == prev.id
    ensures Reconcile(Some(prev), updated).Some? ==>
      Reconcile(Some(prev), updated).value.id == prev.id && Reconcile(Some(prev), updated).value in updated
  {
  }

  // ---------------------------------------------------------------------------
  // How the view changes

  /** The user actions that change the view: a navigation bar control, the login form's
      link back to the gallery, and a login submission with the password as typed. */
  datatype Event = Nav(control: Navbar.Control) | BackToHome | SubmitLogin(entered: string)

  function NextView(v: ViewState, e: Event): (w: ViewState)
    ensures w == AdminDashboard ==> v == AdminDashboard || e == SubmitLogin(AdminPassword)
  {
    match e
    case Nav(control) => Navbar.Target(v, control)
    case BackToHome => Home
    case SubmitLogin(entered) => if entered == AdminPassword then AdminDashboard else v
  }

  /** The view after a sequence of events. */
  function Run(v: ViewState, es: seq<Event>): (w: ViewState)
    decreases |es|
  {
    if es == [] then v else Run(NextView(v, es[0]), es[1..])
  }

  /** The dashboard is entered only through a correct password: any run that starts outside
      the dashboard and ends in it contains a submission of exactly the admin password. */
  lemma {:induction false} DashboardNeedsPassword(v: ViewState, es: seq<Event>)
    requires v != AdminDashboard && Run(v, es) == AdminDashboard
    ensures exists i :: 0 <= i < |es| && es[i] == SubmitLogin(AdminPassword)
    decreases |es|
  {
    if es[0] != SubmitLogin(AdminPassword) {
      DashboardNeedsPassword(NextView(v, es[0]), es[1..]);
      var i :| 0 <= i < |es[1..]| && es[1..][i] == SubmitLogin(AdminPassword);
      assert es[i + 1] == SubmitLogin(AdminPassword);
    }
  }

  // ---------------------------------------------------------------------------
  // The component state

  class AppState {
    var view: ViewState
    var projects: seq<Project>
    var selected: Option<Project>
    var loading: bool
    var password: string
    var loginError: bool

    /** The first render: the gallery, nothing delivered yet, still loading. */
    constructor ()
      ensures view == Home && projects == [] && selected == None && loading
      ensures password == "" && !loginError
    {
      view := Home;
      projects := [];
      selected := None;
      loading := true;
      password := "";
      loginError := false;
    }

    /** The subscription callback: take the delivered collection wholesale, stop loading
        and re-resolve the open detail record. */
    method OnSnapshot(updated: seq<Project>)
      modifies this
      ensures projects == updated && !loading
      ensures selected == Reconcile(old(selected), updated)
      ensures view == old(view) && password == old(password) && loginError == old(loginError)
    {
      projects := updated;
      loading := false;
      selected := Reconcile(selected, updated);
    }

    /** `onChangeView` as the navigation bar calls it. */
    method OnNavbar(control: Navbar.Control)
      modifies this
      ensures view == NextView(old(view), Nav(control))
      ensures projects == old(projects) && selected == old(selected) && loading == old(loading)
      ensures password == old(password) && loginError == old(loginError)
    {
      view := Navbar.Target(view, control);
    }

    /** The login form's link back to the gallery. */
    method OnBackToHome()
      modifies this
      ensures view == NextView(old(view), BackToHome)
      ensures projects == old(projects) && selected == old(selected) && loading == old(loading)
      ensures password == old(password) && loginError == old(loginError)
    {
      view := Home;
    }

    /** Typing in the password field. */
    method OnPasswordInput(value: string)
      modifies this
      ensures password == value
      ensures view == old(view) && projects == old(projects) && selected == old(selected)
      ensures loading == old(loading) && loginError == old(loginError)
    {
      password := value;
    }

    /** `handleAdminLogin`: an exact match opens the dashboard and clears the field; any
        other input only raises the error flag. */
    method HandleAdminLogin()
      modifies this
      ensures view == NextView(old(view), SubmitLogin(old(password)))
      ensures old(password) == AdminPassword ==> view == AdminDashboard && password == "" && !loginError
      ensures old(password) != AdminPassword ==> loginError && view == old(view) && password == old(password)
      ensures projects == old(projects) && selected == old(selected) && loading == old(loading)
    {
      if password == AdminPassword {
        view := AdminDashboard;
        password := "";
        loginError := false;
      } else {
        loginError := true;
      }
    }

    /** Clicking a card in the gallery opens its detail view. */
    method OpenDetail(p: Project)
      modifies this
      ensures selected == Some(p)
      ensures view == old(view) && projects == old(projects) && loading == old(loading)
      ensures password == old(password) && loginError == old(loginError)
    {
      selected := Some(p);
    }

    /** The detail view's close control. */
    method CloseDetail()
      modifies this
      ensures selected == None
      ensures view == old(view) && projects == old(projects) && loading == old(loading)
      ensures password == old(password) && loginError == old(loginError)
    {
      selected := None;
    }

    /** `handleLike`: forwards to the store; the local collection waits for the next snapshot. */
    method HandleLike(store: Storage.ProjectStore, id: string)
      requires store.Valid()
      modifies store
      ensures store.Valid() && store.records == Storage.Like(old(store.records), id)
      ensures unchanged(this)
    {
      var listing := store.ToggleLikeProject(id);
    }

    /** `handleComment`: forwards to the store. */
    method HandleComment(store: Storage.ProjectStore, id: string, comment: Comment)
      requires store.Valid()
      modifies store
      ensures store.Valid() && store.records == Storage.Prepend(old(store.records), id, comment)
      ensures unchanged(this)
    {
      var listing := store.AddCommentToProject(id, comment);
    }

    /** `handleAddProject`: forwards to the store. */
    method HandleAddProject(store: Storage.ProjectStore, project: Project)
      requires store.Valid()
      modifies store
      ensures store.Valid() && store.records == Storage.Upsert(old(store.records), project)
      ensures unchanged(this)
    {
      var listing := store.SaveProject(project);
    }

    /** `handleDeleteProject`: deletes only when the user confirmed the dialog. */
    method HandleDeleteProject(store: Storage.ProjectStore, id: string, confirmed: bool)
      requires store.Valid()
      modifies store
      ensures store.Valid()
      ensures confirmed ==> store.records == Storage.Remove(old(store.records), id)
      ensures !confirmed ==> store.records == old(store.records)
      ensures unchanged(this)
    {
      if confirmed {
        var listing := store.DeleteProject(id);
      }
    }
  }
}
