/** Entity types of the portfolio showcase: comments, projects and the three view states. */
module Types {

  datatype Option<+T> = None | Some(value: T)

  /** A visitor's comment. It has no life of its own: it exists only inside the
      comment list of the project it was posted on. */
  datatype Comment = Comment(id: string, author: string, text: string, timestamp: int)

  /** A portfolio entry. Every field is always present except `downloadUrl`, which is
      optional. `comments` is an ordered list held by value, so no two projects share one. */
  datatype Project = Project(
    id: string,
    title: string,
    description: string,
    imageUrl: string,
    downloadUrl: Option<string>,
    likes: int,
    comments: seq<Comment>,
    timestamp: int,
    category: string)

  /** The screens of the application: the gallery, the password gate and the admin dashboard. */
  datatype ViewState = Home | AdminLogin | AdminDashboard

  /** The string literal that stands for each view state in the source's union type. */
  function ViewName(v: ViewState): (s: string)
    ensures s == "HOME" || s == "ADMIN_LOGIN" || s == "ADMIN_DASHBOARD"
  {
    match v
    case Home => "HOME"
    case AdminLogin => "ADMIN_LOGIN"
    case AdminDashboard => "ADMIN_DASHBOARD"
  }

  /** Reads a string as a view state; only the three literals of the union are view states. */
  function ParseView(s: string): (r: Option<ViewState>)
    ensures r.Some? <==> s == "HOME" || s == "ADMIN_LOGIN" || s == "ADMIN_DASHBOARD"
  {
    if s == "HOME" then Some(Home)
    else if s == "ADMIN_LOGIN" then Some(AdminLogin)
    else if s == "ADMIN_DASHBOARD" then Some(AdminDashboard)
    else None
  }

  /** The union has exactly three members: names and view states are in one-to-one correspondence. */
  lemma ViewNameRoundTrip(v: ViewState, s: string)
    ensures ParseView(ViewName(v)) == Some(v)
    ensures ParseView(s) == Some(v) ==> s == ViewName(v)
  {
  }
}
