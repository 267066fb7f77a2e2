/** The admin dashboard: the summary figures over the delivered collection, and the
    "new project" form with its image picker and its save cycle. */
module AdminDashboard {
  import opened Types
  import Text
  import Storage

  // ---------------------------------------------------------------------------
  // Summary figures

  function Likes(p: Project): (n: int)
  {
    p.likes
  }

  function CommentCount(p: Project): (n: int)
  {
    |p.comments|
  }

  /** `ps.reduce((acc, curr) => acc + f(curr), acc)`: a left fold. */
  function SumFrom(acc: int, ps: seq<Project>, f: Project -> int): (r: int)
    decreases |ps|
  {
    if ps == [] then acc else SumFrom(acc + f(ps[0]), ps[1..], f)
  }

  /** The "projects" figure: zero exactly when nothing is listed. */
  function ProjectCount(ps: seq<Project>): (n: nat)
    ensures n == 0 <==> ps == []
  {
    |ps|
  }

  /** The "likes" figure: with no negative counts it is never negative and is at least the
      count of each single project. */
  function TotalLikes(ps: seq<Project>): (t: int)
    ensures (forall i :: 0 <= i < |ps| ==> ps[i].likes >= 0) ==>
      t >= 0 && forall i :: 0 <= i < |ps| ==> ps[i].likes <= t
  {
    SumOfNonNegative(ps, Likes);
    SumFrom(0, ps, Likes)
  }

  /** The "comments" figure: never negative and at least the comment count of each
      single project. */
  function TotalComments(ps: seq<Project>): (t: int)
    ensures t >= 0
    ensures forall i :: 0 <= i < |ps| ==> |ps[i].comments| <= t
  {
    SumOfNonNegative(ps, CommentCount);
    SumFrom(0, ps, CommentCount)
  }

  /** On a listing of the store, the "projects" figure is the number of stored records. */
  lemma ProjectCountIsStoredCount(s: seq<Project>, m: Storage.Records)
    requires Storage.WellKeyed(m) && Storage.IsListing(s, m)
    ensures ProjectCount(s) == |m|
  {
    Storage.ListingCount(s, m);
  }

  /** The starting value of the fold only shifts its result. */
  lemma {:induction false} SumFromShift(acc: int, ps: seq<Project>, f: Project -> int)
    ensures SumFrom(acc, ps, f) == acc + SumFrom(0, ps, f)
    decreases |ps|
  {
    if ps != [] {
      SumFromShift(acc + f(ps[0]), ps[1..], f);
      SumFromShift(f(ps[0]), ps[1..], f);
    }
  }

  /** The fold over two halves adds up. */
  lemma {:induction false} SumAppend(a: seq<Project>, b: seq<Project>, f: Project -> int)
    ensures SumFrom(0, a + b, f) == SumFrom(0, a, f) + SumFrom(0, b, f)
    decreases |a|
  {
    if a == [] {
      assert a + b == b;
    } else {
      assert (a + b)[1..] == a[1..] + b;
      SumAppend(a[1..], b, f);
      SumFromShift(f(a[0]), a[1..] + b, f);
      SumFromShift(f(a[0]), a[1..], f);
    }
  }

  /** Replacing one element changes the fold by the difference of the two values. */
  lemma SumReplace(ps: seq<Project>, i: int, q: Project, f: Project -> int)
    requires 0 <= i < |ps|
    ensures SumFrom(0, ps[i := q], f) == SumFrom(0, ps, f) - f(ps[i]) + f(q)
  {
    var pre, post := ps[..i], ps[i + 1..];
    assert ps == pre + ([ps[i]] + post);
    assert ps[i := q] == pre + ([q] + post);
    SumAppend(pre, [ps[i]] + post, f);
    SumAppend(pre, [q] + post, f);
    SumAppend([ps[i]], post, f);
    SumAppend([q], post, f);
  }

  /** The like total counts every like of every listed project: one more like on any one
      of them raises it by exactly one. */
  lemma TotalLikesAfterLike(ps: seq<Project>, i: int)
    requires 0 <= i < |ps|
    ensures TotalLikes(ps[i := ps[i].(likes := ps[i].likes + 1)]) == TotalLikes(ps) + 1
  {
    SumReplace(ps, i, ps[i].(likes := ps[i].likes + 1), Likes);
  }

  /** The comment total counts every comment: one more comment on any project raises it
      by exactly one. */
  lemma TotalCommentsAfterComment(ps: seq<Project>, i: int, c: Comment)
    requires 0 <= i < |ps|
    ensures TotalComments(ps[i := ps[i].(comments := [c] + ps[i].comments)]) == TotalComments(ps) + 1
  {
    SumReplace(ps, i, ps[i].(comments := [c] + ps[i].comments), CommentCount);
  }

  /** A fold of values that are never negative is never negative and bounds each of its
      terms. */
  lemma {:induction false} SumOfNonNegative(ps: seq<Project>, f: Project -> int)
    ensures (forall i :: 0 <= i < |ps| ==> f(ps[i]) >= 0) ==>
      SumFrom(0, ps, f) >= 0 && forall i :: 0 <= i < |ps| ==> f(ps[i]) <= SumFrom(0, ps, f)
    decreases |ps|
  {
    if ps != [] && forall i :: 0 <= i < |ps| ==> f(ps[i]) >= 0 {
      var rest := ps[1..];
      assert forall i :: 0 <= i < |rest| ==> f(rest[i]) >= 0 by {
        assert forall i :: 0 <= i < |rest| ==> rest[i] == ps[i + 1];
      }
      SumOfNonNegative(rest, f);
      SumFromShift(f(ps[0]), rest, f);
      forall i | 0 < i < |ps|
        ensures f(ps[i]) <= SumFrom(0, ps, f)
      {
        assert ps[i] == rest[i - 1];
      }
    }
  }

  // ---------------------------------------------------------------------------
  // The new project form

  datatype FormData = FormData(title: string, description: string, imageUrl: string, category: string)

  /** The form as first shown and as reset after a successful save. */
  const EmptyForm: FormData := FormData("", "", "", "General")

  /** The largest image file the picker accepts: 10 MiB. */
  const MaxFileSize: nat := 10 * 1024 * 1024

  const PlaceholderPrefix: string := "https://picsum.photos/800/800?random="

  /** The stand-in image for a project saved without one. */
  function PlaceholderUrl(clock: int): (url: string)
    ensures |PlaceholderPrefix| <= |url| && url[..|PlaceholderPrefix|] == PlaceholderPrefix
    ensures url[|PlaceholderPrefix|..] == Text.IntToDecimal(clock)
    ensures Text.CanonicalDecimal(url[|PlaceholderPrefix|..])
    ensures Text.ParseDecimal(url[|PlaceholderPrefix|..]) == Some(clock)
    ensures !StartsWith(url, "data:")
  {
    Text.DecimalRoundTrip(clock);
    var url := PlaceholderPrefix + Text.IntToDecimal(clock);
    assert url[|PlaceholderPrefix|..] == Text.IntToDecimal(clock);
    assert url[0] == 'h';
    url
  }

  /** The project a submission builds. Three separate clock readings give the id, the
      placeholder image and the timestamp. */
  function NewProject(form: FormData, idClock: int, urlClock: int, tsClock: int): (p: Project)
    ensures p.likes == 0 && p.comments == [] && p.downloadUrl == None
    ensures p.title == form.title && p.description == form.description && p.category == form.category
    ensures p.id == Text.IntToDecimal(idClock) && Text.CanonicalDecimal(p.id)
    ensures Text.ParseDecimal(p.id) == Some(idClock) && p.timestamp == tsClock
    ensures form.imageUrl != "" ==> p.imageUrl == form.imageUrl
    ensures form.imageUrl == "" ==> p.imageUrl == PlaceholderUrl(urlClock)
  {
    Text.DecimalRoundTrip(idClock);
    Project(
      Text.IntToDecimal(idClock), form.title, form.description,
      if form.imageUrl != "" then form.imageUrl else PlaceholderUrl(urlClock),
      None, 0, [], tsClock, form.category)
  }

  /** The size guard compares strictly: a file of exactly 10 MiB is accepted. */
  function FileAccepted(size: nat): (ok: bool)
    ensures ok <==> size <= 10485760
  {
    !(size > MaxFileSize)
  }

  lemma FileLimitBoundary()
    ensures FileAccepted(10485760) && !FileAccepted(10485761)
  {
  }

  function StartsWith(s: string, prefix: string): (b: bool)
  {
    |prefix| <= |s| && s[..|prefix|] == prefix
  }

  /** The URL field shows the form's image unless it is an embedded data URL, which it
      hides. */
  function UrlFieldValue(imageUrl: string): (shown: string)
    ensures StartsWith(imageUrl, "data:") ==> shown == ""
    ensures !StartsWith(imageUrl, "data:") ==> shown == imageUrl
  {
    if StartsWith(imageUrl, "data:") then "" else imageUrl
  }

  class Dashboard {
    var isFormOpen: bool
    var isSaving: bool
    var formData: FormData

    constructor ()
      ensures !isFormOpen && !isSaving && formData == EmptyForm
    {
      isFormOpen := false;
      isSaving := false;
      formData := EmptyForm;
    }

    /** The "add project" button. */
    method OpenForm()
      modifies this
      ensures isFormOpen && isSaving == old(isSaving) && formData == old(formData)
    {
      isFormOpen := true;
    }

    /** The close and cancel buttons; the entered data stay. */
    method CloseForm()
      modifies this
      ensures !isFormOpen && isSaving == old(isSaving) && formData == old(formData)
    {
      isFormOpen := false;
    }

    /** Typing in one of the fields, picking a category, or removing the preview image
        (which sets the image to ""). */
    method EditForm(form: FormData)
      modifies this
      ensures formData == form && isFormOpen == old(isFormOpen) && isSaving == old(isSaving)
    {
      formData := form;
    }

    /** `handleSubmit` up to the awaited `onAdd`: mark the save in flight and build the
        project handed to `onAdd`; the form is not touched yet. */
    method BeginSubmit(idClock: int, urlClock: int, tsClock: int) returns (project: Project)
      modifies this
      ensures isSaving
      ensures project == NewProject(old(formData), idClock, urlClock, tsClock)
      ensures isFormOpen == old(isFormOpen) && formData == old(formData)
    {
      isSaving := true;
      project := NewProject(formData, idClock, urlClock, tsClock);
    }

    /** The rest of `handleSubmit` once `onAdd` settles: on success close and reset the
        form; on failure keep it open with its data; in both cases the save is over. */
    method FinishSubmit(saved: bool)
      modifies this
      ensures !isSaving
      ensures saved ==> !isFormOpen && formData == EmptyForm
      ensures !saved ==> isFormOpen == old(isFormOpen) && formData == old(formData)
    {
      if saved {
        isFormOpen := false;
        formData := EmptyForm;
      }
      isSaving := false;
    }

    /** `handleFileChange`: with no file or a file over the limit nothing changes (an
        oversized file only raises an alert). An accepted file starts a read; the read's
        completion handler holds the form as it is now, which is returned. */
    method HandleFileChange(fileSize: Option<nat>) returns (reading: Option<FormData>)
      ensures reading.Some? <==> fileSize.Some? && FileAccepted(fileSize.value)
      ensures reading.Some? ==> reading.value == formData
    {
      if fileSize.Some? && !(fileSize.value > MaxFileSize) {
        reading := Some(formData);
      } else {
        reading := None;
      }
    }

    /** The read's completion handler: the form it captured, with the image replaced by the
        file's data URL. Edits made while the file was being read are dropped. */
    method OnFileRead(captured: FormData, dataUrl: string)
      modifies this
      ensures formData == captured.(imageUrl := dataUrl)
      ensures isFormOpen == old(isFormOpen) && isSaving == old(isSaving)
    {
      formData := captured.(imageUrl := dataUrl);
    }
  }
}
