/** The detail view of one project: a one-shot like button, the displayed like count,
    the download link and the comment form. Each opening of the view is one instance;
    while it stays open, the App hands it the newest version of its record. */
module ProjectModal {
  import opened Types
  import Text
  import Storage

  /** The count shown on the like button: the record's count, plus one once liked here. */
  function DisplayedLikes(p: Project, isLiked: bool): (n: int)
    ensures isLiked ==> n == p.likes + 1
    ensures !isLiked ==> n == p.likes
  {
    p.likes + (if isLiked then 1 else 0)
  }

  /** The download link: `downloadUrl || imageUrl`, so an absent or empty `downloadUrl`
      falls back to the image. */
  function DownloadTarget(p: Project): (url: string)
    ensures p.downloadUrl.Some? && p.downloadUrl.value != "" ==> url == p.downloadUrl.value
    ensures p.downloadUrl.None? || p.downloadUrl.value == "" ==> url == p.imageUrl
  {
    match p.downloadUrl
    case Some(u) => if u != "" then u else p.imageUrl
    case None => p.imageUrl
  }

  /** The submit guard: both fields must keep some character after trimming, that is,
      each must have a character that is not white space. */
  function CanSubmit(authorName: string, commentText: string): (ok: bool)
    ensures ok <==>
      (exists i :: 0 <= i < |commentText| && !Text.IsTrimmable(commentText[i])) &&
      (exists j :: 0 <= j < |authorName| && !Text.IsTrimmable(authorName[j]))
  {
    Text.TrimEmptyIffBlank(commentText);
    Text.TrimEmptyIffBlank(authorName);
    Text.Trim(commentText) != [] && Text.Trim(authorName) != []
  }

  /** The comment a submission sends: name and text as typed, untrimmed; the id is the
      decimal form of one clock reading and the timestamp is a second reading. */
  function BuildComment(authorName: string, commentText: string, idClock: int, tsClock: int): (c: Comment)
    ensures c.author == authorName && c.text == commentText && c.timestamp == tsClock
    ensures c.id == Text.IntToDecimal(idClock) && Text.CanonicalDecimal(c.id)
    ensures Text.ParseDecimal(c.id) == Some(idClock)
  {
    Text.DecimalRoundTrip(idClock);
    Comment(Text.IntToDecimal(idClock), authorName, commentText, tsClock)
  }

  /** Two submissions at different clock readings get different comment ids. */
  lemma CommentIdsDistinct(a1: string, t1: string, c1: int, s1: int, a2: string, t2: string, c2: int, s2: int)
    requires c1 != c2
    ensures BuildComment(a1, t1, c1, s1).id != BuildComment(a2, t2, c2, s2).id
  {
    var x := BuildComment(a1, t1, c1, s1);
    var y := BuildComment(a2, t2, c2, s2);
    assert Text.ParseDecimal(x.id) != Text.ParseDecimal(y.id);
  }

  /** After a like has been stored and the refreshed record reaches an instance that was
      liked, the button shows the stored count plus one more: the local increment is
      added on top of a count that already includes it. */
  lemma RefreshedLikeCountedTwice(m: Storage.Records, id: string)
    requires id in m
    ensures Storage.Like(m, id)[id].likes == m[id].likes + 1
    ensures DisplayedLikes(Storage.Like(m, id)[id], true) == m[id].likes + 2
  {
  }

  class Modal {
    /** The record shown (a property the App passes in). */
    var project: Project
    var commentText: string
    var authorName: string
    var isLiked: bool
    /** How many times this instance has called `onLike`. */
    ghost var likeCalls: nat

    ghost predicate Valid()
      reads this
    {
      likeCalls == if isLiked then 1 else 0
    }

    /** A fresh instance: empty fields, not yet liked. */
    constructor (p: Project)
      ensures Valid() && project == p
      ensures commentText == "" && authorName == "" && !isLiked && likeCalls == 0
    {
      project := p;
      commentText := "";
      authorName := "";
      isLiked := false;
      likeCalls := 0;
    }

    /** The count on the like button. */
    function ShownLikes(): (n: int)
      reads this
      ensures isLiked ==> n == project.likes + 1
      ensures !isLiked ==> n == project.likes
    {
      DisplayedLikes(project, isLiked)
    }

    /** `handleLike`: the first click calls `onLike` with the project id and marks the
        instance as liked, whatever becomes of the call; later clicks do nothing. The
        returned value is the call made, if any. */
    method HandleLike() returns (call: Option<string>)
      requires Valid()
      modifies this
      ensures Valid() && isLiked && likeCalls <= 1
      ensures call == if old(isLiked) then None else Some(project.id)
      ensures likeCalls == old(likeCalls) + (if old(isLiked) then 0 else 1)
      ensures ShownLikes() == project.likes + 1
      ensures project == old(project) && commentText == old(commentText) && authorName == old(authorName)
    {
      if !isLiked {
        call := Some(project.id);
        isLiked := true;
        likeCalls := likeCalls + 1;
      } else {
        call := None;
      }
    }

    /** The App re-renders the open instance with the newest version of its record; the
        instance keeps its own state. */
    method Refresh(p: Project)
      requires Valid()
      modifies this
      ensures Valid() && project == p
      ensures isLiked == old(isLiked) && likeCalls == old(likeCalls)
      ensures commentText == old(commentText) && authorName == old(authorName)
    {
      project := p;
    }

    method OnAuthorInput(value: string)
      requires Valid()
      modifies this
      ensures Valid() && authorName == value
      ensures project == old(project) && commentText == old(commentText)
      ensures isLiked == old(isLiked) && likeCalls == old(likeCalls)
    {
      authorName := value;
    }

    method OnCommentInput(value: string)
      requires Valid()
      modifies this
      ensures Valid() && commentText == value
      ensures project == old(project) && authorName == old(authorName)
      ensures isLiked == old(isLiked) && likeCalls == old(likeCalls)
    {
      commentText := value;
    }

    /** `handleSubmitComment`: with a blank field nothing happens; otherwise the comment is
        sent to `onComment` for this project and both fields are cleared. The returned
        value is the call made, if any. */
    method HandleSubmitComment(idClock: int, tsClock: int) returns (call: Option<(string, Comment)>)
      requires Valid()
      modifies this
      ensures Valid()
      ensures !CanSubmit(old(authorName), old(commentText)) ==>
        call == None && commentText == old(commentText) && authorName == old(authorName)
      ensures CanSubmit(old(authorName), old(commentText)) ==>
        && call == Some((project.id, BuildComment(old(authorName), old(commentText), idClock, tsClock)))
        && commentText == "" && authorName == ""
      ensures project == old(project) && isLiked == old(isLiked) && likeCalls == old(likeCalls)
    {
      if Text.Trim(commentText) == [] || Text.Trim(authorName) == [] {
        call := None;
        return;
      }
      var comment := BuildComment(authorName, commentText, idClock, tsClock);
      call := Some((project.id, comment));
      commentText := "";
      authorName := "";
    }
  }
}
