/** The Post document with its embedded Comments, and what the schema accepts when a
 *  post is created or saved: the `trim` setters, the required fields, the 1000-character
 *  limit on the text and the pre-validate hook that wants text or an image. */
module PostModel {
  import opened Common

  const MaxTextLength := 1000

  datatype Comment = Comment(user: Id, username: string, text: string, createdAt: int)

  /** `likes` and `likesUsernames` are the two arrays the routes keep side by side. */
  datatype Post = Post(
    id: Id,
    user: Id,
    username: string,
    text: string,
    image: Option<string>,
    likes: seq<Id>,
    likesUsernames: seq<string>,
    comments: seq<Comment>,
    createdAt: int)

  /** The document paths a failed validation reports. */
  datatype Path = UsernamePath | TextPath | CommentUsernamePath(index: nat) | CommentTextPath(index: nat)

  datatype Validated = Accepted(post: Post) | Rejected(errors: set<Path>)

  /** The `trim: true` setters: post text and every comment text are stored trimmed. */
  function ApplySetters(p: Post): Post {
    p.(text := Trim(p.text), comments := TrimComments(p.comments))
  }

  /** The comment setter applied to every embedded comment. */
  function TrimComments(cs: seq<Comment>): (r: seq<Comment>)
    ensures |r| == |cs|
    ensures forall i :: 0 <= i < |cs| ==> r[i] == cs[i].(text := Trim(cs[i].text))
  {
    seq(|cs|, i requires 0 <= i < |cs| => cs[i].(text := Trim(cs[i].text)))
  }

  lemma TrimCommentsIdempotent(cs: seq<Comment>)
    ensures TrimComments(TrimComments(cs)) == TrimComments(cs)
  {
    var q := TrimComments(cs);
    var r := TrimComments(q);
    forall i | 0 <= i < |cs| ensures r[i] == q[i] {
      TrimIdempotent(cs[i].text);
    }
  }

  /** The hook and the length limit, both reported on the `text` path. */
  predicate TextProblem(q: Post) {
    |q.text| > MaxTextLength || (q.text == "" && !Truthy(q.image))
  }

  /** A comment whose required username or (trimmed) text is empty. */
  predicate CommentProblem(c: Comment) {
    c.username == "" || c.text == ""
  }

  /** The failures of a post whose setters have run: a required string that is empty,
   *  a text over the limit, the hook's "neither text nor image", per comment the
   *  required username and text. */
  function ValidationErrors(q: Post): set<Path> {
    (if q.username == "" then {UsernamePath} else {})
    + (if TextProblem(q) then {TextPath} else {})
    + (set i | 0 <= i < |q.comments| && q.comments[i].username == "" :: CommentUsernamePath(i))
    + (set i | 0 <= i < |q.comments| && q.comments[i].text == "" :: CommentTextPath(i))
  }

  /** A comment the schema accepts as given: its text is stored trimmed and is not empty. */
  predicate ValidComment(c: Comment) {
    c.username != "" && c.text != "" && IsTrimmed(c.text)
  }

  /** A document the collection can hold: every string is stored trimmed and no check fails. */
  predicate ValidPost(p: Post) {
    && p.username != ""
    && IsTrimmed(p.text)
    && !TextProblem(p)
    && forall i :: 0 <= i < |p.comments| ==> ValidComment(p.comments[i])
  }

  /** What the schema demands of a raw document, stated on the input before trimming. */
  predicate Acceptable(p: Post) {
    && p.username != ""
    && |Trim(p.text)| <= MaxTextLength
    && (!IsBlank(p.text) || Truthy(p.image))
    && forall i :: 0 <= i < |p.comments| ==> p.comments[i].username != "" && !IsBlank(p.comments[i].text)
  }

  /** Mongoose validation on create/save: run the setters, then the validators and the hook. */
  function Validate(p: Post): (r: Validated)
    ensures r.Accepted? <==> Acceptable(p)
    ensures r.Accepted? ==> ValidPost(r.post)
    ensures r.Accepted? ==> r.post == ApplySetters(p)
    ensures r.Rejected? ==> r.errors != {}
  {
    var q := ApplySetters(p);
    SettersIdempotent(p);
    ErrorsEmptyIffAcceptable(p);
    ValidPostIff(q);
    var e := ValidationErrors(q);
    if e == {} then Accepted(q) else Rejected(e)
  }

  lemma SettersIdempotent(p: Post)
    ensures ApplySetters(ApplySetters(p)) == ApplySetters(p)
  {
    TrimIdempotent(p.text);
    TrimCommentsIdempotent(p.comments);
  }

  /** The set of failures is empty exactly when no single check fails. */
  lemma ErrorsEmptyIff(q: Post)
    ensures ValidationErrors(q) == {} <==>
      q.username != "" && !TextProblem(q) &&
      forall i :: 0 <= i < |q.comments| ==> !CommentProblem(q.comments[i])
  {
    if ValidationErrors(q) == {} {
      assert UsernamePath !in ValidationErrors(q);
      assert TextPath !in ValidationErrors(q);
      forall i | 0 <= i < |q.comments| ensures !CommentProblem(q.comments[i]) {
        assert CommentUsernamePath(i) !in ValidationErrors(q);
        assert CommentTextPath(i) !in ValidationErrors(q);
      }
    } else {
      var e :| e in ValidationErrors(q);
      match e
      case UsernamePath =>
      case TextPath =>
      case CommentUsernamePath(i) =>
        assert 0 <= i < |q.comments| && CommentProblem(q.comments[i]);
      case CommentTextPath(i) =>
        assert 0 <= i < |q.comments| && CommentProblem(q.comments[i]);
    }
  }

  /** Stored strings are trimmed: a document the setters leave alone has trimmed text and
   *  trimmed comment texts. */
  lemma SettersFixedTrimmed(p: Post)
    requires ApplySetters(p) == p
    ensures IsTrimmed(p.text)
    ensures forall i :: 0 <= i < |p.comments| ==> IsTrimmed(p.comments[i].text)
  {
    assert p.text == Trim(p.text) by { assert ApplySetters(p).text == p.text; }
    assert p.comments == TrimComments(p.comments) by { assert ApplySetters(p).comments == p.comments; }
    TrimmedIff(p.text);
    forall i | 0 <= i < |p.comments| ensures IsTrimmed(p.comments[i].text) {
      var c := p.comments[i];
      assert c.text == Trim(c.text) by { assert TrimComments(p.comments)[i] == c; }
      TrimmedIff(c.text);
    }
  }

  /** ... and a document whose strings are all trimmed is left alone by the setters. */
  lemma TrimmedSettersFixed(p: Post)
    requires IsTrimmed(p.text)
    requires forall i :: 0 <= i < |p.comments| ==> IsTrimmed(p.comments[i].text)
    ensures ApplySetters(p) == p
  {
    TrimmedIff(p.text);
    TrimmedCommentsFixed(p.comments);
  }

  /** The comment setter leaves comments whose texts are trimmed as they are. */
  lemma TrimmedCommentsFixed(cs: seq<Comment>)
    requires forall i :: 0 <= i < |cs| ==> IsTrimmed(cs[i].text)
    ensures TrimComments(cs) == cs
  {
    var r := TrimComments(cs);
    forall i | 0 <= i < |cs| ensures r[i] == cs[i] {
      TrimmedIff(cs[i].text);
    }
  }

  /** The setters leave a document alone exactly when its strings are already trimmed. */
  lemma SettersFixedIff(p: Post)
    ensures ApplySetters(p) == p <==>
              IsTrimmed(p.text) && forall i :: 0 <= i < |p.comments| ==> IsTrimmed(p.comments[i].text)
  {
    if ApplySetters(p) == p {
      SettersFixedTrimmed(p);
    } else if IsTrimmed(p.text) && forall i :: 0 <= i < |p.comments| ==> IsTrimmed(p.comments[i].text) {
      TrimmedSettersFixed(p);
    }
  }

  /** Every comment is valid exactly when every comment is trimmed and none has a problem. */
  lemma CommentsValidIff(cs: seq<Comment>)
    ensures (forall i :: 0 <= i < |cs| ==> ValidComment(cs[i])) <==>
              (forall i :: 0 <= i < |cs| ==> IsTrimmed(cs[i].text))
              && (forall i :: 0 <= i < |cs| ==> !CommentProblem(cs[i]))
  {
  }

  /** A valid post is exactly a document the setters leave alone and validation accepts. */
  lemma ValidPostIff(p: Post)
    ensures ValidPost(p) <==> ApplySetters(p) == p && ValidationErrors(p) == {}
  {
    ErrorsEmptyIff(p);
    SettersFixedIff(p);
    CommentsValidIff(p.comments);
  }

  /** Validating a document already in stored form (a `save` of a fetched document) accepts
   *  it unchanged exactly when it is valid. */
  lemma ValidateStoredForm(q: Post)
    requires ApplySetters(q) == q
    ensures Validate(q).Accepted? <==> ValidPost(q)
    ensures Validate(q).Accepted? ==> Validate(q).post == q
  {
    ValidPostIff(q);
  }

  lemma ErrorsEmptyIffAcceptable(p: Post)
    ensures ValidationErrors(ApplySetters(p)) == {} <==> Acceptable(p)
  {
    var q := ApplySetters(p);
    ErrorsEmptyIff(q);
    TrimmedTextProblem(p);
    TrimmedCommentsProblem(p.comments);
  }

  /** The hook and the length check, read on the raw text. */
  lemma TrimmedTextProblem(p: Post)
    ensures TextProblem(ApplySetters(p)) <==> !(|Trim(p.text)| <= MaxTextLength && (!IsBlank(p.text) || Truthy(p.image)))
  {
    assert ApplySetters(p).text == Trim(p.text) && ApplySetters(p).image == p.image;
  }

  /** The comment checks, read on the raw comments. */
  lemma TrimmedCommentsProblem(cs: seq<Comment>)
    ensures (forall i :: 0 <= i < |TrimComments(cs)| ==> !CommentProblem(TrimComments(cs)[i])) <==>
            (forall i :: 0 <= i < |cs| ==> cs[i].username != "" && !IsBlank(cs[i].text))
  {
    var q := TrimComments(cs);
    forall i | 0 <= i < |cs|
      ensures !CommentProblem(q[i]) <==> cs[i].username != "" && !IsBlank(cs[i].text)
    {
      assert q[i] == cs[i].(text := Trim(cs[i].text));
    }
  }

  /** A failure found after the setters is a rejection reporting that path. */
  lemma RejectedOn(p: Post, path: Path)
    requires path in ValidationErrors(ApplySetters(p))
    ensures Validate(p).Rejected? && path in Validate(p).errors
  {
  }

  /** A post with neither text nor image fails, and so does one whose text is only
   *  white space: the setter trims it to '' before the hook looks at it. */
  lemma {:induction false} NoContentRejected(p: Post)
    requires IsBlank(p.text) && !Truthy(p.image)
    ensures Validate(p).Rejected? && TextPath in Validate(p).errors
  {
    assert Trim(p.text) == "";
    assert TextPath in ValidationErrors(ApplySetters(p));
    RejectedOn(p, TextPath);
  }

  /** Text longer than 1000 characters once trimmed is refused. */
  lemma {:induction false} LongTextRejected(p: Post)
    requires |Trim(p.text)| > MaxTextLength
    ensures Validate(p).Rejected? && TextPath in Validate(p).errors
  {
    var q := ApplySetters(p);
    assert q.text == Trim(p.text);
    assert TextProblem(q);
    assert TextPath in ValidationErrors(q);
    RejectedOn(p, TextPath);
  }

  /** An empty username is refused: the schema requires it. */
  lemma {:induction false} MissingUsernameRejected(p: Post)
    requires p.username == ""
    ensures Validate(p).Rejected? && UsernamePath in Validate(p).errors
  {
    assert UsernamePath in ValidationErrors(ApplySetters(p));
    RejectedOn(p, UsernamePath);
  }

  /** Text and image are independent: a post carrying both is accepted whenever the
   *  text alone would be, and an image alone suffices. */
  lemma {:induction false} TextAndImageIndependent(p: Post, image: string)
    requires image != ""
    requires p.username != "" && |Trim(p.text)| <= MaxTextLength && p.comments == []
    ensures Validate(p.(image := Some(image))).Accepted?
    ensures !IsBlank(p.text) ==> Validate(p.(image := None)).Accepted?
  {
    assert Acceptable(p.(image := Some(image)));
    if !IsBlank(p.text) {
      assert Acceptable(p.(image := None));
    }
  }
}
