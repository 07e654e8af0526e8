/** The create-post form: its text, the chosen image with its preview, the loading flag
 *  and the error message, the image size check, and what a submission sends and does
 *  with the server's answer. */
module CreatePostForm {
  import opened Common
  import opened FeedTypes

  const MaxImageBytes := 5 * 1024 * 1024
  const MsgImageTooLarge := "Image size should be less than 5MB"
  const MsgNeedContent := "Please provide either text or an image"
  const MsgCreateFailed := "Failed to create post"

  /** A file picked in the browser. */
  datatype File = File(name: string, size: nat)

  /** The multipart body: each field present or absent. */
  datatype Payload = Payload(text: Option<string>, image: Option<File>)

  /** The server's answer: the created post, or a failure with the reply's `message`
   *  when there was a reply. */
  datatype CreateResponse = Created(post: FeedPost) | Failed(message: Option<string>)

  /** `if (text) formData.append('text', text); if (image) formData.append('image', image)`. */
  function PayloadOf(text: string, image: Option<File>): (r: Payload)
    ensures r.text.Some? <==> text != ""
    ensures r.text.Some? ==> r.text.value == text
    ensures r.image == image
  {
    Payload(if text != "" then Some(text) else None, image)
  }

  /** The submit button's `disabled`. */
  predicate SubmitDisabled(loading: bool, text: string, image: Option<File>) {
    loading || (text == "" && image.None?)
  }

  /** What an enabled button submits always carries text or an image. */
  lemma {:induction false} EnabledSubmitCarriesContent(text: string, image: Option<File>)
    requires !SubmitDisabled(false, text, image)
    ensures PayloadOf(text, image).text.Some? || PayloadOf(text, image).image.Some?
  {
  }

  /** The post handed to the feed: the response with the author set to the current user. */
  function WithAuthor(post: FeedPost, me: Author): (r: FeedPost)
    ensures r.user == me
    ensures r.id == post.id && r.username == post.username && r.text == post.text && r.image == post.image
    ensures r.likes == post.likes && r.likesUsernames == post.likesUsernames && r.likesCount == post.likesCount
    ensures r.isLiked == post.isLiked && r.comments == post.comments && r.commentsCount == post.commentsCount
    ensures r.createdAt == post.createdAt
  {
    post.(user := me)
  }

  /** The error shown for a failed request: the server's message when there is a
   *  non-empty one, a generic one otherwise. */
  function FailureMessage(message: Option<string>): (r: string)
    ensures Truthy(message) ==> r == message.value
    ensures !Truthy(message) ==> r == MsgCreateFailed
    ensures r != ""
  {
    if Truthy(message) then message.value else MsgCreateFailed
  }

  class Form {
    var text: string
    var image: Option<File>
    var preview: Option<string>
    var loading: bool
    var error: string
    const me: Author

    constructor (me: Author)
      ensures this.me == me && text == "" && image == None && preview == None && !loading && error == ""
    {
      this.me := me;
      text, image, preview, loading, error := "", None, None, false, "";
    }

    method ChangeText(t: string)
      modifies this
      ensures text == t
      ensures image == old(image) && preview == old(preview) && loading == old(loading) && error == old(error)
    {
      text := t;
    }

    /** `handleImageChange` with the first selected file (None: nothing selected) and the
     *  object URL the browser makes for it. A file over 5 MB only sets the error. */
    method ImageChange(file: Option<File>, objectUrl: string)
      modifies this
      ensures file.None? ==> image == old(image) && preview == old(preview) && error == old(error)
      ensures file.Some? && file.value.size > MaxImageBytes ==>
                image == old(image) && preview == old(preview) && error == MsgImageTooLarge
      ensures file.Some? && file.value.size <= MaxImageBytes ==>
                image == file && preview == Some(objectUrl) && error == ""
      ensures text == old(text) && loading == old(loading)
    {
      if file.Some? {
        if file.value.size > MaxImageBytes {
          error := MsgImageTooLarge;
          return;
        }
        image := file;
        preview := Some(objectUrl);
        error := "";
      }
    }

    /** `handleRemoveImage`. */
    method RemoveImage()
      modifies this
      ensures image == None && preview == None
      ensures text == old(text) && loading == old(loading) && error == old(error)
    {
      image := None;
      preview := None;
    }

    /** `handleSubmit`: with neither text nor image, only the error is set and nothing is
     *  sent. Otherwise the payload is sent (`respond` is the server); a created post goes
     *  to the feed with the current user as author and the form is reset; a failure shows
     *  its message and keeps the form. */
    method Submit(respond: Payload -> CreateResponse) returns (sent: Option<Payload>, created: Option<FeedPost>)
      modifies this
      ensures old(text) == "" && old(image).None? ==>
                && sent == None && created == None && error == MsgNeedContent
                && text == old(text) && image == old(image) && preview == old(preview) && loading == old(loading)
      ensures !(old(text) == "" && old(image).None?) ==>
                var payload := PayloadOf(old(text), old(image));
                && sent == Some(payload)
                && !loading
                && (respond(payload).Created? ==>
                      && created == Some(WithAuthor(respond(payload).post, me))
                      && text == "" && image == None && preview == None && error == "")
                && (respond(payload).Failed? ==>
                      && created == None && error == FailureMessage(respond(payload).message)
                      && text == old(text) && image == old(image) && preview == old(preview))
    {
      if text == "" && image.None? {
        error := MsgNeedContent;
        return None, None;
      }
      loading := true;
      error := "";
      var payload := PayloadOf(text, image);
      sent := Some(payload);
      var response := respond(payload);
      if response.Created? {
        created := Some(WithAuthor(response.post, me));
        text := "";
        image := None;
        preview := None;
      } else {
        created := None;
        error := FailureMessage(response.message);
      }
      loading := false;
    }
  }
}
