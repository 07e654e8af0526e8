/** The notifications page: the sentence shown for each notification, marking one or all
 *  as read, and when the "Mark all read" button appears. The list is the page's state;
 *  each handler replaces it after its request succeeds. The time labels are the ones
 *  RelativeTime.Label computes. */
module NotificationsPage {
  import opened Common

  const MsgLoadFailed := "Failed to load notifications"

  /** A notification as the page receives it; `postText` and `commentText` may be absent. */
  datatype Item = Item(id: Id, kind: string, senderUsername: string, postText: Option<string>,
                       commentText: Option<string>, read: bool, createdAt: int)

  /** How a template literal prints an optional string: an absent one as "undefined". */
  function Interpolated(s: Option<string>): string {
    if s.Some? then s.value else "undefined"
  }

  /** `getNotificationText`. */
  function NotificationText(n: Item): (r: string)
    ensures n.kind == "like" && Truthy(n.postText) ==> r == "liked your post: \"" + n.postText.value + "\""
    ensures n.kind == "like" && !Truthy(n.postText) ==> r == "liked your post"
    ensures n.kind == "comment" ==> r == "commented on your post: \"" + Interpolated(n.commentText) + "\""
    ensures n.kind != "like" && n.kind != "comment" ==> r == ""
  {
    if n.kind == "like" then
      "liked your post" + (if Truthy(n.postText) then ": \"" + n.postText.value + "\"" else "")
    else if n.kind == "comment" then
      "commented on your post: \"" + Interpolated(n.commentText) + "\""
    else ""
  }

  /** The sentence never claims a comment for a like or the other way round: the two
   *  kinds' sentences start with different words. */
  lemma {:induction false} TextTellsKindApart(a: Item, b: Item)
    requires a.kind == "like" && b.kind == "comment"
    ensures NotificationText(a) != NotificationText(b)
    ensures NotificationText(a)[..5] == "liked" && NotificationText(b)[..9] == "commented"
  {
    var ta, tb := NotificationText(a), NotificationText(b);
    assert ta[0] == 'l' && tb[0] == 'c';
  }

  /** `notifications.some(n => !n.read)`. */
  predicate HasUnread(ns: seq<Item>) {
    exists k :: 0 <= k < |ns| && !ns[k].read
  }

  function MarkedRead(n: Item): Item {
    n.(read := true)
  }

  /** `handleMarkAllRead`: every entry read, count and order kept. */
  function MarkAllRead(ns: seq<Item>): (r: seq<Item>)
    ensures |r| == |ns|
    ensures forall k :: 0 <= k < |r| ==> r[k] == ns[k].(read := true)
    ensures !HasUnread(r)
  {
    seq(|ns|, k requires 0 <= k < |ns| => MarkedRead(ns[k]))
  }

  /** `handleNotificationClick` on an unread item: the entries with its id become read. */
  function MarkRead(ns: seq<Item>, id: Id): (r: seq<Item>)
    ensures |r| == |ns|
    ensures forall k :: 0 <= k < |r| && ns[k].id == id ==> r[k] == ns[k].(read := true)
    ensures forall k :: 0 <= k < |r| && ns[k].id != id ==> r[k] == ns[k]
  {
    seq(|ns|, k requires 0 <= k < |ns| => if ns[k].id == id then MarkedRead(ns[k]) else ns[k])
  }

  /** Clicking the last unread entry (or the last unread id) hides the "Mark all read"
   *  button. */
  lemma {:induction false} MarkReadLastUnread(ns: seq<Item>, k: nat)
    requires k < |ns| && !ns[k].read
    requires forall j :: 0 <= j < |ns| && j != k ==> ns[j].read || ns[j].id == ns[k].id
    ensures !HasUnread(MarkRead(ns, ns[k].id))
  {
    var r := MarkRead(ns, ns[k].id);
    forall j | 0 <= j < |r| ensures r[j].read {
      if ns[j].id != ns[k].id {
        assert j != k;
      }
    }
  }

  /** Marking one entry is idempotent and commutes with marking all. */
  lemma {:induction false} MarkReadThenAll(ns: seq<Item>, id: Id)
    ensures MarkRead(MarkRead(ns, id), id) == MarkRead(ns, id)
    ensures MarkAllRead(MarkRead(ns, id)) == MarkAllRead(ns)
  {
    var once := MarkRead(ns, id);
    assert MarkRead(once, id) == once by {
      forall k | 0 <= k < |ns| ensures MarkRead(once, id)[k] == once[k] {
      }
    }
    assert MarkAllRead(once) == MarkAllRead(ns) by {
      forall k | 0 <= k < |ns| ensures MarkAllRead(once)[k] == MarkAllRead(ns)[k] {
      }
    }
  }

  class NotificationsView {
    var notifications: seq<Item>
    var loading: bool
    var error: string

    constructor ()
      ensures notifications == [] && loading && error == ""
    {
      notifications, loading, error := [], true, "";
    }

    /** `fetchNotifications` with the response of GET /api/notifications. */
    method Fetch(response: Option<seq<Item>>)
      modifies this
      ensures response.Some? ==> notifications == response.value && error == ""
      ensures response.None? ==> notifications == old(notifications) && error == MsgLoadFailed
      ensures !loading
    {
      loading := true;
      if response.Some? {
        notifications := response.value;
        error := "";
      } else {
        error := MsgLoadFailed;
      }
      loading := false;
    }

    /** Whether the "Mark all read" button is shown. */
    predicate ShowsMarkAllRead()
      reads this
    {
      HasUnread(notifications)
    }

    /** `handleMarkAllRead`; `ok` is whether the PUT succeeded. */
    method MarkAll(ok: bool)
      modifies this
      ensures notifications == if ok then MarkAllRead(old(notifications)) else old(notifications)
      ensures ok ==> !ShowsMarkAllRead()
      ensures loading == old(loading) && error == old(error)
    {
      if ok {
        notifications := MarkAllRead(notifications);
      }
    }

    /** `handleNotificationClick`: an unread item sends the PUT (`ok` is its outcome) and
     *  is marked read on success; a read item sends nothing. The page navigates to the
     *  feed unless the request failed. */
    method Click(n: Item, ok: bool) returns (requested: bool, navigates: bool)
      modifies this
      ensures requested <==> !n.read
      ensures navigates <==> n.read || ok
      ensures notifications == if !n.read && ok then MarkRead(old(notifications), n.id) else old(notifications)
      ensures loading == old(loading) && error == old(error)
    {
      requested := !n.read;
      if !n.read {
        if !ok {
          return requested, false;
        }
        notifications := MarkRead(notifications, n.id);
      }
      navigates := true;
    }
  }
}
