# Social-Post-App feed, modelled in Dafny

This project models the feed of the Social-Post-App. It covers both halves.

**The Express/Mongoose backend**
- A post can be created, listed page by page, liked or unliked, commented on and deleted.
- Each route fetches the document, edits its arrays in place and saves it. It creates or deletes notification documents and emits socket.io events in a fixed order.
- The Post schema applies its trim setters and required fields, the 1000-character limit and the "text or image" hook.
- The profile route checks uniqueness and copies a new username onto posts and comments.
- Signup and login validate, check for duplicates and answer.

**The React client**
- The feed page applies the socket events to its post list, merges pages and filters by tab.
- The post card has like and comment handlers.
- The notifications page has its sentence builder and mark-read handlers.
- The create-post form and the signup form each have their checks and their submit handler.

Server state lives in one class, `Store.Db`, which holds:
- the users, posts and notifications collections, as sequences in collection order;
- an id allocator;
- an append-only `outbox` of the events `io.emit` sends.

The route handlers are methods on `Db`. Each one ensures that the new state equals a specification function of the old state:
- `Toggled` and `NotesAfterToggle` for a like;
- `Commented` and `NotesAfterComment` for a comment;
- `Rename` for a profile change.

Every route keeps `Db.Valid()`, which requires all of the following:
- ids are unique and allocated;
- every stored post passes the schema;
- no user likes a post twice;
- a post's `likes` and `likesUsernames` have the same length;
- usernames and emails are unique;
- nobody is notified of their own action;
- for every post, a like notification to the author exists exactly while the liker's like does.

The client pages are classes whose fields are the component's `useState` variables. Their handlers take the server's reply as a parameter.

The unlike branch of the like route removes the liker's name by looking the name up, not by the position it removed from `likes`. If the lookup misses, `splice(-1, 1)` removes the last name instead. The model keeps this behaviour as written. `PostRoutes.UnlikePairingExactly` states exactly when `likes` and `likesUsernames` stay paired. `PostRoutes.UnlikeAfterRenameDropsWrongName` shows a concrete post where a renamed user's unlike removes another user's name.

## Model

| member | source | states |
|---|---|---|
| Common.Trim | backend/models/Post.js:34-37 | String.prototype.trim: the result has no ECMAScript white space at either end, is no longer than the input, and is empty exactly when the input is all white space |
| Common.TrimmedIff | backend/models/Post.js:13-17 | trim leaves a string unchanged if and only if it has no white space at either end, and its result always has none |
| Common.TrimIdempotent | backend/models/Post.js:34-37 | trimming a trimmed string changes nothing |
| Common.TrimIsMiddle | backend/models/Post.js:34-37 | the trimmed string is a contiguous slice of the input with only white space before it and after it |
| Common.Prefix | backend/routes/posts.js:135 | substring(0, n) is the first min(n, length) characters |
| Common.FindFirst | backend/routes/auth.js:35 | findOne in natural order: the first matching position, with nothing before it matching; absent exactly when nothing matches |
| Common.IndexOf | backend/routes/posts.js:106 | indexOf is -1 exactly when the value is absent, and otherwise the first position holding it |
| Common.SpliceStart | backend/routes/posts.js:112 | splice's start: an in-range start is kept, a negative one counts from the end |
| Common.SpliceOne | backend/routes/posts.js:111-112 | splice(start, 1) removes exactly the element at an in-range start, removes the last element for -1, and changes nothing past the end |
| Common.PushThenSpliceRestores | backend/routes/posts.js:111-124 | pushing an absent value and splicing at the index indexOf then reports gives back the original array |
| Common.Filter | frontend/src/pages/Social.js:88 | Array.prototype.filter keeps exactly the elements satisfying the predicate |
| Common.FilterAppend | frontend/src/pages/Social.js:88 | filtering distributes over concatenation, so kept elements keep their relative order |
| Common.FilterPositions | frontend/src/pages/Social.js:88 | the filtered array is the original's elements at strictly increasing positions |
| Common.FilterAllPass | frontend/src/pages/Social.js:290 | a filter every element passes returns the array unchanged |
| PostModel.TrimComments | backend/models/Post.js:13-17 | the comment-text setter trims every comment's text and changes nothing else |
| PostModel.TrimCommentsIdempotent | backend/models/Post.js:13-17 | running the comment setter twice equals running it once |
| PostModel.Validate | backend/models/Post.js:3-62 | the document is accepted if and only if all of these hold: the username is non-empty; the trimmed text is at most 1000 characters; the text is not blank or an image is present; every comment has a username and non-blank text. An accepted document is the trimmed one and is valid; a rejection reports at least one path |
| PostModel.SettersIdempotent | backend/models/Post.js:13-37 | applying the trim setters twice equals applying them once |
| PostModel.ErrorsEmptyIff | backend/models/Post.js:24-62 | no path is reported exactly when the username, the text-or-image hook, the length limit and every comment pass |
| PostModel.SettersFixedTrimmed | backend/models/Post.js:13-37 | a document the setters leave unchanged has trimmed post and comment texts |
| PostModel.TrimmedSettersFixed | backend/models/Post.js:13-37 | a document whose texts are all trimmed is left unchanged by the setters |
| PostModel.SettersFixedIff | backend/models/Post.js:13-37 | both directions: the setters fix a document if and only if its texts are trimmed |
| PostModel.CommentsValidIff | backend/models/Post.js:3-17 | every comment is valid if and only if each is trimmed and has a username and text |
| PostModel.ValidPostIff | backend/models/Post.js:24-62 | a valid post is exactly a document in stored (trimmed) form that validation reports nothing against |
| PostModel.ValidateStoredForm | backend/routes/posts.js:200-201 | re-validating a document in stored form on save accepts it unchanged if and only if it is valid |
| PostModel.ErrorsEmptyIffAcceptable | backend/models/Post.js:24-62 | validation finds nothing after the setters exactly when the raw document is acceptable |
| PostModel.TrimmedTextProblem | backend/models/Post.js:34-60 | the hook and the length check, read on the trimmed text, are equivalent to conditions on the raw text |
| PostModel.TrimmedCommentsProblem | backend/models/Post.js:3-17 | the comment checks after trimming are equivalent to non-empty usernames and non-blank raw texts |
| PostModel.NoContentRejected | backend/models/Post.js:57-61 | blank text without an image is rejected on the text path |
| PostModel.LongTextRejected | backend/models/Post.js:34-38 | text over 1000 characters once trimmed is rejected on the text path |
| PostModel.MissingUsernameRejected | backend/models/Post.js:30-33 | an empty username is rejected on the username path |
| PostModel.TextAndImageIndependent | backend/models/Post.js:34-41 | an image alone suffices, text and image together are accepted, and acceptable text alone suffices |
| Store.FindPost | backend/routes/posts.js:99-103 | findById returns the position of the post with that id, and is absent exactly when no post has it |
| Store.FindUser | backend/routes/users.js:40-44 | findById on users returns the position of the user with that id, and is absent exactly when no user has it |
| Store.PostExcerpt | backend/routes/posts.js:135 | the notification's postText is at most the first 50 characters of a non-empty text, or '[Image]' |
| Store.DeleteOneLike | backend/routes/posts.js:115-120 | deleteOne removes at most one matching like notification and changes no other key's count |
| Store.CountLikeNotesAppend | backend/routes/posts.js:129-136 | creating a like notification raises only its own key's count, by one |
| Store.DeleteOneLikeAppended | backend/routes/posts.js:115-136 | deleteOne right after creating the only matching notification removes exactly it |
| Store.CountLikeNotesFresh | backend/routes/posts.js:23-28 | no like notification names a post id not yet allocated |
| Store.StoredPostValid | backend/routes/posts.js:106-125 | every stored post passed the schema, no user likes it twice, and its `likes` and `likesUsernames` have equal length, so an unlike always finds a name to splice |
| PostRoutes.CreatePost | backend/routes/posts.js:12-42 | answers 400 with no change when text and image are both falsy, and 500 with no change when the schema rejects `text \|\| ''`. Otherwise it stores the validated post under a new id, appends exactly one postCreated and answers 201; the store invariant is kept |
| PostRoutes.StorePost | backend/routes/posts.js:23-37 | the insert appends the post, advances the allocator, emits postCreated and keeps the invariant |
| PostRoutes.AppendFreshPost | backend/routes/posts.js:23-28 | appending a valid post with a fresh id and empty like arrays keeps every store invariant |
| PostRoutes.AppendFreshPostMirrored | backend/routes/posts.js:23-28 | a new post has no like notifications, matching its empty likes |
| PostRoutes.BlankTextPassesRouteButFailsSchema | backend/routes/posts.js:19-40 | white-space-only text passes the route's `!text` test, but the schema rejects it, so the route answers 500 |
| PostRoutes.DraftWithTextAccepted | backend/routes/posts.js:23-28 | non-blank text that fits once trimmed is accepted, with or without an image, and stored trimmed |
| PostRoutes.DraftWithImageAccepted | backend/routes/posts.js:16-28 | an uploaded image is enough, with or without fitting text |
| PostRoutes.InsertByDate | backend/routes/posts.js:54 | inserting into a newest-first list keeps it newest-first and adds exactly the one post |
| PostRoutes.NewestFirst | backend/routes/posts.js:53-54 | sort({ createdAt: -1 }) yields a newest-first permutation of the collection |
| PostRoutes.Window | backend/routes/posts.js:55-56 | skip/limit yields min(limit, remaining) items starting at position skip |
| PostRoutes.OrDefault | backend/routes/posts.js:49-50 | `parseInt(q) \|\| d` is the parsed value unless it is absent or zero, and never zero for a non-zero default |
| PostRoutes.CeilDiv | backend/routes/posts.js:65 | Math.ceil(total / limit), characterised as the least page count covering total, for either sign of limit |
| PostRoutes.ListPosts | backend/routes/posts.js:47-72 | a negative skip gives the 500 reply. Otherwise it gives 200 with: the page; totalPosts; totalPages = ceil(total / limit); and the newest-first posts from (page-1)*limit, at most abs(limit) of them |
| PostRoutes.PageNonEmptyIffWithinTotal | backend/routes/posts.js:51-65 | with a positive limit, page p holds posts if and only if p <= totalPages |
| PostRoutes.EveryPostOnItsPage | backend/routes/posts.js:49-56 | the post at newest-first position j appears on page j / limit + 1 at position j % limit, so the pages tile the feed |
| PostRoutes.PageContents | backend/routes/posts.js:49-56 | a positive page and limit give the 200 reply whose posts are the window at (page-1)*limit |
| PostRoutes.Liked | backend/routes/posts.js:121-125 | a like pushes the actor's id and current username onto the two arrays, keeps every other field, and keeps likes duplicate-free |
| PostRoutes.Unliked | backend/routes/posts.js:109-112 | an unlike removes exactly the actor's id from likes. likesUsernames loses one entry, and that entry is the actor's name when the name is present |
| PostRoutes.Toggled | backend/routes/posts.js:106-125 | the actor's membership in likes flips, every other user's membership is kept, and equal-length like arrays stay equal in length |
| PostRoutes.LikeNote | backend/routes/posts.js:129-136 | the like notification: recipient the author, sender and senderUsername the actor, type 'like', the post, the 50-character excerpt or '[Image]', unread |
| PostRoutes.NotesAfterToggle | backend/routes/posts.js:109-137 | unlike deletes one matching like notification; a like on someone else's post appends one; a like on one's own post leaves the notifications alone |
| PostRoutes.ToggleEvents | backend/routes/posts.js:140-156 | newNotification for the author first when a like notified someone, then postLiked with the new likes, their count, the names and isLiked |
| PostRoutes.CountsAfterToggle | backend/routes/posts.js:115-136 | only the (author, actor, post) like-notification count moves: down by one on unlike, up by one on a like of someone else's post |
| PostRoutes.ToggledMirrors | backend/routes/posts.js:106-136 | after the toggle, the toggled post's like notifications still match its likers one for one |
| PostRoutes.OtherPostMirrors | backend/routes/posts.js:115-136 | every other post's like notifications are unaffected by the toggle |
| PostRoutes.ToggleKeepsInvariants | backend/routes/posts.js:106-147 | the toggle keeps every store invariant, including that `likes` and `likesUsernames` have equal length. A like pushes onto both; an unlike removes one entry from each, because the equal length guarantees a name to remove |
| PostRoutes.ToggleLike | backend/routes/posts.js:97-163 | a missing post gives 404 and no change. Otherwise the post becomes Toggled, and the notifications change as NotesAfterToggle says. newNotification, for a like on someone else's post, is emitted before postLiked. The reply carries likes, likesCount and likesUsernames; the invariant is kept |
| PostRoutes.RemoveLike | backend/routes/posts.js:109-163 | the unlike branch: the post becomes Toggled, one like notification is deleted, no id is allocated, and postLiked is emitted with isLiked false |
| PostRoutes.AddLike | backend/routes/posts.js:121-163 | the like branch: the post becomes Toggled. For someone else's post, a like notification is created and newNotification emitted. postLiked is emitted with isLiked true |
| PostRoutes.UnlikeDocument | backend/routes/posts.js:109-112 | the two in-place splices produce the toggled document |
| PostRoutes.LikeDocument | backend/routes/posts.js:121-125 | the two in-place pushes produce the toggled document |
| PostRoutes.LikeThenUnlikeRestores | backend/routes/posts.js:109-125 | a like then an unlike by the same user, whose name is unchanged and not yet among the names, restores the post exactly |
| PostRoutes.LikeThenUnlikeRestoresNotes | backend/routes/posts.js:115-136 | the like's notification is the one the following unlike deletes, so the notifications are restored |
| PostRoutes.LikeKeepsPairing | backend/routes/posts.js:123-124 | a like by a user under their recorded name keeps the id/name pairing |
| PostRoutes.RemoveSamePositionKeepsPairing | backend/routes/posts.js:111-112 | removing the same position from both arrays keeps the pairing |
| PostRoutes.RemoveDifferentPositionsBreaksPairing | backend/routes/posts.js:111-112 | with distinct names, removing different positions breaks the pairing |
| PostRoutes.UnlikedShape | backend/routes/posts.js:106-112 | the unlike removes the indexOf position from likes, and from likesUsernames the position the name lookup gives (-1 read as the last) |
| PostRoutes.UnlikePairingExactly | backend/routes/posts.js:106-112 | both directions: with distinct names, unlike keeps the pairing exactly when the name lookup lands on the actor's position in likes |
| PostRoutes.UnlikeWithCurrentNameKeepsPairing | backend/routes/posts.js:109-112 | with distinct names and the actor's name unchanged since the like, unlike keeps the pairing |
| PostRoutes.UnlikeAfterRenameDropsWrongName | backend/routes/posts.js:111-112 | concrete case: after a rename, the name lookup misses and another liker's name is removed instead |
| PostRoutes.SanitizedText | backend/routes/posts.js:177 | the validator chain's trim: the text the handler sees has no white space at either end, is no longer than the body's text, and is empty exactly when the body's text is absent or all white space |
| PostRoutes.Commented | backend/routes/posts.js:194-200 | the post with a comment by the actor, under the actor's current username, pushed at the end of the comments |
| PostRoutes.CommentNote | backend/routes/posts.js:205-213 | the comment notification: recipient the author, type 'comment', the 50-character post excerpt or '[Image]', the first 100 characters of the comment, unread |
| PostRoutes.NotesAfterComment | backend/routes/posts.js:204-214 | one comment notification is appended unless the commenter is the author |
| PostRoutes.CommentEvents | backend/routes/posts.js:217-231 | newNotification for the author when someone else commented, then postCommented with the comments and their count |
| PostRoutes.CommentSaveOutcome | backend/routes/posts.js:194-201 | saving a valid post with one more trimmed, non-empty comment succeeds exactly when the commenter has a username, and stores it as given |
| PostRoutes.CommentedInStoredForm | backend/routes/posts.js:200-201 | the setters leave the commented post unchanged |
| PostRoutes.CommentedValidIff | backend/routes/posts.js:194-201 | the commented post is valid if and only if the commenter's username is non-empty |
| PostRoutes.CommentKeepsInvariants | backend/routes/posts.js:200-221 | a comment and its notification keep every store invariant; like counts are untouched |
| PostRoutes.AddComment | backend/routes/posts.js:173-243 | each of these answers with no change: text blank after trim gives 400 'Comment text is required'; a missing post gives 404; a failed save gives 500. Otherwise exactly one comment {actor, username, trimmed text} is appended at the end. A comment notification is created only for a non-author, then postCommented is emitted with the full comments and count, and the reply is 201 |
| PostRoutes.CommentOnPost | backend/routes/posts.js:194-237 | once the text and the post are known: a save failure gives 500 with no change, otherwise the full comment effect |
| PostRoutes.SaveCommented | backend/routes/posts.js:200-201 | post.save() after the push succeeds if and only if the commenter has a username, and the saved post is valid |
| PostRoutes.StoreComment | backend/routes/posts.js:200-237 | the write, the notification, the emits in route order and the 201 reply, keeping the invariant |
| PostRoutes.CommentNoteExcerpts | backend/routes/posts.js:204-213 | a comment notification goes to someone else. It keeps a prefix of at most 100 characters of the comment and of at most 50 of the post, or '[Image]' |
| PostRoutes.DeletePost | backend/routes/posts.js:248-273 | a missing post gives 404 and a non-author gives 403, both with no change and no event. Otherwise exactly that post is removed, postDeleted is emitted, notifications are untouched and the reply is 200 |
| PostRoutes.RemovePostKeepsInvariants | backend/routes/posts.js:262 | removing the post removes exactly the posts with its id and keeps the post invariants |
| UserRoutes.ProfileInputError | backend/routes/users.js:28-37 | the first failing check, in declaration order: a present username whose trim is not 3-30 characters, then a present invalid email |
| UserRoutes.UsernameHolder | backend/routes/users.js:51 | findOne({ username }) finds a holder of that name exactly when one exists |
| UserRoutes.EmailHolder | backend/routes/users.js:60 | findOne({ email }) finds a holder of that email exactly when one exists |
| UserRoutes.RenameAuthor | backend/routes/users.js:72-75 | the first updateMany sets username on the user's own posts only and changes no other field |
| UserRoutes.RenameCommenter | backend/routes/users.js:78-82 | the array-filter updateMany sets username on the user's comments in every post and changes nothing else |
| UserRoutes.Rename | backend/routes/users.js:72-82 | the two updateMany calls in order: the author rename, then the comment rename |
| UserRoutes.RenameEffect | backend/routes/users.js:72-82 | after both rewrites, the user's posts and comments carry the new name. Other authors, likes, likesUsernames and texts are unchanged |
| UserRoutes.RenameIdempotent | backend/routes/users.js:72-82 | renaming twice to the same name equals renaming once |
| UserRoutes.RenamedPostStaysValid | backend/routes/users.js:72-82 | a renamed post stays valid and keeps its like notifications mirrored |
| UserRoutes.RenameKeepsPostsWellFormed | backend/routes/users.js:72-82 | a rename to a non-empty name keeps every post valid and mirrored |
| UserRoutes.UpdateKeepsUsersWellFormed | backend/routes/users.js:49-67 | saving a user with new values nobody holds keeps usernames and emails unique |
| UserRoutes.UpdateKeepsInvariant | backend/routes/users.js:49-82 | a successful update, with or without rename, keeps the store invariant |
| UserRoutes.UpdateProfile | backend/routes/users.js:24-101 | each of these gives 400 or 404 with no change: a validation failure (first message), a missing user, a taken username, a taken email (taken email checked after the username, so nothing is saved). Otherwise the user is saved; on a rename, posts and comments are rewritten and usernameChanged{id, old, new} is emitted after both rewrites. Notifications are never touched |
| UserRoutes.SaveProfile | backend/routes/users.js:67-95 | the save, the two rewrites and the event, in that order, returning the saved profile and keeping the invariant |
| UserRoutes.SameUsernameIsNoRename | backend/routes/users.js:50 | sending back the current username is not a rename, so there is no lookup and no event |
| AuthRoutes.SessionOf | backend/routes/auth.js:54-59 | the reply body is exactly the user's id, username, email and a token for that id |
| AuthRoutes.SignupInputError | backend/routes/auth.js:20-30 | the first failing check: trimmed username 3-30, then a valid email, then a password of at least 6 |
| AuthRoutes.Existing | backend/routes/auth.js:35 | `findOne({ $or })` returns the first user holding the email or the username |
| AuthRoutes.DuplicateError | backend/routes/auth.js:37-44 | a found user is reported as 'Email already registered' when its email matches, and otherwise as 'Username already taken' |
| AuthRoutes.EmailReportedFirst | backend/routes/auth.js:35-40 | when the first colliding user holds the email, the email message wins even if the username collides too |
| AuthRoutes.UsernameOnlyCollision | backend/routes/auth.js:35-43 | a username-only collision is reported as 'Username already taken' |
| AuthRoutes.CollisionOrderDecides | backend/routes/auth.js:35-43 | concrete case: the earlier user holds the name and a later one the email, so the username message is given |
| AuthRoutes.AddUserKeepsInvariant | backend/routes/auth.js:47-51 | creating a user with a fresh id, username and email keeps the store invariant |
| AuthRoutes.Signup | backend/routes/auth.js:17-66 | a validation failure or a duplicate gives 400 with the first message and no user created. Otherwise exactly one user is appended with the trimmed name and normalised email, and the 201 body is its session |
| AuthRoutes.CreateUser | backend/routes/auth.js:47-51 | User.create appends the user under the next id and keeps the invariant |
| AuthRoutes.LoginInputError | backend/routes/auth.js:74-83 | the first failing login check: a valid email, then a non-empty password |
| AuthRoutes.Login | backend/routes/auth.js:71-112 | the result is 200 with the session if and only if the input is valid and the first user with the normalised email has a matching password; any other valid input gives 401 |
| AuthRoutes.LoginFailuresIndistinguishable | backend/routes/auth.js:88-99 | an unknown email and a wrong password give the identical 401 'Invalid email or password' |
| AuthRoutes.SignupThenLogin | backend/routes/auth.js:47-106 | a user created by signup logs in with the same email and password when the stored credential verifies |
| Social.OnPostCreated | frontend/src/pages/Social.js:75-84 | the list is unchanged exactly when the id is already listed, otherwise the post is prepended; unique ids stay unique |
| Social.OnPostCreatedIdempotent | frontend/src/pages/Social.js:75-84 | receiving the same postCreated twice equals receiving it once |
| Social.RemovePost | frontend/src/pages/Social.js:87-89 | exactly the posts with another id remain and none with the id |
| Social.RemovePostKeepsOrder | frontend/src/pages/Social.js:87-89 | removal distributes over any split of the list, so the remaining posts keep their order |
| Social.RemovePostIdempotent | frontend/src/pages/Social.js:87-89 | removing an absent id changes nothing, and removing twice equals removing once |
| Social.RemoveKeepsUnique | frontend/src/pages/Social.js:87-89 | removal never creates two posts with one id |
| Social.OnPostLiked | frontend/src/pages/Social.js:92-106 | the matching post takes only the four like fields; length, order and the other posts are unchanged |
| Social.LatestLikeWins | frontend/src/pages/Social.js:92-106 | of two postLiked events for one post, the later decides |
| Social.OnPostCommented | frontend/src/pages/Social.js:109-121 | the matching post takes only comments and commentsCount; the other posts are unchanged |
| Social.LatestCommentsWin | frontend/src/pages/Social.js:109-121 | of two postCommented events for one post, the later decides |
| Social.OnUsernameChanged | frontend/src/pages/Social.js:124-156 | posts and comments by the user show the new name, other authors and every other field are untouched, and length and order are kept |
| Social.OnUsernameChangedIdempotent | frontend/src/pages/Social.js:124-156 | applying the same rename twice equals applying it once |
| Social.PrependPost | frontend/src/pages/Social.js:188-190 | handlePostCreated prepends without a duplicate check |
| Social.EchoAfterLocalPrependIgnored | frontend/src/pages/Social.js:75-83 | the postCreated echo after a local prepend is absorbed |
| Social.ReplacePost | frontend/src/pages/Social.js:192-196 | only the post with the updated id is replaced; ids, length and order are kept |
| Social.MergePage | frontend/src/pages/Social.js:45-49 | page 1 replaces the list, any other page is appended after it |
| Social.Visible | frontend/src/pages/Social.js:289-290 | tab 0 shows every post, another tab exactly the user's own |
| Social.VisibleKeepsOrder | frontend/src/pages/Social.js:289-290 | the tab filter keeps the feed's order |
| Social.MorePages | frontend/src/pages/Social.js:51 | hasMore after a reply: the reply's currentPage is below its totalPages |
| Social.MorePagesIffNextPageNonEmpty | frontend/src/pages/Social.js:51 | hasMore, computed from GET /api/posts at a positive limit, holds exactly when the next page the server would return is non-empty |
| Social.Receive | frontend/src/pages/Social.js:74-156 | each socket event is handled by its own reducer: postCreated, postDeleted, postLiked, postCommented, usernameChanged |
| Social.ReceiveKeepsIdsUnique | frontend/src/pages/Social.js:75-156 | no socket event makes two listed posts share an id |
| Social.SocialPage.constructor | frontend/src/pages/Social.js:32-38 | the page starts with no posts, page 1, hasMore, loading, tab 0 and no unread count |
| Social.SocialPage.FetchPosts | frontend/src/pages/Social.js:40-59 | a reply merges the page and sets hasMore = currentPage < totalPages. A failure keeps the list and sets 'Failed to load posts'. Loading ends false either way. After a reply, Load More is offered exactly when the reply reported more pages and the list is not empty |
| Social.SocialPage.LoadMore | frontend/src/pages/Social.js:202-206 | the page number advances by one and that page is appended |
| Social.SocialPage.OnSocket | frontend/src/pages/Social.js:74-156 | a socket event replaces the list by its reducer's result and nothing else |
| Social.SocialPage.FetchUnreadCount | frontend/src/pages/Social.js:174-181 | a reply sets the badge count; a failure leaves it |
| Social.SocialPage.HandlePostCreated | frontend/src/pages/Social.js:188-190 | the list becomes the unchecked prepend; where the create form is shown the new post heads the shown cards, and a post by the user is shown on either tab |
| Social.SocialPage.HandlePostUpdate | frontend/src/pages/Social.js:192-196 | the list becomes the replacement by id |
| Social.SocialPage.HandlePostDelete | frontend/src/pages/Social.js:198-200 | the list becomes the filter by id |
| Social.SocialPage.SelectTab | frontend/src/pages/Social.js:250 | only the tab changes |
| Social.SocialPage.Shown | frontend/src/pages/Social.js:289-290 | tab 0 shows every listed post; another tab shows exactly the listed posts whose card offers the delete menu |
| Social.SocialPage.ShowsCreatePost | frontend/src/pages/Social.js:265 | the create form appears only where the whole feed is shown |
| Social.SocialPage.ShowsLoadMore | frontend/src/pages/Social.js:304 | the Load More button is shown when hasMore holds and the list is not empty |
| RelativeTime.ElapsedSeconds | frontend/src/components/PostCard.js:86 | `Math.floor((now - date) / 1000)` brackets the millisecond difference |
| RelativeTime.FormatDate | frontend/src/components/PostCard.js:83-98 | each bucket holds exactly its range of whole seconds: under 60, 3600, 86400 and 604800. The number shown is the floor of the seconds in minutes, hours or days, within 1-59, 1-23 and 1-6 |
| RelativeTime.FutureIsJustNow | frontend/src/components/PostCard.js:86-88 | a future timestamp shows "Just now" |
| RelativeTime.FormatDateMonotone | frontend/src/components/PostCard.js:86-91 | a later moment never reads as older than an earlier one |
| RelativeTime.Decimal | frontend/src/components/PostCard.js:89-91 | the number is printed as a non-empty run of decimal digits |
| RelativeTime.DecimalRoundTrip | frontend/src/components/PostCard.js:89-91 | reading the printed digits back gives the number |
| RelativeTime.Render | frontend/src/components/PostCard.js:88-97 | the text of each bucket: "Just now", "<n>m ago", "<n>h ago", "<n>d ago" or the locale date |
| RelativeTime.Label | frontend/src/pages/Notifications.js:74-89 | under a minute the label is "Just now", and from a week on it is the locale date |
| PostCardView.IsLiked | frontend/src/components/PostCard.js:34 | the heart is filled when the user's id is among the likes, absent likes reading as not liked; a filled heart implies a like counter of at least 1 |
| PostCardView.IsOwnPost | frontend/src/components/PostCard.js:35 | the post is the user's own when its author's id is the user's id |
| PostCardView.LikesShown | frontend/src/components/PostCard.js:173 | the like counter is the length of likes, or 0 when it is absent |
| PostCardView.CommentsShown | frontend/src/components/PostCard.js:180 | the comment counter is the length of comments, or 0 when it is absent |
| PostCardView.AfterLike | frontend/src/components/PostCard.js:39-50 | handleLike replaces only likes and likesUsernames |
| PostCardView.LikeButtonFlips | frontend/src/components/PostCard.js:34-46 | after the server's toggle, the heart shows liked exactly when the stored post was not liked |
| PostCardView.AfterLikeKeepsRest | frontend/src/components/PostCard.js:34-46 | a like reply keeps ownership and the comment counter; the like counter becomes the reply's length and isLiked holds exactly when the user is among the likes |
| PostCardView.AfterComment | frontend/src/components/PostCard.js:59-62 | handleComment replaces only comments |
| PostCardView.ShowsDeleteMenu | frontend/src/components/PostCard.js:116 | the delete menu is offered exactly on the user's own posts |
| PostCardView.CommentSendDisabled | frontend/src/components/PostCard.js:246 | the send button is disabled when the trimmed draft is empty or a comment is being submitted |
| PostCardView.SendEnabledIffServerAcceptsText | frontend/src/components/PostCard.js:246 | the send button is enabled exactly when the trimmed draft is non-empty, which is when the comment route does not answer 400; it is disabled while sending |
| PostCardView.DeleteMenuIffAuthor | frontend/src/components/PostCard.js:116 | the delete menu is offered exactly when the user is the stored post's author, the one requester the delete route does not answer 403; like and comment replies do not move it |
| PostCardView.PostCard.constructor | frontend/src/components/PostCard.js:29-31 | the card starts with an empty draft, not submitting and comments hidden |
| PostCardView.PostCard.TypeComment | frontend/src/components/PostCard.js:233 | only the draft changes |
| PostCardView.PostCard.ToggleComments | frontend/src/components/PostCard.js:177 | only the comments' visibility flips |
| PostCardView.PostCard.HandleComment | frontend/src/components/PostCard.js:52-69 | a draft blank after trim sends nothing. Otherwise the untrimmed draft is sent; a reply updates the post and clears the draft, a failure keeps it; submitting ends false. Something is sent exactly when the send button is enabled, and what is sent passes the route's non-empty check |
| NotificationsPage.NotificationText | frontend/src/pages/Notifications.js:91-98 | 'like' gives "liked your post", plus the quoted postText only when that is non-empty. 'comment' gives the quoted commentText, with "undefined" when absent. Any other kind gives '' |
| NotificationsPage.TextTellsKindApart | frontend/src/pages/Notifications.js:91-98 | a like's and a comment's sentences never coincide |
| NotificationsPage.HasUnread | frontend/src/pages/Notifications.js:110 | `notifications.some(n => !n.read)`: some entry is unread |
| NotificationsPage.MarkAllRead | frontend/src/pages/Notifications.js:53 | every entry is read, and count, order and the other fields are kept |
| NotificationsPage.MarkRead | frontend/src/pages/Notifications.js:63-65 | exactly the entries with that id become read, and the others are unchanged |
| NotificationsPage.MarkReadLastUnread | frontend/src/pages/Notifications.js:61-65 | clicking the last unread id leaves nothing unread, hiding the "Mark all read" button |
| NotificationsPage.MarkReadThenAll | frontend/src/pages/Notifications.js:50-65 | marking one is idempotent and commutes with marking all |
| NotificationsPage.NotificationsView.constructor | frontend/src/pages/Notifications.js:28-30 | the page starts empty and loading |
| NotificationsPage.NotificationsView.ShowsMarkAllRead | frontend/src/pages/Notifications.js:110 | the "Mark all as read" button is shown exactly when some notification is unread |
| NotificationsPage.NotificationsView.Fetch | frontend/src/pages/Notifications.js:36-48 | a reply replaces the list, a failure sets 'Failed to load notifications', and loading ends false |
| NotificationsPage.NotificationsView.MarkAll | frontend/src/pages/Notifications.js:50-57 | after a successful PUT everything is read and the button is hidden; a failed PUT leaves the list |
| NotificationsPage.NotificationsView.Click | frontend/src/pages/Notifications.js:59-72 | a request is sent exactly for an unread item, which is marked read on success. Navigation happens unless the request failed |
| CreatePostForm.PayloadOf | frontend/src/components/CreatePost.js:55-57 | the payload has text exactly when it is non-empty, and the image exactly when one is chosen |
| CreatePostForm.SubmitDisabled | frontend/src/components/CreatePost.js:176 | the submit button is disabled while loading, or when there is neither text nor an image |
| CreatePostForm.EnabledSubmitCarriesContent | frontend/src/components/CreatePost.js:176 | an enabled submit button always sends text or an image |
| CreatePostForm.WithAuthor | frontend/src/components/CreatePost.js:62-65 | the post handed on is the response with the current user as author |
| CreatePostForm.FailureMessage | frontend/src/components/CreatePost.js:74 | the server's non-empty message, or 'Failed to create post' |
| CreatePostForm.Form.constructor | frontend/src/components/CreatePost.js:18-22 | the form starts empty, without an image, not loading |
| CreatePostForm.Form.ChangeText | frontend/src/components/CreatePost.js:114 | only the text changes |
| CreatePostForm.Form.ImageChange | frontend/src/components/CreatePost.js:24-36 | a file over 5 MB only sets the error and keeps the earlier image. A file within the limit becomes the image with its preview and clears the error |
| CreatePostForm.Form.RemoveImage | frontend/src/components/CreatePost.js:38-41 | image and preview are cleared |
| CreatePostForm.Form.Submit | frontend/src/components/CreatePost.js:43-78 | with neither text nor image, the error is set and nothing is sent. Otherwise the payload is sent. Success hands on the post and resets text, image and preview; failure shows the message and keeps the form. Loading ends false |
| SignupForm.FormError | frontend/src/pages/Signup.js:45-58 | the first failing check: passwords differ, then a password under 6, then an untrimmed username under 3 |
| SignupForm.Stripped | frontend/src/pages/Signup.js:63 | the payload is the form without confirmPassword |
| SignupForm.WithField | frontend/src/pages/Signup.js:32-36 | only the named field takes the value |
| SignupForm.ClientPasswordCheckImpliesServer | frontend/src/pages/Signup.js:50-53 | a form the page lets through meets the server's password length |
| SignupForm.BlankUsernameReachesServer | frontend/src/pages/Signup.js:55-58 | concrete case: a three-space username passes the page's untrimmed check but the server's trimmed check refuses it |
| SignupForm.SignupPage.constructor | frontend/src/pages/Signup.js:22-30 | the form starts empty, with no error, not loading |
| SignupForm.SignupPage.HandleChange | frontend/src/pages/Signup.js:32-38 | the named field changes and the error is cleared |
| SignupForm.SignupPage.Submit | frontend/src/pages/Signup.js:40-72 | a failed check sets its message and sends nothing. Otherwise the stripped form is sent. Success yields the session; a failure shows the server's message or 'Signup failed. Please try again.'. Loading ends false |

## Left out

- The collections are held as sequences in natural order, not maps keyed by id. Pagination and `findOne` depend on that order; ids are unique, so each id still names one post.
- Mongoose's order for posts with equal `createdAt` is unspecified. `PostRoutes.NewestFirst` fixes one order, a stable insertion sort.
- String lengths count Unicode characters. The schema's 1000-character maxlength, the 50- and 100-character excerpts and the signup page's `.length` checks count UTF-16 code units, so they differ from the model for characters outside the Basic Multilingual Plane.
- Store.UsernameLengthOk, AuthRoutes.SignupInputError and UserRoutes.ProfileInputError: validator.js `isLength` counts a character outside the Basic Multilingual Plane once, as the model does, but does not count the variation selectors U+FE0E and U+FE0F, which the model counts. For example, the username "ab" followed by U+FE0F has length 2 there and is refused with 'Username must be between 3 and 30 characters', while the model counts 3 and accepts it. The password "abcde" followed by U+FE0F fails the server's 6 limit in the same way, and the model accepts it.
- `backend/models/User.js` and `backend/models/Notification.js` are not part of this model. The user's password hashing, its `comparePassword` and any schema constraints on users are not modelled. Login takes `comparePassword` as a parameter, and signup stores the password as given.
- JWT signing is opaque: a token is the id it is signed for.
- `isEmail`, `normalizeEmail` and `toLocaleDateString` are passed in as functions.
- `parseInt` of the query string is a parameter (`Option<int>`, absent for NaN).
- Database and network failures (the `catch` branches answering 500) are not modelled. The only 500s modelled are a schema rejection on create or on the comment save, and a negative skip on the feed listing.
- The like route's 500 on a failed save does not arise: a toggle never makes a stored post invalid.
- `populate` is left out: events and replies carry author ids where the source sends populated `{ _id, username }` objects. A missing `post.user` (a post whose author was deleted) is not modelled.
- GET /api/posts/:id and GET /api/users/profile are not modelled: they are reads with no logic beyond `findById`.
- The notification list, unread-count and mark-read routes are not modelled. Notifications change only through the like and comment routes.
- Concurrent requests (two like requests interleaving between `findById` and `save`) are not modelled; each request is one sequential step.
- Socket delivery and subscription, and the 30-second polling timer, are not modelled. `SocialPage.OnSocket` and `SocialPage.FetchUnreadCount` are called with the event or reply.
- Social.OnUsernameChanged: the source's shallow copy means `updatedPost.user.username = …` also mutates the author object shared with the previous state. The model treats posts as values, so that aliasing is not captured.
- Social.SocialPage.HandlePostCreated, HandlePostUpdate and HandlePostDelete read the current list. In the source they read the `posts` captured when the handler was rendered, so a socket update in between can be lost. That stale read is not modelled.
- The `isLiked` of a `postLiked` event is the liker's view, broadcast to everyone. The feed stores it as sent; the card computes its heart from `likes`.
- Navigation, logout, `window.confirm` and the card's delete menu handler are not modelled; deletion on the page is `SocialPage.HandlePostDelete`. The show-password toggle and JSX rendering are also not modelled.
- Time is integer milliseconds; `Date` parsing and `toLocaleDateString` formatting are not modelled.
- The image upload is not modelled: the uploaded image is the opaque path string the storage middleware returns.
