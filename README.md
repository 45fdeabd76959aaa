# Cone chat: a Dafny model of its server rules and client state

Cone is a Discord-like chat application in two halves.

- The back end is an Express and Mongoose server, under `discord/`, with a socket.io server beside it.
  It stores users, chat rooms and messages in MongoDB.
  It signs users up by e-mailed one-time password (OTP) and signs them in with JWT access and refresh tokens.
  Room members send, edit, delete, mark as read and forward messages over REST and over sockets.
- The front end is a Next.js client, under `discord-frontend/`.
  Its components keep the message list, selections, dialogs and forms in React state and update them on socket events.

This project models both halves and proves what each rule promises.

Back end:

- `Ids`, `Database`: the three collections as one in-memory store (`Database.Store`).
  A document's id is its position; creation appends.
- `MessageModel`, `ChatRoomModel`, `UserModel`: the Mongoose documents, their defaults and schema rules.
  Their instance methods are classes whose methods are proved against pure functions: read and delivery receipts, participants and roles, the OTP state machine and the password-rehash hook.
- `MessageController`, `ChatroomController`, `UserController`, `UserSearch`: the REST handlers.
  Each handler's checks are a pure verdict, in the order the handler makes them.
  Its state change is a commit method over the store, and the handler itself returns the reply it sends or the error it throws.
  The message forwarding loop is kept as a loop, with its invariants.
- `ErrorHandler`, `ApiResponses`, `AsyncHandler`, `AuthMiddleware`: the error and response records, the wrapper that turns a thrown error into a reply, and the `protect` middleware.
- `SocketAuth`, `SocketServer`: the Cookie-header handshake, and the socket server.
  The server is a class holding the presence maps; each event handler is a method that returns the emits it makes.

Front end:

- `ClientTime`, `Throttle`: the client's 15-minute edit test and the `throttle` closure.
- One module per component: `ChatRoomView`, `ForwardModal`, `SelectParticipants`, `CreateRoomForm`, `LoginForm`, `RegisterForm` with `FormChecks`, `MessageInfo`, `DeleteMessageModal`, `TypingIndicator`, `ChatroomInfo`, `ChatLayout`, `UseMessageInfo`.
  React state is a class's fields, and each handler is a method.
  A JavaScript `Set` is a duplicate-free sequence in insertion order.
  The outcome of a network request is a parameter.

`Text` and `Collections` hold the string and array helpers both halves rely on: `trim`, case mapping, `split` and `join`, `filter`, the set toggles, and a stable sort.

The handlers' checks, branches and messages follow the source as written, including where they misbehave; the two places where the model compares more simply than the source (populated documents compared as ids, unescaped name patterns compared as strings) are named under "## Left out". Each case below is stated by the members named.

- `AsyncHandler` reads `err.status`, but `ApiError` sets only `statusCode`. Every thrown `ApiError` is therefore answered with status 500 (`AsyncHandler.ApiErrorsAnswer500`).
- The room schema's role enum has no `moderator`. Permission checks accept a moderator, but a room that holds one cannot be saved (`ChatRoomModel.RolesStorableIff`).
- The room handlers `addParticipant` and `removeParticipant` use an `activeUsers` map that is not in scope there. Once every check and the save have passed, they answer 500.
- The room panel asks the server to remove a member under the key `userId`. The socket handler reads `userIdToRemove`, so it refuses every removal the panel asks for (`ChatroomInfo.PanelRemovalAlwaysRefused`).
- The server accepts an edit up to and including 15 minutes after sending. The client offers editing only strictly before 15 minutes (`ClientTime.ClientWindowInsideServerWindow`).
- The menu measures the edit window from the time the chat room hands it, `msg.timestamp || msg.createdAt`, and a `message_edited` event sets `timestamp` to the edit time. The server measures from `createdAt`. So a message edited once is offered Edit for 15 minutes after that edit, past the server's window (`MessageInfo.EditedMessageOfferedPastServerWindow`).
- The chat room's automatic `mark_as_read` looks for the user's id in `readBy` with `includes`, but the server's `readBy` holds `{user, readAt}` receipt objects. The id is never found, so every message with a receipt array is requested again on each change of the list, including those the user has already read (`ChatRoomView.ReceiptsNeverMatch`, `ChatRoomView.ReadMessageRequestedAgain`).
- `handleRoomCreated` prepends a room without checking for it. A room that `new_room` has already listed then appears twice (`ChatLayout.CreatedAfterNewRoomDuplicates`).
- After a successful HTTP forward the dialog calls the parent's `onForward` with the same room and message ids (`ForwardModal.ForwardDialog.HandleForward`). The chat room's `onForward` emits `forward_messages` with them (discord-frontend/src/components/chat/ChatRoom.tsx:565-571), so every forward from the chat room is carried out twice, once over HTTP and once over the socket.

## Model

| member | source | states |
|---|---|---|
| ErrorHandler.NewApiError | discord/utils/errorHandler.js:2-20 | keeps the status it is given; an absent message becomes "Something went wrong" and absent details become the empty list; `success` is false |
| ErrorHandler.Raise | discord/utils/errorHandler.js:2-20 | the two-argument form keeps the status and message, with no details and `success` false |
| ApiResponses.NewApiResponse | discord/utils/apiResponse.js:1-8 | keeps status and data; the message defaults to "Success"; `success` holds exactly when the status is below 400 |
| ApiResponses.Respond | discord/utils/apiResponse.js:1-8 | the three-argument form keeps all three, with `success` exactly for a status below 400 |
| AsyncHandler.Send | discord/utils/apiResponse.js:1-8 | a handler's own reply carries its status and data in an envelope whose `success` is the status test |
| AsyncHandler.Throw | discord/utils/errorHandler.js:2-20 | a thrown `ApiError` carries the status and the message it was raised with, the message being what the client is answered with |
| AsyncHandler.Handle | discord/utils/asyncHandler.js:4-13 | a sent reply goes out unchanged; a thrown error is answered `{success: false, message}` with its `status` when that is truthy, else 500 |
| AsyncHandler.ApiErrorsAnswer500 | discord/utils/asyncHandler.js:10-10 | every `ApiError` reaches the client as a 500, whatever status it was raised with |
| AuthMiddleware.FirstTruthy | discord/middleware/authMiddleware.js:8-10 | the `\|\|` chain yields a value exactly when some source is truthy, and then the first truthy one, never the empty string |
| AuthMiddleware.BearerToken | discord/middleware/authMiddleware.js:9-9 | the Authorization source is present exactly when the header is |
| AuthMiddleware.AccessTokenPrecedence | discord/middleware/authMiddleware.js:8-10 | a non-empty cookie wins; otherwise a non-empty Bearer header; otherwise a non-empty body token; otherwise none |
| AuthMiddleware.Authenticate | discord/middleware/authMiddleware.js:7-26 | no token gives 401; a token `jwt.verify` rejects throws; a verified id names a stored user exactly when the request passes as that user; any other refusal is 401 |
| AuthMiddleware.IncomingRequest.Protect | discord/middleware/authMiddleware.js:7-26 | takes the `Authenticate` decision and sets `req.user` to the lookup's result (the user, or nothing) once a token is verified; otherwise `req.user` is unchanged |
| UserModel.NewUser | discord/models/userModel.js:7-54 | a new user has the trimmed name, the trimmed lower-cased e-mail and the given password; it is unverified, with no refresh token, OTP or expiry |
| UserModel.OtpNumber | discord/models/userModel.js:93-93 | `Math.floor(100000 + Math.random() * 900000)` for a draw in [0, 1) lies between 100000 and 999999 |
| UserModel.DecimalString | discord/models/userModel.js:93-93 | `toString()` of a number is a non-empty string of decimal digits |
| UserModel.DecimalRoundTrip | discord/models/userModel.js:93-93 | reading the printed number back gives the number |
| UserModel.SixDigits | discord/models/userModel.js:93-93 | every code drawn prints with exactly six digits |
| UserModel.IssuedOtpAccepted | discord/models/userModel.js:92-113 | the stored digest accepts the issued code up to and including the expiry instant 10 minutes later, and nothing afterwards; it accepts only candidates with the same digest |
| UserModel.UserDocument.SetPassword | discord/models/userModel.js:56-61 | assigning the password changes only that field and marks the path modified |
| UserModel.UserDocument.Restage | discord/controller/userController.js:84-89 | re-registering an unverified account replaces the name (trimmed), the password and the registration data, and marks the password modified |
| UserModel.UserDocument.GenerateOTP | discord/models/userModel.js:92-100 | returns a six-digit code; stores only its sha256 digest and an expiry 10 minutes after now; nothing else changes |
| UserModel.UserDocument.ClearOTP | discord/models/userModel.js:115-118 | unsets code and expiry, after which no candidate is accepted at any time |
| UserModel.UserDocument.RunSaveHook | discord/models/userModel.js:56-61 | the password is replaced by its bcrypt hash exactly when it was modified; the change tracking resets; nothing else changes |
| UserController.FirstWhere | discord/controller/userController.js:69-69 | `findOne` finds the first matching user, and none before it matches; when it finds nothing, no user matches |
| UserController.FindByEmailFirst | discord/controller/userController.js:133-133 | a search by e-mail finds exactly the first user holding that e-mail |
| UserController.CheckUsername | discord/controller/userController.js:37-54 | a missing or blank name is a 400 and nothing else is; otherwise 200 with `available` true exactly when no user has the trimmed name up to case; every refusal carries the message the source throws for that check |
| UserController.FirstUnfilled | discord/controller/userController.js:61-63 | the fields before the returned index are filled, and the field at it is not |
| UserController.BlankCheck | discord/controller/userController.js:61-63 | passes exactly when every field is present and not blank; the first bad field decides: a blank one is a 400, an absent one a TypeError |
| UserController.FilledThree | discord/controller/userController.js:61-61 | three fields pass the `some` check exactly when each of them is filled |
| UserController.FilledTwo | discord/controller/userController.js:171-171 | two fields pass the `some` check exactly when each of them is filled |
| UserController.SendOtpVerdict | discord/controller/userController.js:61-81 | passing implies filled fields, a password of at least 6 characters, no verified account with the e-mail and no verified account with the name; refusals are 400 or 409; a refusal with a field unfilled is the blank check's 400, a 400 with every field filled is the short password, and a 409 comes only after both; a crash happens exactly when the blank check crashes |
| UserController.UpdatePending | discord/controller/userController.js:84-103 | the re-registered account gets the new name, the hashed password, the registration data and a fresh six-digit code's digest |
| UserController.CreatePending | discord/controller/userController.js:90-103 | the new account gets the given fields, the hashed password and a fresh six-digit code's digest |
| UserController.CommitPending | discord/controller/userController.js:83-117 | the existing account is overwritten; a new one is kept only when the e-mail went out |
| UserController.SendOtp | discord/controller/userController.js:56-122 | a refused check throws its status with its own message ("All fields are reqired", the short password, the verified e-mail, the taken name) and a crash throws a TypeError, both leaving the users unchanged; otherwise the account is saved; a failed e-mail is a 500, a sent one a 200 with the e-mail |
| UserController.RegisterVerdict | discord/controller/userController.js:127-141 | passes exactly when e-mail and code are truthy, an account has the e-mail, and its OTP state accepts the code now; missing fields are a 400 and an unknown e-mail a 404 |
| UserController.Registered | discord/controller/userController.js:143-150 | the registered account is verified, has no OTP, expiry or registration data, holds the new refresh token, and keeps name, e-mail, password and creation time |
| UserController.StoreRefreshToken | discord/controller/userController.js:8-15 | stores the new refresh token and saves it, leaving an unmodified password alone |
| UserController.MarkRegistered | discord/controller/userController.js:143-150 | writes exactly the registered account in place of the found one |
| UserController.RegisterUser | discord/controller/userController.js:125-165 | a refused check throws its status with its own message (missing fields, unknown e-mail, invalid or expired OTP) and changes nothing; otherwise the found account becomes registered, and the reply is 201 with its profile and both cookies |
| UserController.SendThenRegister | discord/controller/userController.js:56-165 | right after a successful `sendOTP`, `registerUser` with the e-mailed code passes exactly until the code expires 10 minutes later; afterwards the account is verified and the code is spent |
| UserController.LoginVerdict | discord/controller/userController.js:171-188 | passes exactly when both fields are filled, the account exists, is verified and bcrypt accepts the password; an unknown e-mail is 404 and an unverified account 403, and only those give them; a 400 with both fields filled is a password bcrypt rejects, and a refusal with a field unfilled is the blank check's 400 |
| UserController.LoginUser | discord/controller/userController.js:167-206 | a refused check throws its status with its own message ("All fields are reqired" for a blank field, "User not found", "Please verify your email first", "Invalid credentials" for a rejected password) and a crash throws a TypeError, both changing nothing; otherwise the new refresh token is stored and the reply is 200 with the profile and both cookies |
| UserController.SignUpThenLogin | discord/controller/userController.js:56-206 | after `sendOTP` and `registerUser`, logging in with the same e-mail and password passes every check of `loginUser` |
| UserController.LogoutUser | discord/controller/userController.js:208-218 | the user's stored refresh token is unset (a missing user changes nothing); the reply is 200 |
| UserController.RefreshVerdict | discord/controller/userController.js:222-241 | passes exactly when a token is presented, verifies, names a stored user, and equals that user's stored refresh token; refusals are 401 |
| UserController.RefreshAccessToken | discord/controller/userController.js:220-250 | a refusal is 401 and a token that does not verify throws, both changing nothing; otherwise the refresh token is rotated and the reply is 200 with both cookies; every refusal carries the message the source throws for that check |
| UserController.RefreshTokenSingleUse | discord/controller/userController.js:238-244 | after a rotation the consumed token is refused, and so is every token after a logout |
| UserController.GetUser | discord/controller/userController.js:252-260 | 404 exactly when the user does not exist; otherwise 200 with the account without its password; every refusal carries the message the source throws for that check |
| UserSearch.CharHits | discord/controller/userController.js:328-333 | the count of matching characters never exceeds the term's length |
| UserSearch.CharHitsAll | discord/controller/userController.js:328-333 | every character of the term is counted exactly when each one occurs in the name |
| UserSearch.ShareBounds | discord/controller/userController.js:335-335 | `matches / length * 40` lies in [0, 40] and is 40 exactly when every character matched |
| UserSearch.RelevanceBands | discord/controller/userController.js:314-336 | the score is 100 exactly for equal names, 80 exactly for a proper prefix, 60 exactly for a contained term that is not a prefix, and otherwise at most 40, with 40 exactly when every character of the term occurs in the name (all up to case) |
| UserSearch.RelevanceIgnoresCase | discord/controller/userController.js:315-316 | upper-casing either argument leaves the score unchanged |
| UserSearch.CalculateRelevanceScore | discord/controller/userController.js:314-336 | the counting loop computes exactly the relevance score whose bands are proved above |
| UserSearch.SearchPatternCons | discord/controller/userController.js:281-284 | the pattern of a query of two or more characters is its escaped first character, `.*`, and the pattern of the rest |
| UserSearch.ParseEscaped | discord/controller/userController.js:283-283 | the engine reads an escaped character followed by `.*` as that literal followed by a run of anything, for every character including the metacharacters |
| UserSearch.ParseSearchPattern | discord/controller/userController.js:281-284 | escaping is sound: the engine reads the whole pattern back as the query's characters as literals with `.*` between them |
| UserSearch.InOrderSomewhere | discord/controller/userController.js:286-289 | the characters occur in order in a name exactly when they occur in order from some position of it |
| UserSearch.RunMatches | discord/controller/userController.js:284-284 | on text without line feeds, a leading `.*` lets the rest match from some later position, and only so |
| UserSearch.FuzzyMatchesHere | discord/controller/userController.js:281-289 | on text without line feeds, the query's expression matches at the start exactly when the query's characters occur in order from there |
| UserSearch.FuzzyFindsInOrder | discord/controller/userController.js:281-289 | the fuzzy search finds a name without line feeds exactly when the query's characters occur in it in order, ignoring case |
| UserSearch.Where | discord/controller/userController.js:286-289 | `find` returns exactly the ids the filter accepts, each once, in storage order |
| UserSearch.SearchUserFuzzy | discord/controller/userController.js:262-312 | a missing or empty query is a 400 and nothing else is; the exact search answers the first 15 exact matches; the fuzzy search answers a permutation of all fuzzy matches sorted by non-increasing relevance; the status is 404 exactly for an empty answer and 200 otherwise; every refusal carries the message the source throws for that check |
| MessageModel.TombstoneValid | discord/controller/messageController.js:145-145 | the replacement text of a deleted message is itself valid content, so the deletion always saves |
| MessageModel.TrimmedContentOk | discord/models/messageModel.js:4-9 | text saves exactly when, once trimmed, it is non-blank and at most 1000 characters long |
| MessageModel.NewMessage | discord/models/messageModel.js:3-102 | a new message holds the trimmed text and the given fields; it is forwarded exactly when it has an origin; it is not edited or deleted and has no receipts |
| MessageModel.Marked | discord/models/messageModel.js:130-145 | after marking, the user has a receipt; the old list is a prefix of the new one, which is at most one entry longer; a user who already had a receipt changes nothing; no other user gains or loses a receipt |
| MessageModel.MarkedIdempotent | discord/models/messageModel.js:130-145 | marking twice is marking once, whatever the second time |
| MessageModel.HasReceiptIffCount | discord/models/messageModel.js:131-131 | `some` finds a receipt for a user exactly when the list counts at least one |
| MessageModel.MarkedCountOne | discord/models/messageModel.js:130-145 | a list with at most one receipt for a user holds exactly one after marking: marking never duplicates |
| MessageModel.MessageDocument.MarkAsRead | discord/models/messageModel.js:130-136 | only `readBy` changes, and it becomes the marked list |
| MessageModel.MessageDocument.MarkAsDelivered | discord/models/messageModel.js:139-145 | only `deliveredTo` changes, and it becomes the marked list |
| ChatRoomModel.RolesStorableIff | discord/models/chatRoomModel.js:29-33 | a participant list is storable exactly when every entry has the role 'admin' or 'member' |
| ChatRoomModel.StorableAfterChange | discord/models/chatRoomModel.js:106-128 | adding, removing and re-roling participants keep a storable list storable, given a storable role |
| ChatRoomModel.FindParticipant | discord/models/chatRoomModel.js:107-107 | `find` gives nothing exactly for a non-participant, and otherwise the first entry naming the user |
| ChatRoomModel.FindParticipantFirst | discord/models/chatRoomModel.js:107-107 | the first entry naming the user is the one `find` returns |
| ChatRoomModel.RoleOf | discord/models/chatRoomModel.js:147-150 | null exactly for a non-participant; otherwise the role of the first entry naming the user |
| ChatRoomModel.WithParticipant | discord/models/chatRoomModel.js:106-115 | afterwards the user participates; a present user leaves the list unchanged; otherwise one entry with the given role and the current time is appended; users stay unique |
| ChatRoomModel.WithoutParticipant | discord/models/chatRoomModel.js:117-120 | afterwards the user does not participate; exactly the other entries remain; a non-participant changes nothing |
| ChatRoomModel.WithoutParticipantAppend | discord/models/chatRoomModel.js:118-118 | the filter distributes over concatenation, so the order of the others is kept |
| ChatRoomModel.WithoutParticipantOthers | discord/models/chatRoomModel.js:117-120 | removing one user leaves every other user's membership as it was |
| ChatRoomModel.WithRole | discord/models/chatRoomModel.js:122-128 | a participant's role becomes the new role, and every other entry and every user stays as it was; a non-participant changes nothing |
| ChatRoomModel.Touched | discord/models/chatRoomModel.js:130-134 | the first entry naming the user gets the current time as `lastSeen`; no user or role changes, and no other entry |
| ChatRoomModel.TouchedKeepsRoles | discord/models/chatRoomModel.js:130-137 | updating `lastSeen` changes nobody's membership or role |
| ChatRoomModel.RoomsOf | discord/models/chatRoomModel.js:153-156 | the query selects exactly the active rooms listing the user, each once |
| ChatRoomModel.FindByUser | discord/models/chatRoomModel.js:152-157 | exactly the active rooms listing the user, each once, with the most recent activity first |
| ChatRoomModel.SortedRooms | discord/models/chatRoomModel.js:156-156 | sorting by `lastActivity` descending keeps the same rooms, each once, in non-increasing activity |
| ChatRoomModel.ChatRoomDocument.AddParticipant | discord/models/chatRoomModel.js:106-115 | only the participant list changes, and it becomes the list with the participant added |
| ChatRoomModel.ChatRoomDocument.RemoveParticipant | discord/models/chatRoomModel.js:117-120 | only the participant list changes, and it becomes the filtered list |
| ChatRoomModel.ChatRoomDocument.UpdateParticipantRole | discord/models/chatRoomModel.js:122-128 | only the participant list changes, and it becomes the re-roled list |
| ChatRoomModel.ChatRoomDocument.UpdateLastSeen | discord/models/chatRoomModel.js:130-137 | the participant's `lastSeen` and the room's `lastActivity` become the current time; nothing else changes |
| MessageController.EditWindowBoundary | discord/controller/messageController.js:111-114 | a message may be edited exactly while at most 15 minutes old: at exactly 15 minutes it still may, one millisecond later it may not |
| MessageController.SendVerdict | discord/controller/messageController.js:50-61 | the send passes exactly for non-blank content in an existing room that lists the sender; blank content is 400, an unknown room 404, a non-participant 403 |
| MessageController.AfterSend | discord/controller/messageController.js:71-75 | the room then points at the new message, is active now, and the sender's `lastSeen` is now; name, type, creator and validity are kept |
| MessageController.CommitSend | discord/controller/messageController.js:63-75 | for content and type the schema accepts, exactly one message is appended, with the trimmed text, and only its room changes, as `AfterSend` says |
| MessageController.SendMessage | discord/controller/messageController.js:48-85 | a refused check throws its status and changes nothing; text over 1000 characters or a `messageType` outside the schema's enum fails validation (a 500) and changes nothing; otherwise 201, one trimmed message created and its room updated; every refusal carries the message the source throws for that check |
| MessageController.EditVerdict | discord/controller/messageController.js:91-114 | the edit passes exactly for non-blank content, an existing message, its sender, and at most 15 minutes after it was created; 404 and 403 exactly for the unknown message and the wrong sender; 400 exactly for blank content or the sender's own message past the window |
| MessageController.Edited | discord/controller/messageController.js:116-118 | the edited message holds the trimmed text, is marked edited now, and keeps sender, room, creation time, receipts and deletion flag |
| MessageController.CommitEdit | discord/controller/messageController.js:116-119 | only the edited message changes |
| MessageController.EditMessage | discord/controller/messageController.js:87-125 | a refused check throws its status and changes nothing; over-long text fails validation; otherwise 200 and the message is edited; every refusal carries the message the source throws for that check |
| MessageController.DeleteVerdict | discord/controller/messageController.js:130-141 | the delete passes exactly for an existing message in an existing room when the user sent it or is an admin or moderator there; 404 exactly for an unknown message; a crash exactly when the message's room is gone |
| MessageController.Tombstoned | discord/controller/messageController.js:143-146 | a deleted message is flagged, stamped now, holds the replacement text (itself valid content) and keeps its type, so a valid message stays valid; sender, room, receipts and per-user deletions are kept |
| MessageController.TombstonedTwice | discord/controller/messageController.js:143-146 | deleting again changes only the deletion time |
| MessageController.CommitDelete | discord/controller/messageController.js:143-146 | only the deleted message changes |
| MessageController.DeleteMessage | discord/controller/messageController.js:127-152 | a refusal throws its status and a missing room crashes, both changing nothing; otherwise 200 and the message is replaced by its deleted form; every refusal carries the message the source throws for that check |
| MessageController.RoomVerdict | discord/controller/messageController.js:162-169 | the room checks pass exactly for an existing room listing the user; 404 exactly for an unknown room, 403 exactly for a non-participant |
| MessageController.Stamped | discord/models/messageModel.js:130-145 | a delivery stamp gives another sender's message the user's delivery receipt and leaves `readBy` alone; a read stamp gives the read receipt and leaves `deliveredTo` alone; text, sender, room and deletion are kept (comparing ids, where the source compares a populated document; see "Left out") |
| MessageController.StampedIdempotent | discord/models/messageModel.js:130-145 | a second stamp of the same kind changes nothing |
| MessageController.StampAll | discord/controller/messageController.js:176-178 | the loop over the ids keeps the number of messages |
| MessageController.StampAllPointwise | discord/controller/messageController.js:176-178 | after the loop, every listed message is stamped once and every other message is untouched, whatever the order and repetition of the ids |
| MessageController.StampMessage | discord/controller/messageController.js:39-41 | loading, stamping and saving one message changes only that message, to its stamped form |
| MessageController.StampMessages | discord/controller/messageController.js:176-178 | the handler's loop leaves exactly the stamped messages |
| MessageController.History | discord/controller/messageController.js:26-30 | the query returns exactly the room's messages not deleted for everyone, each once, newest first |
| MessageController.Visible | discord/controller/messageController.js:26-29 | the filter keeps exactly the room's undeleted messages, in storage order |
| MessageController.SortedHistory | discord/controller/messageController.js:30-30 | sorting by creation time descending keeps the same messages, each once, newest first |
| MessageController.Page | discord/controller/messageController.js:31-32 | `skip` then `limit` returns a prefix of what follows the skipped ids, of length the limit's magnitude (all of it for a limit of 0) capped by what is left |
| MessageController.Reversed | discord/controller/messageController.js:45-45 | `reverse` puts element `k` at position `n - 1 - k` |
| MessageController.Fetch | discord/controller/messageController.js:26-32 | the documents a query returns are those of its ids, in order |
| MessageController.GetMessages | discord/controller/messageController.js:7-46 | room checks as `RoomVerdict`; a negative skip crashes; otherwise the page of the history is answered oldest first with 200, and exactly the shown messages gain the reader's delivery receipt when someone else sent them; every refusal carries the message the source throws for that check |
| MessageController.InRoom | discord/controller/messageController.js:171-174 | the query keeps exactly the listed ids that exist and belong to the room |
| MessageController.KeepRoom | discord/controller/messageController.js:173-173 | the room filter keeps exactly the ids of that room |
| MessageController.MarkAsRead | discord/controller/messageController.js:154-184 | a missing id array is 400; room checks as `RoomVerdict`; refusals change nothing; otherwise 200, and exactly the listed messages of this room gain the read receipt; every refusal carries the message the source throws for that check |
| MessageController.UnreadFrom | discord/controller/messageController.js:198-203 | the ids from a position on that count as unread, each once |
| MessageController.Unread | discord/controller/messageController.js:198-203 | exactly the room's messages from others, not deleted, without the user's read receipt, each once |
| MessageController.ReadingClearsUnread | discord/controller/messageController.js:154-203 | after `markAsRead` of some ids, the unread messages are exactly the previous ones minus those ids; reading all of them brings the count to zero |
| MessageController.GetUnreadCount | discord/controller/messageController.js:186-208 | room checks as `RoomVerdict`; otherwise 200 with the number of unread messages, and nothing changes; every refusal carries the message the source throws for that check |
| MessageController.Outsider | discord/controller/messageController.js:240-244 | the loop finds no outsider exactly when the user is in every target room; otherwise it names a target room without the user, every room before it in the loop holding the user |
| MessageController.FirstOutsider | discord/controller/messageController.js:240-244 | when some target room lacks the user, the room the loop stops at is a target room without the user, and every target room stored before it holds the user |
| MessageController.ForwardVerdict | discord/controller/messageController.js:213-244 | the forward passes exactly when both id lists are non-empty, each id names a distinct existing message or room, and the user is in every target room; 400 exactly when either list is missing or empty, 404 exactly when both are listed but some id is missing or repeated, 403 exactly when every id is found but some target room lacks the user |
| MessageController.ForwardedCopy | discord/controller/messageController.js:252-265 | a copy is sent by the forwarder into the target room, keeps the original's type, and records original, original sender, original room, forwarder and time |
| MessageController.ForwardedCopyValid | discord/controller/messageController.js:253-253 | the copy's text is the given text trimmed when one is given, else the original text, and the copy passes validation |
| MessageController.Row | discord/controller/messageController.js:250-291 | the inner loop makes one copy of the message per target room, in target order |
| MessageController.Copies | discord/controller/messageController.js:249-292 | the nested loops make one copy per message and target room |
| MessageController.OffsetIsProduct | discord/controller/messageController.js:249-292 | the row of message `i` starts at `i * n` for `n` target rooms |
| MessageController.CopiesLayout | discord/controller/messageController.js:249-292 | copy number `i * n + j` is message `i` forwarded into target room `j` |
| MessageController.RowsLayout | discord/controller/messageController.js:249-292 | copy number `i * n + j` is entry `j` of message `i`'s row |
| MessageController.PointedAt | discord/controller/messageController.js:268-270 | after the inner loop, target room `j` points at copy `end - n + j` and is active now |
| MessageController.PointedElsewhere | discord/controller/messageController.js:268-270 | a room that is not a target is untouched |
| MessageController.PointedPointwise | discord/controller/messageController.js:268-270 | room by room: each target points at its copy and is active now, every other room is untouched |
| MessageController.PointedTwice | discord/controller/messageController.js:249-292 | a later round of `lastMessage` updates overwrites an earlier round completely |
| MessageController.ForwardStep | discord/controller/messageController.js:252-270 | one copy is appended and its target room then points at it and is active now; nothing else changes |
| MessageController.ForwardOne | discord/controller/messageController.js:250-291 | one pass of the inner loop appends the message's row of copies and points each target room at its copy |
| MessageController.ForwardRound | discord/controller/messageController.js:249-292 | one pass of the outer loop takes the store from round `i` to round `i + 1` |
| MessageController.NextRound | discord/controller/messageController.js:249-292 | appending the next row and pointing the rooms at it is exactly the store after one more round |
| MessageController.CommitForward | discord/controller/messageController.js:246-292 | all copies are appended message by message and room by room; with messages to forward, each target room ends pointing at its copy of the last message |
| MessageController.ForwardMessage | discord/controller/messageController.js:210-297 | a refused check throws its status with the refusal's own message (`ForwardRefusal`); a blank custom text fails validation; both change nothing; otherwise 201 with every copy, the copies appended and each target room pointed at its last copy |
| MessageController.LastCopy | discord/controller/messageController.js:249-292 | the last `n` messages after a forward are the copies of the last forwarded message, in target order |
| MessageController.ForwardTargetPointsAtLastCopy | discord/controller/messageController.js:249-292 | after a forward, each target room points at the copy of the last forwarded message made for it, and was active now |
| ChatroomController.ExistingPrivate | discord/controller/chatroomController.js:19-22 | `findOne` returns the first private room, active or not, that lists both users; when it returns nothing, no such room exists |
| ChatroomController.CreateVerdict | discord/controller/chatroomController.js:10-16 | the input checks pass exactly for a non-blank name and, for a private room, exactly one other participant; every refusal is 400 |
| ChatroomController.InitialParticipants | discord/controller/chatroomController.js:40-43 | the creator comes first as admin, then each requested user as a member, in request order, all joined now |
| ChatroomController.InitialParticipantsRoles | discord/controller/chatroomController.js:40-43 | the creator's role is admin, the room has an admin, every role is storable, and the members are exactly the creator and the requested users |
| ChatroomController.NewRoom | discord/controller/chatroomController.js:35-44 | the new room holds the trimmed name and description, the type, the creator and the initial participants, has no message, is active and dated now; with a non-blank name it saves exactly when name and description fit their length limits |
| ChatroomController.CreateNew | discord/controller/chatroomController.js:30-48 | a participant who is not a stored user, or one named twice, is a 400; a room the schema rejects (a name or description too long, or a `type` outside 'private', 'group' and 'Public') crashes; both change nothing; otherwise exactly one room is appended and answered with 201; every refusal carries the message the source throws for that check |
| ChatroomController.CreateChatRoom | discord/controller/chatroomController.js:7-50 | a refused input check is 400; an existing private room with the other user is answered with 200 and nothing is created; otherwise as `CreateNew`; every refusal carries the message the source throws for that check |
| ChatroomController.GetUserChatRooms | discord/controller/chatroomController.js:52-58 | 200 with exactly the requester's active rooms, each once, most recently active first |
| ChatroomController.Seen | discord/controller/chatroomController.js:77-77 | the room is active now, and the visitor's `lastSeen` is now; validity is kept |
| ChatroomController.GetChatRoom | discord/controller/chatroomController.js:60-83 | room checks as `RoomVerdict`, changing nothing when refused; otherwise the visit is recorded and the room answered with 200; every refusal carries the message the source throws for that check |
| ChatroomController.AddVerdict | discord/controller/chatroomController.js:89-106 | the addition passes exactly for an existing non-private room whose admin or moderator asks, and a stored user; 403 exactly for other requesters, 400 exactly for a private room |
| ChatroomController.Joined | discord/controller/chatroomController.js:108-108 | the user is then a participant, added as `addParticipant` adds; name, type and activity are kept, and validity too for a storable role |
| ChatroomController.CommitJoin | discord/controller/chatroomController.js:108-108 | only the one room changes, to its joined form |
| ChatroomController.AddParticipant | discord/controller/chatroomController.js:85-120 | a refused check throws its status and changes nothing; otherwise the user is saved as a member and the handler then fails on the undefined `activeUsers`; every refusal carries the message the source throws for that check |
| ChatroomController.RemoveVerdict | discord/controller/chatroomController.js:126-138 | the removal passes exactly for an existing non-private room when an admin or moderator asks or the user removes themself; 404 and 403 exactly as the checks say |
| ChatroomController.Dropped | discord/controller/chatroomController.js:140-140 | the user is then not a participant, every other user's membership is kept, and so are name, type, activity and validity |
| ChatroomController.CommitDrop | discord/controller/chatroomController.js:140-140 | only the one room changes, to its dropped form |
| ChatroomController.RemoveParticipant | discord/controller/chatroomController.js:122-151 | a refused check throws its status and changes nothing; otherwise the user's entries are removed and saved, and the handler then fails on the undefined `activeUsers`; every refusal carries the message the source throws for that check |
| ChatroomController.ManageVerdict | discord/controller/chatroomController.js:157-165 | the update passes exactly for an existing room whose admin or moderator asks; 404 for an unknown room, 403 for other requesters |
| ChatroomController.Renamed | discord/controller/chatroomController.js:167-168 | a non-empty name is trimmed and set; a given description is trimmed and set, a `null` one removed, a missing one kept; participants, type and activity are kept |
| ChatroomController.RenamedValid | discord/controller/chatroomController.js:167-170 | the save succeeds exactly when a new name is not blank and fits, and a new description fits |
| ChatroomController.ApplyUpdate | discord/controller/chatroomController.js:167-168 | the loaded document becomes the renamed room |
| ChatroomController.UpdateChatRoom | discord/controller/chatroomController.js:153-175 | a refused check throws its status; a renamed room the schema rejects crashes; both change nothing; otherwise the renamed room is saved and answered with 200; every refusal carries the message the source throws for that check |
| ChatroomController.LeaveVerdict | discord/controller/chatroomController.js:180-199 | leaving passes exactly for an existing non-private room that lists the user; 404 exactly for an unknown room |
| ChatroomController.FindRole | discord/controller/chatroomController.js:223-223 | `find` gives nothing exactly when no entry has the role, otherwise the first entry with it |
| ChatroomController.Promoted | discord/controller/chatroomController.js:215-227 | no user changes, and the only entry that may change is a member who becomes admin; storable roles stay storable |
| ChatroomController.Settled | discord/controller/chatroomController.js:207-230 | an empty room is deactivated; otherwise the fallback promotion is applied; name, type and creator are kept, and so is validity |
| ChatroomController.LeaveMembership | discord/controller/chatroomController.js:177-235 | after leaving, the leaver is not a participant, every other user's membership is kept, and the room stays valid |
| ChatroomController.LeaveKeepsAdmin | discord/controller/chatroomController.js:213-229 | an admin who leaves an occupied room never leaves it without an admin |
| ChatroomController.CommitSettle | discord/controller/chatroomController.js:207-230 | only the one room changes, to its settled form |
| ChatroomController.LeaveChatRoom | discord/controller/chatroomController.js:177-235 | a refused check throws its status and changes nothing; otherwise the room becomes the room after the leave and the answer is 200; every refusal carries the message the source throws for that check |
| SocketAuth.CookieOf | discord/sockets/socket.js:15-15 | the name holds no `=` and neither does the value; the value is undefined exactly when the trimmed piece has no `=` |
| SocketAuth.DecodeAll | discord/sockets/socket.js:14-17 | the entries exist exactly when every value decodes; then entry `i` is piece `i`'s name with its decoded value |
| SocketAuth.FromEntries | discord/sockets/socket.js:13-18 | `Object.fromEntries` has exactly the entries' names as keys, each mapped to the value of its last entry |
| SocketAuth.Pieces | discord/sockets/socket.js:14-15 | the header yields one cookie per `;`-separated piece, in order |
| SocketAuth.AuthenticateSocket | discord/sockets/socket.js:10-44 | the handshake is accepted exactly when the cookies parse, hold a non-empty `accessToken`, and the token verifies to the id of a stored user, who is then the socket's user; every rejection carries one of the three error texts |
| SocketAuth.PairText | discord/sockets/socket.js:15-15 | `name=value` of safe parts is non-empty, trimmed, free of `;`, and splits on `=` back into name and value |
| SocketAuth.CookieItemParses | discord/sockets/socket.js:14-15 | each piece of a browser-written header parses back into its own cookie |
| SocketAuth.Cookies | discord/sockets/socket.js:14-17 | cookie `i` is pair `i` with its value present |
| SocketAuth.HeaderPieces | discord/sockets/socket.js:14-15 | a browser-written header splits into its cookies, in order |
| SocketAuth.Entries | discord/sockets/socket.js:14-17 | entry `i` is name `i` with its decoded value |
| SocketAuth.CookieRoundTrip | discord/sockets/socket.js:12-18 | a header written from safe pairs parses back into each name mapped to the decoding of its last value |
| SocketAuth.BareCookieIsUndefined | discord/sockets/socket.js:15-16 | a lone name with no `=` becomes the string "undefined" |
| SocketAuth.AccessTokenNameSafe | discord/sockets/socket.js:21-21 | the name `accessToken` is a safe cookie name |
| SocketAuth.AccessTokenOnly | discord/sockets/socket.js:12-21 | a header holding only the access token gives an object holding only that token |
| SocketAuth.SocketAgreesWithProtect | discord/sockets/socket.js:10-44 | with the access-token cookie alone, the socket handshake accepts a user exactly when the HTTP middleware would let the same user through |
| SocketServer.Connected | discord/sockets/socket.js:64-65 | the user is then online on the new socket, which belongs to the user; every other user's entry is kept; consistent maps stay consistent for a new socket |
| SocketServer.Disconnected | discord/sockets/socket.js:607-608 | the user is then offline and the socket forgotten; every other user's entry is kept; consistent maps stay consistent |
| SocketServer.StaleDisconnect | discord/sockets/socket.js:64-65 | a user connected on two sockets who closes the older one is shown offline while the newer socket stays live |
| SocketServer.ConnectDisconnect | discord/sockets/socket.js:59-615 | connecting and then disconnecting the same socket restores the maps |
| SocketServer.Recipients | discord/sockets/socket.js:194-196 | the delivery loop visits exactly the participants other than the sender who are online (comparing ids, where the source compares a populated document; see "Left out") |
| SocketServer.Delivered | discord/sockets/socket.js:195-199 | only `deliveredTo` changes; a user has a receipt afterwards exactly when they had one or is a recipient other than the sender |
| SocketServer.SentMessageDeliveries | discord/sockets/socket.js:160-199 | a message sent over the socket ends up delivered to exactly the other participants online when it was sent (comparing ids, where the source compares a populated document; see "Left out") |
| SocketServer.HiddenFor | discord/sockets/socket.js:307-307 | `$addToSet` puts the user in `deletedFor` once, changes no one else's entry and nothing else about the message |
| SocketServer.HiddenForIdempotent | discord/sockets/socket.js:307-307 | hiding a message twice for one user is hiding it once |
| SocketServer.OnlineEntries | discord/sockets/socket.js:582-587 | the online entries are exactly the room's users who are online, and there are no more of them than entries |
| SocketServer.Announce | discord/sockets/socket.js:545-550 | each requested participant who is online is sent the new room on their socket, and only online sockets are sent anything |
| MessageController.ForwardRefusal | discord/controller/messageController.js:213-244 | the refusal message of a forward, over HTTP and the socket alike: none exactly when the checks pass; each failed check gives its own text (message ids, target ids, messages not found, rooms not found), and a 403 names the first target room, in storage order, without the sender |
| SocketServer.ForwardEmits | discord/sockets/socket.js:424-476 | each copy goes to its room as `new_message`, in creation order, and then the sender gets all the copies |
| SocketServer.RemovalRefusal | discord/sockets/socket.js:619-634 | the removal passes exactly for an existing room whose admin or moderator asks with a target, and only an admin may remove an admin; a missing target is always refused |
| SocketServer.Reroled | discord/sockets/socket.js:669-672 | the participant's first entry takes the role; validity is kept for a storable role |
| SocketServer.PromoteRevoke | discord/sockets/socket.js:659-703 | promoting a member makes them admin, and revoking it gives back the participant list as it was |
| SocketServer.SelfRevokeLeavesNoAdmin | discord/sockets/socket.js:682-698 | an admin may revoke their own rights and leave the room without an admin |
| SocketServer.Server.Connect | discord/sockets/socket.js:59-89 | the maps record the connection; every other socket is told the user is online and the user is sent their active rooms, most recently active first |
| SocketServer.Server.Disconnect | discord/sockets/socket.js:603-615 | the maps forget the user and the socket, and every other socket is told the user is offline |
| SocketServer.Server.OnJoinRoom | discord/sockets/socket.js:92-123 | an unknown room or an outsider gets an error and nothing changes; otherwise the visit is recorded, the user is told, and the room's other sockets are told |
| SocketServer.Server.OnSendMessage | discord/sockets/socket.js:137-210 | refusals, and a message the schema rejects (too long, or a `messageType` outside the enum), get the socket's error text and change nothing; otherwise the message is created and the room updated as over HTTP, the message goes to the room, and it is delivered to the other participants who are online |
| SocketServer.Server.OnEditMessage | discord/sockets/socket.js:213-265 | refusals get the socket's error text and change nothing; otherwise the message is edited as over HTTP and the edit goes to its room |
| SocketServer.Server.OnDeleteMessage | discord/sockets/socket.js:269-318 | an unknown message or a missing room gets an error; deleting for everyone needs the sender, an admin or a moderator and tells the room; deleting for oneself is open to anyone and tells only the requester |
| SocketServer.Server.OnMarkAsRead | discord/sockets/socket.js:321-357 | missing ids or an outsider get an error and nothing changes; otherwise exactly the listed messages of the room gain the read receipt and the room's other sockets are told |
| SocketServer.Server.OnForwardMessages | discord/sockets/socket.js:379-483 | refusals get the socket's error text and change nothing; a blank custom text fails and changes nothing; otherwise the copies are made as over HTTP and emitted as `ForwardEmits` says |
| SocketServer.Server.OnCreateRoom | discord/sockets/socket.js:486-559 | the type defaults to group; refusals, and a room the schema rejects (including a `type` outside the enum), get the socket's error text and change nothing; an existing private room is sent back; otherwise the room is created as over HTTP, announced to the online participants, and sent to the creator |
| SocketServer.Server.OnGetOnlineUsers | discord/sockets/socket.js:562-565 | the requester is sent exactly the users online |
| SocketServer.Server.OnGetOnlineUsersInRoom | discord/sockets/socket.js:567-598 | an unknown room, an entry for a user who is gone, or an outsider gets an error; otherwise the requester is sent exactly the room's online users and their count |
| SocketServer.Server.OnRemoveUserFromRoom | discord/sockets/socket.js:617-657 | a refusal gets its error and changes nothing; otherwise the target's entries are dropped, the target's socket is told if online, and then the room is told |
| SocketServer.Server.OnMakeAdmin | discord/sockets/socket.js:659-680 | an unknown room or a requester who is not admin gets an error; a participant becomes admin and the room is told; anyone else changes nothing |
| SocketServer.Server.OnRevokeAdmin | discord/sockets/socket.js:682-703 | as `make_admin`, for a participant who is admin and becomes a member |
| SocketServer.CommitHide | discord/sockets/socket.js:307-307 | only the hidden message changes |
| SocketServer.CommitRole | discord/sockets/socket.js:669-672 | only the one room changes, to its re-roled form |
| SocketServer.DeliverAll | discord/sockets/socket.js:195-199 | only the one message changes, to its delivered form |
| Text.LeadingSpace | discord/controller/messageController.js:50-50 | the whitespace `trim` drops at the front: all whitespace, and followed by a character that is not |
| Text.TrailingStart | discord/controller/messageController.js:50-50 | the whitespace `trim` drops at the end: all whitespace, and preceded by a character that is not |
| Text.BlankIffAllWhitespace | discord/controller/messageController.js:50-50 | `!content.trim()` holds exactly when every character is whitespace |
| Text.TrimFixedPoint | discord/controller/messageController.js:64-64 | a string without whitespace at either end is its own trim |
| Text.TrimmedIffFixedPoint | discord/models/messageModel.js:4-9 | what `trim` returns has no whitespace at either end, and a string has none exactly when it is its own trim |
| Text.TrimIdempotent | discord/models/messageModel.js:4-9 | trimming an already trimmed value, as the schema setter does after the handler, changes nothing |
| Text.ToLower | discord/controller/userController.js:315-316 | lower-casing keeps the length |
| Text.ToUpper | discord-frontend/src/components/chat/ChatroomInfo.tsx:68-69 | upper-casing keeps the length |
| Text.StartsWithIncludes | discord/controller/userController.js:322-325 | a prefix of a string is also contained in it |
| Text.FindFirst | discord/controller/userController.js:325-325 | the search finds the first position where the pattern occurs, and finds nothing exactly when it occurs nowhere |
| Text.IndexOf | discord/sockets/socket.js:15-15 | the position of the first occurrence of a character |
| Text.Split | discord/sockets/socket.js:14-15 | splitting gives at least one piece, and no piece holds the separator |
| Text.JoinSplit | discord/sockets/socket.js:14-15 | joining the pieces of a split with the same separator gives back the string |
| Text.SplitJoin | discord/controller/userController.js:281-284 | splitting a join of separator-free pieces gives back the pieces |
| Text.TrimPadded | discord/sockets/socket.js:15-15 | leading whitespace before a trimmed word is all that `trim` removes |
| Collections.RemoveAll | discord/models/chatRoomModel.js:118-118 | `filter` drops every occurrence of the value and keeps every other value, with the same multiplicity |
| Collections.RemoveAbsent | discord/models/chatRoomModel.js:118-118 | filtering out an absent value changes nothing |
| Collections.RemoveAllNoDup | discord/models/chatRoomModel.js:118-118 | filtering keeps a duplicate-free list duplicate-free |
| Collections.Toggle | discord-frontend/src/components/chat/ForwardMessageModal.tsx:105-123 | toggling makes a present value absent and an absent one present, and leaves every other value's membership alone |
| Collections.ToggleNoDup | discord-frontend/src/components/chat/ForwardMessageModal.tsx:105-123 | a toggled `Set` stays a set |
| Collections.ToggleTwice | discord-frontend/src/components/chat/ForwardMessageModal.tsx:105-123 | toggling twice restores the members, and the selection itself when the value was absent |
| Collections.RemoveAppendAbsent | discord-frontend/src/components/chat/ForwardMessageModal.tsx:105-123 | deleting a value that is not in the front of a list, after appending it, gives back the front |
| Collections.InsertDesc | discord/controller/userController.js:292-296 | inserting into a sorted list adds exactly one element and keeps it sorted |
| Collections.SortedCons | discord/controller/userController.js:292-296 | a first element with a key at least the head's keeps a list sorted |
| Collections.SortDesc | discord/controller/userController.js:292-296 | the sort returns a permutation of its input, in non-increasing key order |
| Collections.PermutationNoDup | discord/models/chatRoomModel.js:156-156 | a permutation of a duplicate-free list is duplicate-free |
| Collections.NoDupCount | discord/models/chatRoomModel.js:156-156 | in a duplicate-free list every value occurs at most once |
| Lookup.SelectIn | discord/controller/messageController.js:222-233 | `find` with `$in` returns each existing requested document once, in storage order, whatever the request's order or repetitions |
| Lookup.SelectFrom | discord/controller/messageController.js:222-233 | from a position on, the lookup keeps exactly the existing requested ids, increasing |
| Lookup.ElementsCount | discord/controller/messageController.js:226-226 | a list has at least as many positions as distinct values, and as many exactly when it has no duplicates |
| Lookup.SelectInComplete | discord/controller/messageController.js:226-237 | the lookup returns as many documents as requested exactly when no id repeats and each exists, so the length checks also refuse repeated ids |
| Database.Store.MessageValid | discord/models/messageModel.js:3-102 | every stored message passes its schema |
| Database.Store.RoomValid | discord/models/chatRoomModel.js:3-82 | every stored room passes its schema |
| Database.Store.InsertMessage | discord/controller/messageController.js:63-69 | `create` appends the validated message and returns its id |
| Database.Store.WriteMessage | discord/controller/messageController.js:119-119 | `save` replaces exactly the one message |
| Database.Store.InsertRoom | discord/controller/chatroomController.js:35-44 | `create` appends the validated room and returns its id |
| Database.Store.WriteRoom | discord/controller/chatroomController.js:170-170 | `save` replaces exactly the one room |
| Database.Store.InsertUser | discord/controller/userController.js:90-103 | saving a new user appends it and returns its id |
| Database.Store.WriteUser | discord/controller/userController.js:146-147 | `save` replaces exactly the one user |
| ClientTime.IsEditable | discord-frontend/src/utils/time.ts:1-6 | a message is editable exactly when its timestamp parses and fewer than `limitMinutes` minutes, counted in milliseconds, have passed since it |
| ClientTime.FutureIsEditable | discord-frontend/src/utils/time.ts:4-5 | a timestamp in the future is editable under any non-negative limit |
| ClientTime.EditableMonotone | discord-frontend/src/utils/time.ts:4-5 | editability only runs out: not editable now means not editable at any later instant |
| ClientTime.ClientWindowInsideServerWindow | discord-frontend/src/utils/time.ts:1-6 | whatever the client offers to edit, the server accepts; at exactly 15 minutes the server still accepts an edit the client no longer offers |
| Throttle.Forwarded | discord-frontend/src/utils/debounce.ts:9-18 | the forwarded calls are some of the calls made, no more of them |
| Throttle.ForwardedSpaced | discord-frontend/src/utils/debounce.ts:9-18 | whatever the clock does, consecutive forwarded calls are at least `limit` apart, and the first is at least `limit` after time 0 |
| Throttle.SpacedPairwise | discord-frontend/src/utils/debounce.ts:9-18 | with a non-negative limit, any two forwarded calls are at least `limit` apart |
| Throttle.FirstCall | discord-frontend/src/utils/debounce.ts:10-13 | the first call goes through exactly when it is made at least `limit` milliseconds after the epoch |
| Throttle.Throttled.Call | discord-frontend/src/utils/debounce.ts:11-17 | a call goes through exactly when at least `limit` has passed since the last forwarded call, and then becomes the last; the record of forwarded calls stays the throttle's specification |
| ChatRoomView.Received | discord-frontend/src/components/chat/ChatRoom.tsx:151-161 | the entry a `new_message` event adds keeps the payload's id, sender, text, receipts and deletion flag, is own exactly when the sender is the signed-in user, is not edited, and is stamped with its creation time or, when that is missing, the current time |
| ChatRoomView.Edited | discord-frontend/src/components/chat/ChatRoom.tsx:164-170 | after `message_edited` the list keeps its length and ids; the entries with the edited id carry the new text, the edit time and the edited flag, the rest are untouched |
| ChatRoomView.EditedIdempotent | discord-frontend/src/components/chat/ChatRoom.tsx:164-170 | a repeated `message_edited` event leaves the list as the first one did |
| ChatRoomView.Tombstoned | discord-frontend/src/components/chat/ChatRoom.tsx:182-191 | a deletion for everyone keeps every entry in place; those with the id become deleted and show the deletion text, keeping sender, time and edited flag; the rest are untouched |
| ChatRoomView.Dropped | discord-frontend/src/components/chat/ChatRoom.tsx:191-193 | a deletion for the requester removes exactly the entries with that id and keeps all others |
| ChatRoomView.DroppedIds | discord-frontend/src/components/chat/ChatRoom.tsx:191-193 | on the id list, dropping by id is removing that id, the others staying in order |
| ChatRoomView.WithTyper | discord-frontend/src/components/chat/ChatRoom.tsx:172-176 | after `user_typing` the name is listed and no other name has come or gone |
| ChatRoomView.WithTyperNoDup | discord-frontend/src/components/chat/ChatRoom.tsx:172-176 | the typing list never gets a name twice |
| ChatRoomView.TypingStartStop | discord-frontend/src/components/chat/ChatRoom.tsx:172-180 | `user_typing` followed by `user_stop_typing` for a name not listed restores the list exactly |
| ChatRoomView.UnreadIds | discord-frontend/src/components/chat/ChatRoom.tsx:233-235 | the request never names more ids than there are messages; which ids it names is `UnreadIdsExact`, and on the server's receipt objects `ReceiptsNeverMatch` |
| ChatRoomView.UnreadIdsExact | discord-frontend/src/components/chat/ChatRoom.tsx:233-235 | an id is requested exactly when some message with that id has a `readBy` array in which `includes` (strict equality) does not find the user's id string |
| ChatRoomView.ReceiptsNeverMatch | discord-frontend/src/components/chat/ChatRoom.tsx:233-235 | when every `readBy` entry is a `{user, readAt}` receipt object, as the server sends them (discord/models/messageModel.js:68-77, kept by the history load at ChatRoom.tsx:262-270), an id is requested exactly when some message with it has a `readBy` array, whoever the reader is |
| ChatRoomView.ReadMessageRequestedAgain | discord-frontend/src/components/chat/ChatRoom.tsx:230-243 | a loaded message whose receipts list the signed-in user is still sent in `mark_as_read` |
| ChatRoomView.MarkAsReadRequest | discord-frontend/src/components/chat/ChatRoom.tsx:230-243 | `mark_as_read` is emitted only with a socket, messages and a signed-in user, then with exactly the ids `UnreadIds` selects, never an empty list; and it is emitted whenever those hold and that selection is non-empty |
| ChatRoomView.OnDay | discord-frontend/src/components/chat/ChatRoom.tsx:387-392 | the messages of one day are exactly the listed messages carrying that day's label |
| ChatRoomView.OnDayAppend | discord-frontend/src/components/chat/ChatRoom.tsx:387-392 | a day's messages keep list order: for a list in two parts, the first part's then the second part's |
| ChatRoomView.GroupedKeys | discord-frontend/src/components/chat/ChatRoom.tsx:387-392 | the grouping has a group for exactly the day labels some message carries |
| ChatRoomView.GroupedByDay | discord-frontend/src/components/chat/ChatRoom.tsx:387-392 | each group is the message list filtered to its label, in list order, so grouping loses, duplicates and reorders nothing |
| ChatRoomView.NoneOnDay | discord-frontend/src/components/chat/ChatRoom.tsx:387-392 | a label no message carries selects no message |
| ChatRoomView.ChatRoomScreen.OnNewMessage | discord-frontend/src/components/chat/ChatRoom.tsx:151-161 | `new_message` appends the received entry and changes nothing else |
| ChatRoomView.ChatRoomScreen.OnMessageEdited | discord-frontend/src/components/chat/ChatRoom.tsx:164-170 | `message_edited` replaces the list by its edited form |
| ChatRoomView.ChatRoomScreen.OnUserTyping | discord-frontend/src/components/chat/ChatRoom.tsx:172-176 | `user_typing` adds the name once and keeps the typing list duplicate-free |
| ChatRoomView.ChatRoomScreen.OnUserStopTyping | discord-frontend/src/components/chat/ChatRoom.tsx:178-180 | `user_stop_typing` removes every occurrence of the name and keeps the others in order |
| ChatRoomView.ChatRoomScreen.OnMessageDeleted | discord-frontend/src/components/chat/ChatRoom.tsx:182-194 | `message_deleted` tombstones the message for everyone, or drops it for the requester only |
| ChatRoomView.ChatRoomScreen.ToggleMessageSelection | discord-frontend/src/components/chat/ChatRoom.tsx:399-403 | toggling selects an unselected id and deselects a selected one, leaving every other id as it was |
| ForwardModal.Distinct | discord-frontend/src/components/chat/ForwardMessageModal.tsx:50-54 | the initial message selection holds each provided id once and no other id |
| ForwardModal.Offered | discord-frontend/src/components/chat/ForwardMessageModal.tsx:64-84 | the offered rooms are exactly the fetched rooms other than the current room, each listed with its type defaulting to group |
| ForwardModal.ListedAll | discord-frontend/src/components/chat/ForwardMessageModal.tsx:71-77 | every fetched room is listed position by position with its type defaulting to group |
| ForwardModal.OfferedAll | discord-frontend/src/components/chat/ForwardMessageModal.tsx:79-84 | without a current room every fetched room is offered, in fetched order |
| ForwardModal.ForwardRefusal | discord-frontend/src/components/chat/ForwardMessageModal.tsx:125-134 | forwarding is refused exactly when no room or no message is selected, the missing room reported first |
| ForwardModal.ButtonMatchesGuard | discord-frontend/src/components/chat/ForwardMessageModal.tsx:370 | when nothing is loading, the Forward button is enabled exactly when the handler would send |
| ForwardModal.ForwardDialog.SelectProvided | discord-frontend/src/components/chat/ForwardMessageModal.tsx:50-54 | handed-in messages all start selected; an empty hand-in leaves the selection alone |
| ForwardModal.ForwardDialog.RoomsLoaded | discord-frontend/src/components/chat/ForwardMessageModal.tsx:64-84 | a fetched room list replaces the offered rooms |
| ForwardModal.ForwardDialog.RoomsFailed | discord-frontend/src/components/chat/ForwardMessageModal.tsx:86-97 | a failed room list request shows its toast and offers the five sample rooms, ids '1' to '5', in place of real ones, without filtering out the current room |
| ForwardModal.ForwardDialog.ToggleRoom | discord-frontend/src/components/chat/ForwardMessageModal.tsx:105-113 | the room selection toggles the room and stays duplicate-free |
| ForwardModal.ForwardDialog.ToggleMessage | discord-frontend/src/components/chat/ForwardMessageModal.tsx:115-123 | the message selection toggles the message and stays duplicate-free |
| ForwardModal.ForwardDialog.HandleForward | discord-frontend/src/components/chat/ForwardMessageModal.tsx:125-166 | a refusal sends nothing and changes nothing; otherwise the request carries both selections and the custom text, absent when empty; a success calls the parent's `onForward`, when given, with the same room and message ids, then `onClose`, and clears selections and text; a refusal or failure calls nothing and keeps them |
| SelectParticipants.WithoutUser | discord-frontend/src/components/chat/SelectParticipantsModal.tsx:69-71 | removing a user keeps exactly the selected users with another id |
| SelectParticipants.WithoutUserIds | discord-frontend/src/components/chat/SelectParticipantsModal.tsx:69-71 | on the id list, removing a user is removing that id, the others staying in order |
| SelectParticipants.Unselected | discord-frontend/src/components/chat/SelectParticipantsModal.tsx:54-56 | the offered search results are exactly those whose id is not selected |
| SelectParticipants.UnselectedAppend | discord-frontend/src/components/chat/SelectParticipantsModal.tsx:54-56 | the offered results keep result order: for results in two parts, the first part's then the second part's |
| SelectParticipants.MessageEmptyIffCanCreate | discord-frontend/src/components/chat/SelectParticipantsModal.tsx:74-93 | the validation message is empty exactly when creation is allowed, for every room type and count |
| SelectParticipants.ParticipantPicker.AddUser | discord-frontend/src/components/chat/SelectParticipantsModal.tsx:62-66 | adding ignores a second participant of a private room and an already selected user, appends otherwise, and keeps the selection duplicate-free with at most one user for a private room |
| SelectParticipants.ParticipantPicker.RemoveUser | discord-frontend/src/components/chat/SelectParticipantsModal.tsx:69-71 | removing filters out the user and keeps the selection valid |
| SelectParticipants.ParticipantPicker.HandleCreate | discord-frontend/src/components/chat/SelectParticipantsModal.tsx:95-116 | `create_room` is emitted exactly when creation is allowed, with the room name, type and the selected ids in order, and then selection and search text are cleared and the parent's `onClose` is called; otherwise nothing changes |
| CreateRoomForm.CreateRoomDialog.HandleClose | discord-frontend/src/components/chat/CreateRoomModal.tsx:73-80 | closing resets name, description, type (to group), the participant picker and the name error, and calls the parent's `onClose` |
| CreateRoomForm.CreateRoomDialog.HandleSubmit | discord-frontend/src/components/chat/CreateRoomModal.tsx:41-71 | a blank name only sets the name error; otherwise the error is cleared, a public room is requested with the trimmed name and description; a success hands the server's room to the parent's `onCreateRoom`, when given, then resets the form and calls `onClose`, while a failure keeps name, description, type and picker flag; any other type opens the participant picker without a request, keeping name, description, type and the submitting flag |
| CreateRoomForm.SubmittedNameIsClean | discord-frontend/src/components/chat/CreateRoomModal.tsx:44-56 | a name that passes the check is sent non-empty and already trimmed |
| CreateRoomForm.ButtonMatchesNameCheck | discord-frontend/src/components/chat/CreateRoomModal.tsx:202 | when nothing is submitting, the submit button is enabled exactly when the name holds a non-whitespace character, the condition the handler checks |
| FormChecks.EmailNeeds | discord-frontend/src/components/auth/LoginForm.tsx:27 | an address the `\S+@\S+\.\S+` test accepts has an `@`, a `.` and at least five characters |
| FormChecks.EmailMatchExtends | discord-frontend/src/components/auth/LoginForm.tsx:27 | the test is unanchored: a match stays a match with any text added on either side |
| FormChecks.ShortestEmail | discord-frontend/src/components/auth/LoginForm.tsx:27 | any three non-whitespace characters around `@` and `.` pass, so five characters suffice |
| LoginForm.EmailError | discord-frontend/src/components/auth/LoginForm.tsx:26-27 | the email has no error exactly when it has the expected shape; empty gives "required", otherwise a shape error |
| LoginForm.PasswordError | discord-frontend/src/components/auth/LoginForm.tsx:28-29 | the password has no error exactly when it has at least 6 characters; empty gives "required", otherwise a length error |
| LoginForm.LoginFormState.HandleInputChange | discord-frontend/src/components/auth/LoginForm.tsx:16-22 | only the named field takes the value, and only that field's error is cleared, and only when it was set |
| LoginForm.LoginFormState.ValidateForm | discord-frontend/src/components/auth/LoginForm.tsx:24-32 | the errors are rebuilt with one message per failing field and no general error; the form is valid exactly when the email has the shape and the password 6 characters |
| LoginForm.LoginFormState.HandleSubmit | discord-frontend/src/components/auth/LoginForm.tsx:34-49 | a request is sent exactly when the form is valid, with the email and password; an invalid form shows its field errors, a failed sign-in only the general message, and only a successful sign-in goes to the chat page |
| RegisterForm.UsernameError | discord-frontend/src/components/auth/RegisterForm.tsx:53-57 | the username has no error exactly when it has at least 3 characters |
| RegisterForm.PasswordError | discord-frontend/src/components/auth/RegisterForm.tsx:65-69 | the password has no error exactly when it has at least 8 characters |
| RegisterForm.ConfirmError | discord-frontend/src/components/auth/RegisterForm.tsx:71-75 | the confirmation has no error exactly when it is non-empty and equals the password |
| RegisterForm.Step1Passes | discord-frontend/src/components/auth/RegisterForm.tsx:47-84 | step one has no error exactly when the username has 3 characters, the email the expected shape, the password 8 characters and the confirmation repeats it |
| RegisterForm.Step1MeetsSignInRule | discord-frontend/src/components/auth/RegisterForm.tsx:65-69 | a password and email that pass sign-up also pass the sign-in form's checks |
| RegisterForm.RegisterFormState.ValidateStep1 | discord-frontend/src/components/auth/RegisterForm.tsx:47-85 | the errors are rebuilt field by field and the step is valid exactly when none is set |
| RegisterForm.RegisterFormState.HandleSendOtp | discord-frontend/src/components/auth/RegisterForm.tsx:87-123 | no code request unless step one passes; a request carries the form's fields; only a successful answer moves to the code step, a declined or failed one shows its general message |
| RegisterForm.RegisterFormState.HandleVerifyOtp | discord-frontend/src/components/auth/RegisterForm.tsx:125-172 | a code that is not 6 characters is refused before any request; otherwise the fields and code are sent and only a successful answer leads to sign-in |
| RegisterForm.RegisterFormState.CheckUsernameAvailability | discord-frontend/src/components/auth/RegisterForm.tsx:187-213 | a name under 3 characters clears the status without a request; otherwise the answer sets available or taken, and a failed request clears the status |
| MessageInfo.StillDeliveredTo | discord-frontend/src/components/chat/MessageInfo.tsx:29 | the delivered-only list holds exactly the delivery receipts whose name has no read receipt |
| MessageInfo.Actions | discord-frontend/src/components/chat/MessageInfo.tsx:43-53 | Edit is offered, first, exactly on the user's own message while the time the menu was handed is editable; the other seven actions always follow in fixed order |
| MessageInfo.EditOfferedOnlyInServerWindow | discord-frontend/src/components/chat/MessageInfo.tsx:44 | on a message not edited on screen, whose handed time (discord-frontend/src/components/chat/ChatRoom.tsx:428) is its creation time, the menu offers Edit only while the server's edit window is open |
| MessageInfo.EditedMessageOfferedPastServerWindow | discord-frontend/src/components/chat/ChatRoom.tsx:164-169 | a message created at minute 0 and edited at minute 14 is offered Edit at minute 20, when the server refuses the edit |
| MessageInfo.Click | discord-frontend/src/components/chat/MessageInfo.tsx:88-96 | Copy copies the text and calls nothing, every other action calls back with itself, and every click closes the menu |
| MessageInfo.Render | discord-frontend/src/components/chat/MessageInfo.tsx:26-53 | nothing is shown when closed; when open, the delivered-only list and the action list |
| DeleteMessageModal.Preview | discord-frontend/src/components/modals/DeleteMessageModal.tsx:48-50 | content of at most 100 characters is shown whole; longer content as its first 100 characters and "..." |
| DeleteMessageModal.PreviewIdempotent | discord-frontend/src/components/modals/DeleteMessageModal.tsx:48-50 | a preview is its own preview |
| DeleteMessageModal.Buttons | discord-frontend/src/components/modals/DeleteMessageModal.tsx:101-117 | "Delete for Me" is always offered, "Delete for Everyone" exactly when permitted |
| DeleteMessageModal.Clicked | discord-frontend/src/components/modals/DeleteMessageModal.tsx:31-39 | a click calls the matching callback with the message id and then closes |
| DeleteMessageModal.NoEveryoneWithoutPermission | discord-frontend/src/components/modals/DeleteMessageModal.tsx:109-116 | without permission no click deletes for everyone |
| TypingIndicator.TypingLine | discord-frontend/src/components/chat/TypingIndicator.tsx:7-14 | nothing is shown exactly when nobody types; otherwise the names joined by commas, "is" for one name and "are" otherwise, then "typing..." |
| TypingIndicator.JoinStartsWithFirst | discord-frontend/src/components/chat/TypingIndicator.tsx:11 | the joined names start with the first name |
| TypingIndicator.TypingLineShape | discord-frontend/src/components/chat/TypingIndicator.tsx:11 | the line starts with the first name and ends with "typing..."; a single name reads "<name> is typing..." |
| ChatroomInfo.Initials | discord-frontend/src/components/chat/ChatroomInfo.tsx:68-70 | initials are at most two characters; which characters they are is `WordInitials` |
| ChatroomInfo.FirstLetters | discord-frontend/src/components/chat/ChatroomInfo.tsx:69 | one letter at most per word; when no word is empty, exactly one per word, the word's first character, in order |
| ChatroomInfo.WordInitials | discord-frontend/src/components/chat/ChatroomInfo.tsx:68-70 | for any name of non-empty words joined by single spaces, the initials are the upper-cased first letter of the first word, then that of the second when there is one |
| ChatroomInfo.TwoWordInitials | discord-frontend/src/components/chat/ChatroomInfo.tsx:68-70 | a first and last name give the upper-cased first letter of each |
| ChatroomInfo.PopupPosition | discord-frontend/src/components/chat/ChatroomInfo.tsx:191-209 | a row without an element places nothing; otherwise the popup sits left of the row, flipped right when it would come within the padding of the left edge, and moved up, never down, just enough to end the padding above the window's bottom |
| ChatroomInfo.RemoveTarget | discord/sockets/socket.js:617 | the server finds a member to remove only under the key `userIdToRemove` |
| ChatroomInfo.PanelRemovalAlwaysRefused | discord-frontend/src/components/chat/ChatroomInfo.tsx:318 | the panel sends the member under `userId`, so the server finds no target and refuses every removal the panel asks for |
| ChatLayout.WithNewRoom | discord-frontend/src/components/chat/ChatLayout.tsx:69-72 | `new_room` leaves the list alone when the id is listed and puts the room in front otherwise |
| ChatLayout.NewRoomNoDup | discord-frontend/src/components/chat/ChatLayout.tsx:69-72 | `new_room` keeps the ids distinct and leaves the new id listed exactly once |
| ChatLayout.CreatedAfterNewRoomDuplicates | discord-frontend/src/components/chat/ChatLayout.tsx:93-95 | a room that `new_room` listed and `handleRoomCreated` then prepends is listed twice |
| ChatLayout.Layout.HandleNewRoom | discord-frontend/src/components/chat/ChatLayout.tsx:68-78 | the room is listed once; it is selected and navigated to exactly when the signed-in user created it |
| ChatLayout.Layout.HandleRoomSelect | discord-frontend/src/components/chat/ChatLayout.tsx:87-91 | selecting a room records it and closes the sidebar |
| ChatLayout.Layout.HandleRoomCreated | discord-frontend/src/components/chat/ChatLayout.tsx:93-95 | a created room is prepended without looking for it |
| UseMessageInfo.MessageInfoHook.Open | discord-frontend/src/hooks/useMessageInfo.ts:28-54 | opening replaces the whole record, open, with the given fields; omitted lists default to empty and the deleted flag to false |
| UseMessageInfo.MessageInfoHook.Close | discord-frontend/src/hooks/useMessageInfo.ts:56-58 | closing clears only the open flag |

## Left out

- Transport: the Express routing and wiring, socket.io rooms (`join`/`leave`), CORS and ping settings. An emit names its audience, as the handler does, rather than a set of sockets.
- Socket handlers that only move a socket between socket.io rooms or relay an event: `join_room`'s room join, `leave_room` (discord/sockets/socket.js:127-134), `typing_start`/`typing_stop` (discord/sockets/socket.js:360-376), and `added_to_room`/`removed_from_room` (discord/sockets/socket.js:707-715). They change no state the model keeps.
- MessageController.DeleteVerdict, MessageController.GetMessages, MessageController.Stamped, SocketServer.Recipients, SocketServer.SentMessageDeliveries, SocketServer.Server.OnSendMessage, SocketServer.Server.OnDeleteMessage, SocketServer.Server.OnRemoveUserFromRoom, SocketServer.Server.OnMakeAdmin, SocketServer.Server.OnRevokeAdmin: compare ids where the source compares `toString()` of a populated document with an id string (discord/controller/messageController.js:36, :138; discord/sockets/socket.js:194, :285, :637, :669, :692). The `pre(/^find/)` hooks (discord/models/messageModel.js:108-125, discord/models/chatRoomModel.js:92-103) populate `sender` and `participants.user`, so in the source those comparisons are false whatever the ids: the sender of a message is not recognised as its sender, and a participant is not found by id. In particular `getMessages` also stamps the reader's own messages delivered, and the `send_message` delivery loop stamps no one, where the model skips the reader's own messages and stamps the online participants other than the sender. The edit handlers compare `sender._id` (discord/controller/messageController.js:107, discord/sockets/socket.js:229) and match the model.
- Persistence: `populate`, the `pre(/^find/)` hooks, the indexes, `updatedAt` and ObjectId cast errors. Ids stand for populated documents too. A save is a write to the in-memory store that first checks the schema.
- Foreign calls are parameters: `jwt.sign`/`jwt.verify`, bcrypt, sha256, `Math.random`, `decodeURIComponent` and `Date.now()`. Whether the OTP e-mail went out is a parameter, and the mail itself is left out.
- The e-mail format check of the sign-up handler (`validator.isEmail`) is not modelled; any address passes it.
- UserController.SendOtp: keeps the plaintext password in `tempRegistrationData`, as the source does. The model stores it and proves nothing about secrecy.
- UserController.GetUser: the handler's `select('-password')` is modelled as returning the user with an emptied password.
- AuthMiddleware.IncomingRequest.Protect: stores the whole user record in `req.user`, where the source loads it with `select("-password")` (discord/middleware/authMiddleware.js:21). No handler reads more of `req.user` than its `_id`, so nothing observable differs.
- UserSearch, UserController.CheckUsername, UserController.SendOtpVerdict: regular-expression matching covers only the constructs the fuzzy pattern uses (escaped characters, `.*`, the `i` flag). The exact search's `^query$` and the username checks' `^name$` (discord/controller/userController.js:48, :75) are built from unescaped input and are modelled as equality up to case, so a name holding pattern characters (`.`, `*`, `+`, `(`) matches more or fewer users in the source than in the model. Case folding covers ASCII letters only.
- Text.ToLower, Text.ToUpper: ASCII letters only, not Unicode case mapping. String lengths count characters, not UTF-16 code units.
- Concurrency: the un-awaited `forEach(async …)` delivery stamps after a socket send (discord/sockets/socket.js:194-199) are applied one after another. Races between handlers are not modelled.
- SocketServer: the order of the online-users list is the order of the presence map, which the model fixes as insertion order.
- SocketServer: the second `isParticipant` check in `send_message` (discord/sockets/socket.js:201-204) comes after the message is sent and cannot fail once the first check passed, so it has no branch of its own.
- Logging (`console.log`/`console.error`) and toasts are left out; a toast's text is returned where a handler shows one instead of acting.
- `debounce` (discord-frontend/src/utils/debounce.ts:1-7) is timer scheduling only. The username check is modelled as the call that runs once the debounce has fired.
- Throttle.Throttled: the `calls` and `forwarded` fields record history for the proofs; the closure itself keeps only `lastCall`.
- ClientTime.IsEditable: `limitMinutes` is an integer. Parsing a date string is a parameter, giving milliseconds or nothing for an Invalid Date.
- ChatRoomView: the day label of `getMessageDate` depends on the locale and the clock and is a parameter. The scroll, highlight and rendering code is left out. The history load and the room-details request (discord-frontend/src/components/chat/ChatRoom.tsx:100-134, :245-281) are network requests; the model takes the list they set as given, with `readBy` entries as the server sends them (`ChatRoomView.ReadEntry`).
- ChatroomInfo.PopupPosition: the element's rectangle and the window height are integers rather than floating-point values.
- UseMessageInfo.MessageInfoHook.Open: the position is given; the float midpoint of the clicked element is not computed.
- MessageInfo, ChatroomInfo: markup, icons and the profile popup's other buttons are left out; only the lists, the action set, the clicks and the emits are modelled.
- SelectParticipants.CanCreate: the final `return false` for a room type outside the three cannot be reached, because the type is one of the three.
- Front-end services and contexts (`chatService`, `messageService`, `SocketContext`, `UserContext`) only wrap `fetch` and socket.io-client. Their results are parameters.
- The rate limiter, the e-mail service and the presentational components hold no logic of the modelled core.
