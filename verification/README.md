# ClassifiedU core, modelled in Dafny

ClassifiedU is a campus marketplace. Students register, list items for sale,
publish roommate-wanted profiles and message each other. This project models
the following parts of it as pure functions, with proofs:

- **The in-memory storage backend** (`MemStorage`). It holds four keyed
  collections (users, listings, roommate profiles, messages). Each collection
  is a map together with its insertion order, because a JavaScript `Map`
  iterates in insertion order and every `find`, `filter` and `sort` result
  depends on that order.
  - A "fresh id" argument stands for `randomUUID()`. It is required not to be
    a key already.
  - A tick counter `clock` in the store stands for `new Date()`. It is
    stamped on every created row and then advanced.
- **The REST handlers** of `registerRoutes`. Each handler takes the store and
  a request and returns the new store, a status code and a JSON body.
  `Routes.Handle` dispatches the twenty routes.
- **The schema**: the row types, the insert shapes, the request bodies they
  are parsed from, partial updates (`{ ...row, ...updates }`), and the login
  shape.
- **Three client pages' pure logic**:
  - the marketplace filter (search, category, price bucket);
  - the roommate page's tag editor, profile search, e-mail check, submit
    branching and edit-form loading;
  - the profile page's split into active and sold listings.

Files and modules:

| file | module | contents |
|---|---|---|
| basics.dfy | `Basics` | `Option`; JavaScript truthiness; `x \|\| null`; `??` |
| seqs.dfy | `Seqs` | order-preserving `Filter`, `FindFirst`, a stable `SortBy`, subsequences |
| text.dfy | `Text` | ASCII `toLowerCase`, `includes`, `trim`, the `\s` character class |
| tables.dfy | `Tables` | insertion-ordered keyed table (`Map` get/set/delete/values) |
| schema.dfy | `Schema` | rows, insert shapes, bodies and parsers, patches, login shape |
| storage.dfy | `Storage` | the store and every storage operation, plus its invariants |
| routes.dfy | `Routes` | every HTTP handler, the dispatcher, and properties over all routes |
| browse.dfy | `Browse` | the marketplace filter |
| roommates.dfy | `RoommatesPage` | the roommate page's client logic |
| profile.dfy | `ProfilePage` | the active/sold split |

The store invariants it states:

- `Storage.UsersUnique`: username and email are unique, the schema's unique
  columns.
- `Storage.ProfileOwnersUnique`: there is at most one profile per user.
- `Storage.ClockAhead`: every creation time is behind the clock.

The in-memory backend enforces none of the uniqueness constraints by itself.
The lemmas in `Routes` say exactly which routes keep them and when.

## Model

| member | source | states |
|---|---|---|
| Basics.NullIfEmpty | server/storage.ts:67-70 | `x \|\| null` on optional text: null exactly when missing or empty, otherwise the input unchanged |
| Basics.NullIfZero | server/storage.ts:156 | `budget \|\| null`: null exactly when missing or zero, otherwise unchanged |
| Seqs.FindFirst | server/storage.ts:56 | `Array.find`: absent iff no element passes; otherwise the first element that passes |
| Seqs.FindFirstIsFirst | server/storage.ts:56 | the element `find` returns sits at a position before which no element passes |
| Seqs.FindFirstNone | server/storage.ts:56 | `find` answers absent iff no element of the input satisfies the predicate |
| Seqs.FindFirstUnique | server/storage.ts:55-57 | when exactly one element passes, `find` returns it |
| Seqs.Filter | server/storage.ts:88-90 | `Array.filter`: no longer than the input, and every kept element is from the input and passes |
| Seqs.FilterMembership | server/storage.ts:88-90 | `Array.filter` keeps an element iff it occurs in the input and passes |
| Seqs.FilterIsSubseq | server/storage.ts:88-90 | the result of `filter` keeps the input's order |
| Seqs.FilterCount | server/storage.ts:88-90 | each passing element keeps its multiplicity; a failing one has none |
| Seqs.FilterSplit | client/src/pages/profile.tsx:29-30 | filtering on a predicate and on its negation splits the input: lengths and multisets add up |
| Seqs.FilterDistinct | server/storage.ts:135 | filtering a duplicate-free sequence leaves it duplicate-free |
| Seqs.SortBy | server/storage.ts:194 | `sort` with a subtracting comparator: the result is ascending by key and a permutation of the input |
| Seqs.InsertBySorted | server/storage.ts:194 | inserting into a sorted sequence keeps it sorted |
| Seqs.SortByMembership | server/storage.ts:194 | sorting keeps exactly the input's elements |
| Text.Includes | client/src/pages/browse.tsx:30-31 | `includes` is true iff the needle occurs at some index of the haystack |
| Text.Lower | client/src/pages/browse.tsx:30 | `toLowerCase` keeps the length and lower-cases each character |
| Text.Trim | client/src/pages/roommates.tsx:165-168 | `trim` returns a contiguous piece surrounded only by whitespace, with none at its ends; it is empty iff the input is all whitespace |
| Text.TrimWithoutSpaces | client/src/pages/roommates.tsx:238-239 | text with no whitespace is its own trim |
| Tables.Get | server/storage.ts:51-53 | `Map.get`: present iff the key is there, and then it is the stored row |
| Tables.Put | server/storage.ts:74 | `Map.set`: a new key is appended to the order; an existing one keeps its place |
| Tables.Remove | server/storage.ts:135 | `Map.delete`: the key leaves the rows, the other keys keep their relative order, and deleting a missing key changes nothing |
| Tables.ValuesMembership | server/storage.ts:56 | `Array.from(map.values())` lists exactly the stored rows |
| Tables.ValuesLength | server/storage.ts:56 | it lists one entry per key |
| Schema.WithoutPassword | server/routes.ts:22 | `const { password, ...rest }`: putting the user's own password back into the view gives the user back |
| Schema.WithPassword | server/routes.ts:22 | the inverse of stripping: the view plus a password is a user with that password |
| Schema.WithPasswordRoundTrip | server/routes.ts:22 | stripping the password from a user built from a view gives the view back |
| Schema.WithoutPasswordForgetsOnlyPassword | server/routes.ts:22 | two users look the same once the password is stripped iff they differ at most in password |
| Schema.ParseUser | shared/schema.ts:58-62 | `insertUserSchema.parse`: accepted iff username, email, password, first and last name and university are present; an accepted body is exactly the body of its result |
| Schema.ParseListing | shared/schema.ts:63-68 | `insertListingSchema.parse`: accepted iff title, description, price, category, condition and university are present; an accepted body is exactly the body of its result |
| Schema.ParseProfile | shared/schema.ts:69-74 | `insertRoommateProfileSchema.parse`: accepted iff title and description are present; an accepted body is exactly the body of its result |
| Schema.ParseMessage | shared/schema.ts:75-78 | `insertMessageSchema.parse`: accepted iff sender, receiver and content are present; an accepted body is exactly the body of its result |
| Schema.ParseRoundTrip | shared/schema.ts:58-78 | parsing the body of an insert shape gives it back, whatever `id`, `createdAt` and `userId` the client adds |
| Schema.ParseLogin | shared/schema.ts:80-83 | login data is accepted iff both username and password are non-empty strings |
| Schema.PatchUser | server/storage.ts:82 | a supplied username or email overrides the stored one; the creation time is kept by every patch without a `createdAt` key |
| Schema.PatchListing | server/storage.ts:129 | `{ ...listing, ...updates }`: a supplied `isActive`, `userId` or price overrides the stored one and an absent one keeps it; the creation time is kept by every patch without a `createdAt` key |
| Schema.PatchProfile | server/storage.ts:172 | `{ ...profile, ...updates }`: a supplied `userId`, `isActive` or tag list overrides the stored one and an absent one keeps it; the creation time is kept by every patch without a `createdAt` key |
| Schema.PatchUserOneColumn | server/storage.ts:78-85 | an update supplying one column of a user sets exactly that column and leaves every other column as stored, for each of the eleven columns an update can carry |
| Schema.PatchListingOneColumn | server/storage.ts:125-132 | an update supplying one column of a listing sets exactly that column and leaves every other column as stored, for each of its ten updatable columns |
| Schema.PatchProfileOneColumn | server/storage.ts:168-175 | an update supplying one column of a roommate profile sets exactly that column and leaves every other column as stored, for each of its ten updatable columns |
| Schema.PatchLaws | server/storage.ts:78-85 | the empty update is the identity, an update is idempotent, and two updates compose into one where later keys win |
| Storage.EmptyStore | server/storage.ts:43-48 | the four collections start empty |
| Storage.GetUser | server/storage.ts:51-53 | present iff the id is a key |
| Storage.GetUserByUsername | server/storage.ts:55-57 | absent iff no stored user has the name; otherwise the first stored user, in insertion order, with that name |
| Storage.GetUserByEmail | server/storage.ts:59-61 | absent iff no stored user has the email; otherwise the first stored user, in insertion order, with that email |
| Storage.GetUserByUsernameUnique | server/storage.ts:55-57 | with unique usernames the lookup returns the one user with that name |
| Storage.CreateUser | server/storage.ts:63-76 | the new id becomes a key with the inserted fields; falsy major/year/bio/avatar become null and the others are kept; stamped with the clock; the new key goes to the end of the users' order; nothing else changes |
| Storage.UpdateUser | server/storage.ts:78-85 | unknown id: absent, store unchanged; otherwise the row is overridden by exactly the supplied keys, keeps its place, and nothing else changes |
| Storage.GetAllListings | server/storage.ts:88-90 | exactly the active listings, in insertion order |
| Storage.GetListing | server/storage.ts:92-94 | present iff the id is a key |
| Storage.GetListingsByUser | server/storage.ts:96-98 | exactly the owner's listings, sold ones included |
| Storage.GetListingsByCategory | server/storage.ts:100-104 | exactly the active listings whose category equals the argument |
| Storage.GetListingsByUniversity | server/storage.ts:106-110 | exactly the active listings whose university equals the argument |
| Storage.CreateListing | server/storage.ts:112-123 | the new row carries the owner and inserted fields; `isActive` is true unless false was given; the new key goes to the end of the listings' order; nothing else changes |
| Storage.UpdateListing | server/storage.ts:125-132 | as for users |
| Storage.DeleteListing | server/storage.ts:134-136 | answers true iff the key was there; the key is gone afterwards; the other listings keep their relative order; a missing key changes nothing |
| Storage.GetAllRoommateProfiles | server/storage.ts:139-141 | exactly the active profiles |
| Storage.GetRoommateProfile | server/storage.ts:143-145 | present iff the id is a key |
| Storage.GetRoommateProfileByUser | server/storage.ts:147-149 | absent iff the user owns no profile; otherwise the first one, in insertion order, that the user owns, active or not |
| Storage.CreateRoommateProfile | server/storage.ts:151-166 | empty text and a zero budget become null, tags are kept in order, `isActive` is true unless false was given; the new key goes to the end of the profiles' order; nothing else changes |
| Storage.UpdateRoommateProfile | server/storage.ts:168-175 | as for users |
| Storage.DeleteRoommateProfile | server/storage.ts:177-179 | answers true iff the key was there; the key is gone afterwards; the other profiles keep their relative order; a missing key changes nothing |
| Storage.GetMessages | server/storage.ts:182-186 | exactly the messages the user sent or received |
| Storage.GetConversation | server/storage.ts:188-195 | exactly the messages between the two users in either direction, ascending by creation time, each as often as stored |
| Storage.CreateMessage | server/storage.ts:197-207 | every inserted field is stored; `isRead` is true only if true was given; the message is stamped with the clock; the new key goes to the end of the messages' order; nothing else changes |
| Storage.MarkMessageRead | server/storage.ts:209-216 | unknown id: false, store unchanged; otherwise only that message's `isRead` becomes true, and every message keeps its place in the order |
| Storage.DeleteTwice | server/storage.ts:134-136 | a second delete answers false, and a read afterwards is absent |
| Storage.DeleteListingOthersKept | server/storage.ts:134-136 | deleting one listing leaves every other listing readable as before |
| Storage.UpdateThenGet | server/storage.ts:125-132 | reading after an update gives the patched row; other keys read as before |
| Storage.SoldListingLeavesBrowse | server/storage.ts:88-98 | a listing marked inactive leaves the public list and stays in its owner's |
| Storage.ConversationSymmetric | server/storage.ts:188-195 | the conversation of (a, b) is the conversation of (b, a) |
| Storage.ConversationInMessages | server/storage.ts:182-195 | every message of a conversation is in both participants' message lists |
| Storage.CreatedMessageIsNewest | server/storage.ts:197-207 | a message just created is stored and is newer than every other stored message |
| Storage.NewestIsLast | server/storage.ts:194 | in a list sorted by time, a message newer than every other one is the last element |
| Storage.NewMessageIsLast | server/storage.ts:188-207 | a message just sent comes last in its conversation |
| Storage.MarkReadIdempotent | server/storage.ts:209-216 | mark-read sets the flag, changes no other field, and a second call changes nothing |
| Storage.CreateThenGet | server/storage.ts:151-166 | a created profile reads back unchanged, tags in order, non-zero budget kept |
| Storage.ClockAheadAfterCreate | server/storage.ts:63-76 | creating a row keeps every creation time behind the clock |
| Storage.ClockAheadAfterChange | server/storage.ts:78-85 | updates with patches that carry no `createdAt` key, deletes and mark-read keep every creation time behind the clock |
| Routes.Register | server/routes.ts:9-28 | 400 with no change when the body is invalid or the username or email is taken; otherwise 200, one new user at the end of the order, with the new id, the clock's time, every required field of the body and its falsy optional fields as null, answered without its password |
| Routes.Login | server/routes.ts:30-44 | 400 iff the login shape is rejected; 401 when the first user with that name is missing or has another password; 200 only for that first user, when it has the password; never changes the store |
| Routes.LoginExact | server/routes.ts:30-44 | with unique usernames, login succeeds iff some stored user has both the username and the password |
| Routes.GetUserRoute | server/routes.ts:47-59 | 404 iff unknown; otherwise 200 with the user minus password |
| Routes.PutUserRoute | server/routes.ts:61-76 | 404 with no change iff unknown; otherwise the row is patched with the password key dropped, so the password stays, the user keeps its place in the order, and the answer has no password |
| Routes.ListListings | server/routes.ts:79-96 | a non-empty category filters by category only; else a non-empty university filters by university; else all active listings; always in insertion order |
| Routes.CategoryOverridesUniversity | server/routes.ts:84-90 | with a category given, the university parameter makes no difference |
| Routes.GetListingRoute | server/routes.ts:98-108 | 404 iff unknown; otherwise the stored listing |
| Routes.PostListing | server/routes.ts:110-124 | 400 with no change iff the body is invalid or `userId` is missing or empty; otherwise the new listing, at the end of the order, carries the new id, the clock's time, the body's `userId` and every field of the body, active unless false was given |
| Routes.PutListing | server/routes.ts:126-139 | 404 with no change iff unknown; otherwise the listing patched by the body, keeping its place in the order |
| Routes.DeleteListingRoute | server/routes.ts:141-151 | 404 with no change iff unknown; otherwise the listing is removed and the others keep their relative order |
| Routes.ListUserListings | server/routes.ts:153-160 | exactly the user's listings, sold ones included, in insertion order |
| Routes.ListRoommates | server/routes.ts:163-170 | exactly the active profiles, in insertion order |
| Routes.GetRoommateRoute | server/routes.ts:172-182 | 404 iff unknown; otherwise the stored profile |
| Routes.PostRoommate | server/routes.ts:184-198 | 400 with no change iff the body is invalid or `userId` is missing or empty; otherwise the new profile, at the end of the order, carries the new id, the clock's time, the body's `userId`, title, description and tags, and its falsy budget, date, location and contact as null |
| Routes.PutRoommate | server/routes.ts:200-213 | 404 with no change iff unknown; otherwise the profile patched by the body, keeping its place in the order |
| Routes.DeleteRoommateRoute | server/routes.ts:215-225 | 404 with no change iff unknown; otherwise the profile is removed and the others keep their relative order |
| Routes.GetUserRoommate | server/routes.ts:227-237 | 404 iff the user owns no profile; otherwise the first profile, in insertion order, that the user owns |
| Routes.ListUserMessages | server/routes.ts:240-247 | exactly the messages the user sent or received, in insertion order |
| Routes.ConversationRoute | server/routes.ts:249-256 | the messages between the two users, oldest first, each exactly as often as stored |
| Routes.PostMessage | server/routes.ts:258-266 | 400 with no change iff the body is invalid; otherwise the new message at the end of the order, with the new id, the clock's time, the body's sender, receiver and content, unread unless stated |
| Routes.MarkReadRoute | server/routes.ts:268-278 | 404 with no change iff unknown; otherwise only that message becomes read, and every message keeps its place in the order |
| Routes.Handle | server/routes.ts:7-282 | every status is 200, 400, 401 or 404; a non-200 answer and every read-only request leave the store unchanged |
| Routes.HandleRead | server/routes.ts:30-256 | login and every GET route leave the store unchanged and answer 200, 400, 401 or 404 |
| Routes.HandleWrite | server/routes.ts:9-278 | every creating, changing or deleting route answers 200, 400 or 404, and leaves the store unchanged unless it answers 200 |
| Routes.PasswordsNeverChange | server/routes.ts:61-66 | no route removes a user or changes a stored password |
| Routes.UserRepliesArePublicViews | server/routes.ts:9-76 | every user object any route returns is the password-less view of a stored user |
| Routes.RegisterKeepsUsersUnique | server/routes.ts:13-19 | registration keeps usernames and emails unique |
| Routes.PutUserUniqueIff | server/routes.ts:61-76 | on an existing user, the update keeps usernames and emails unique iff the new values collide with no other user |
| Routes.RegisterThenLogin | server/routes.ts:9-44 | after a registration, logging in with its username and password answers 200 with the same user; another password answers 401 |
| Routes.PostRoommateOwnersIff | server/routes.ts:184-198 | a profile creation keeps one profile per user iff the user had none |
| Routes.PutRoommateOwnersIff | server/routes.ts:200-213 | on an existing profile, the update keeps one profile per user iff a supplied owner owns no other profile |
| Routes.ProfileOwnersUniqueKept | shared/schema.ts:37 | every route keeps one profile per user, except a creation for a user who has a profile and an update that moves a profile to a user who owns another |
| Routes.UsersUniqueKept | shared/schema.ts:8-9 | every route except a colliding user update keeps usernames and emails unique |
| Routes.ClockAheadKept | server/routes.ts:7-282 | every route keeps creation times behind the clock, given update bodies without a `createdAt` key |
| Browse.ClearFilters | client/src/pages/browse.tsx:54-58 | the cleared controls: empty search, "all", "any" |
| Browse.InitialFilters | client/src/pages/browse.tsx:15-22 | the query string's search, or ""; its category if non-empty, or "all"; price "any" |
| Browse.FilteredListings | client/src/pages/browse.tsx:28-52 | exactly the fetched listings passing search, category and price, in order, with their multiplicities |
| Browse.SearchSemantics | client/src/pages/browse.tsx:29-31 | an empty query matches; otherwise the lower-cased query occurs in the lower-cased title or description |
| Browse.SearchIgnoresCase | client/src/pages/browse.tsx:29-31 | the search gives the same answer for a query and its lower-cased form |
| Browse.PriceBucketsPartition | client/src/pages/browse.tsx:36-49 | every integer price lies in exactly one of the four buckets |
| Browse.ClearFiltersShowsAll | client/src/pages/browse.tsx:54-58 | after clearing, every listing is shown, in order |
| Browse.InitialWithoutParamsIsCleared | client/src/pages/browse.tsx:15-22 | without query parameters the page opens in the cleared state |
| Browse.FilterIdempotent | client/src/pages/browse.tsx:28-52 | filtering a filtered list again changes nothing |
| Browse.BrowseShowsActiveOnly | client/src/pages/browse.tsx:24-26 | the page only shows active listings of the store |
| RoommatesPage.NewDialog | client/src/pages/roommates.tsx:65-76 | the form defaults: no tags, shown and submitted tags agree, active, no budget |
| RoommatesPage.AddPreference | client/src/pages/roommates.tsx:163-173 | appends the trimmed input to the shown tags and the form iff it is non-empty and new, then clears the input and leaves the other form fields and the dialog state alone; keeps the tags duplicate-free |
| RoommatesPage.RemovePreferenceAsWritten | client/src/pages/roommates.tsx:175-177 | as written: every copy of the tag leaves the shown list, the other tags keep their order and count, but the form is untouched |
| RoommatesPage.RemoveAsWrittenDesyncs | client/src/pages/roommates.tsx:175-177 | removing a shown tag leaves the form holding a tag the list no longer shows |
| RoommatesPage.RemovePreference | client/src/pages/roommates.tsx:175-177 | corrected: every copy of the tag leaves both lists, the rest keep their order and count, and the form submits what is shown |
| RoommatesPage.RemoveAfterAdd | client/src/pages/roommates.tsx:163-177 | removing a tag just added restores the tags |
| RoommatesPage.EditsKeepSynced | client/src/pages/roommates.tsx:163-177 | any run of adds and corrected removes keeps the tags duplicate-free and the form in step |
| RoommatesPage.FilteredProfiles | client/src/pages/roommates.tsx:264-272 | exactly the profiles matching the query, in order |
| RoommatesPage.EmptySearchKeepsAll | client/src/pages/roommates.tsx:266 | an empty search box shows every profile |
| RoommatesPage.NoLocationSearch | client/src/pages/roommates.tsx:267-271 | a profile without a location matches only through title or description |
| RoommatesPage.IndexOf | client/src/pages/roommates.tsx:238 | the first index of a character, or absent iff it does not occur |
| RoommatesPage.IsEmail | client/src/pages/roommates.tsx:238-239 | the one-pass check accepts exactly the texts the pattern `^[^\s@]+@[^\s@]+\.[^\s@]+$` matches |
| RoommatesPage.EmailSplitAt | client/src/pages/roommates.tsx:238 | in a match, the '@' is the first '@' of the text |
| RoommatesPage.EmailShapeFacts | client/src/pages/roommates.tsx:238 | a match has no whitespace and contains '@' and '.' |
| RoommatesPage.EmailIsTrimmed | client/src/pages/roommates.tsx:228-239 | anything the pattern accepts is its own trim |
| RoommatesPage.EmailExamples | client/src/pages/roommates.tsx:238-239 | "ana@uni.edu" matches; "ana@uni" and " ana@uni.edu" do not |
| RoommatesPage.Validate | client/src/pages/roommates.tsx:210-246 | the first failing check in source order: blank title, blank description, blank contact, then the pattern on the untrimmed contact |
| RoommatesPage.OnSubmit | client/src/pages/roommates.tsx:199-262 | login required iff no user; invalid iff a check fails; an update of the user's profile iff valid, the edit dialog is open and a profile exists; otherwise a create for the user |
| RoommatesPage.SubmittedCreateIsAccepted | client/src/pages/roommates.tsx:255-261 | a create that passes the page's checks is accepted by the server and stores the submitted fields |
| RoommatesPage.ExampleFormValid | client/src/pages/roommates.tsx:210-246 | the form of the counterexample passes every check |
| RoommatesPage.RemovedTagIsSubmitted | client/src/pages/roommates.tsx:163-177 | add "quiet", remove it as written, save: the create request still carries "quiet" |
| RoommatesPage.EditValues | client/src/pages/roommates.tsx:183-192 | missing text becomes "", missing tags become none, a zero or missing budget is unset, `isActive` is kept |
| RoommatesPage.HandleEditProfile | client/src/pages/roommates.tsx:179-197 | without a profile nothing changes; otherwise the form holds its values, the shown tags agree with it, and the edit dialog opens |
| RoommatesPage.EditValuesRoundTrip | client/src/pages/roommates.tsx:183-192 | creating from the loaded values of a stored profile gives that profile back, up to id, time and a missing tag list |
| RoommatesPage.EditUnchangedKeepsProfile | client/src/pages/roommates.tsx:183-192 | saving the loaded form unchanged keeps the profile, except that a missing tag list becomes empty and missing text becomes "" |
| ProfilePage.ActiveListings | client/src/pages/profile.tsx:29 | exactly the active listings, in order |
| ProfilePage.SoldListings | client/src/pages/profile.tsx:30 | exactly the inactive listings, in order |
| ProfilePage.ActiveSoldPartition | client/src/pages/profile.tsx:29-30 | every listing lands in exactly one tab; lengths and multisets add up |
| ProfilePage.MarkSoldMovesTab | client/src/pages/profile.tsx:29-30 | a listing marked sold appears in the sold tab and not in the active one |

## Left out

- HTTP and Express plumbing is not modelled: `createServer`, `res.json` and the promises. The 500 answers are also out, because the in-memory store never throws.
- Zod and drizzle parsing are replaced by presence checks on typed bodies.
  - A body value of the wrong JSON type is not represented, for example a string price.
  - Neither is `null` for a non-null column, or an extra key that the update spread would copy into a row.
  - The patches leave out `createdAt`. The update routes pass the raw body to the spread (server/routes.ts:63, 128, 202; server/storage.ts:82, 129, 172), so a PUT body carrying `createdAt` replaces the stamp with any JSON value it holds.
- Schema.PatchUser, Schema.PatchListing, Schema.PatchProfile: the creation time is kept only because the model's patches cannot carry `createdAt`. Storage.ClockAheadAfterChange and Routes.ClockAheadKept depend on the same exclusion.
- `Number(userProfile.id)` in the update path is not modelled. `RoommatesPage.FormPatch` leaves out the `id` key the page adds.
- Unicode case mapping is out. `toLowerCase` is modelled on ASCII letters only.
- Integer width is out. Prices and budgets are unbounded integers, and the 32-bit `integer` column range is not enforced.
- `new Date()` is a tick counter, so two rows never share a creation time. With millisecond dates they could, and the sort would then rely on stability.
- Seqs.SortBy: its stability is not proved. Only sortedness and permutation are.
- The durable database backend and its unique-constraint errors are out. So is concurrency: racing creates are not modelled.
- Password hashing is out. The code compares plaintext, and so does the model.
- React rendering, hooks, query caching, toasts and mutation callbacks are out. This includes the dialogs' reset after a save.
- sell.tsx is out: its `FileReader` image upload, and its `parseFloat` price, which the integer column rejects.
- All display-only components are out.

## Findings

| source | as written | input that shows it | evidently intended | confidence | as-written member | corrected member |
|---|---|---|---|---|---|---|
| client/src/pages/roommates.tsx:175-177 | `removePreference` updates only the displayed tag list. The form's `preferences` value is set only by `addPreference`, so a removed tag is still submitted. | Add "quiet", then remove "quiet", then save a valid profile. The create request carries `preferences: ["quiet"]` while the page shows no tags. | Remove the tag from the form's value as well, as `addPreference` does. | not executed | RoommatesPage.RemovePreferenceAsWritten (shown by RoommatesPage.RemovedTagIsSubmitted and RoommatesPage.RemoveAsWrittenDesyncs) | RoommatesPage.RemovePreference (proved in RoommatesPage.EditsKeepSynced) |

Three further gaps are modelled as the code behaves. They are not changed, because no line is evidently wrong:

- `PUT /api/users/:id` checks nothing, so it can give a user another user's username or email. `Routes.PutUserUniqueIff` states exactly when it does.
- `POST /api/roommates` does not check for an existing profile. `Routes.PostRoommateOwnersIff` states that one-profile-per-user survives iff the user had none.
- `PUT /api/roommates/:id` passes the body's `userId` into the spread unchecked, so it can move a profile to a user who already has one. `Routes.PutRoommateOwnersIff` states exactly when it does.
