/** The REST handlers of `registerRoutes`, each a pure function from the
    store and the request to the new store, a status code and a JSON body.
    Every handler in the source wraps its body in a try/catch that answers
    500; the in-memory store never throws, so no handler here answers 500. */
module Routes {
  import opened Basics
  import opened Seqs
  import opened Tables
  import opened Schema
  import opened Storage

  /** Response bodies. `UserEnvelope` is `{ user: ... }`; `Notice` is
      `{ message: ... }`. A user only ever leaves as a `PublicUser`, which has
      no password field. */
  datatype Json =
    | UserEnvelope(user: PublicUser)
    | UserJson(user: PublicUser)
    | ListingJson(listing: Listing)
    | ListingsJson(listings: seq<Listing>)
    | ProfileJson(profile: RoommateProfile)
    | ProfilesJson(profiles: seq<RoommateProfile>)
    | MessageJson(message: Message)
    | MessagesJson(messages: seq<Message>)
    | Notice(text: string)

  datatype Reply = Reply(state: Store, status: int, body: Json)

  const Ok := 200
  const BadRequest := 400
  const Unauthorized := 401
  const NotFound := 404

  // ---------------------------------------------------------------------
  // Auth

  /** POST /api/auth/register. */
  function Register(s: Store, b: UserBody, newId: Id): (r: Reply)
    requires newId !in s.users.rows
    ensures r.status == Ok || r.status == BadRequest
    ensures r.status == BadRequest ==> r.state == s
    ensures r.status == Ok <==>
      && ParseUser(b).Some?
      && forall u :: u in s.users.rows.Values ==>
           u.username != b.username.value && u.email != b.email.value
    ensures r.status == Ok ==> newId in r.state.users.rows
    ensures r.status == Ok ==>
      var u := r.state.users.rows[newId];
      && u.id == newId && u.createdAt == s.clock
      && r.state.users.rows == s.users.rows[newId := u]
      && r.state.users.order == s.users.order + [newId]
      && u.username == b.username.value && u.email == b.email.value
      && u.password == b.password.value
      && u.firstName == b.firstName.value && u.lastName == b.lastName.value
      && u.university == b.university.value
      && u.major == NullIfEmpty(b.major) && u.year == NullIfEmpty(b.year)
      && u.bio == NullIfEmpty(b.bio) && u.avatar == NullIfEmpty(b.avatar)
      && r.body == UserEnvelope(WithoutPassword(u))
      && r.state == s.(users := r.state.users, clock := s.clock + 1)
  {
    match ParseUser(b)
    case None => Reply(s, BadRequest, Notice("Invalid user data"))
    case Some(ins) =>
      if GetUserByUsername(s, ins.username).Some? || GetUserByEmail(s, ins.email).Some? then
        Reply(s, BadRequest, Notice("User already exists"))
      else
        var (s1, u) := CreateUser(s, ins, newId);
        Reply(s1, Ok, UserEnvelope(WithoutPassword(u)))
  }

  /** POST /api/auth/login: the first user with that username, and a plain
      string comparison of the password. */
  function Login(s: Store, b: LoginBody): (r: Reply)
    ensures r.state == s
    ensures r.status == BadRequest <==> ParseLogin(b).None?
    ensures r.status == Ok || r.status == BadRequest || r.status == Unauthorized
    ensures r.status == Ok ==>
      exists u :: && u in s.users.rows.Values
                  && u.username == b.username.value && u.password == b.password.value
                  && IsFirstMatch(Values(s.users), HasUsername(b.username.value), u)
                  && r.body == UserEnvelope(WithoutPassword(u))
    ensures r.status == Unauthorized ==>
      GetUserByUsername(s, b.username.value).None? ||
      GetUserByUsername(s, b.username.value).value.password != b.password.value
  {
    match ParseLogin(b)
    case None => Reply(s, BadRequest, Notice("Invalid login data"))
    case Some(c) =>
      match GetUserByUsername(s, c.username)
      case None => Reply(s, Unauthorized, Notice("Invalid credentials"))
      case Some(u) =>
        if u.password != c.password then Reply(s, Unauthorized, Notice("Invalid credentials"))
        else Reply(s, Ok, UserEnvelope(WithoutPassword(u)))
  }

  /** With unique usernames, login succeeds exactly when some stored user
      has both the username and the password given. */
  lemma LoginExact(s: Store, b: LoginBody)
    requires UsersUnique(s)
    requires ParseLogin(b).Some?
    ensures Login(s, b).status == Ok <==>
      exists k :: k in s.users.rows && s.users.rows[k].username == b.username.value
                                    && s.users.rows[k].password == b.password.value
  {
    if exists k :: k in s.users.rows && s.users.rows[k].username == b.username.value
                                     && s.users.rows[k].password == b.password.value {
      var k :| k in s.users.rows && s.users.rows[k].username == b.username.value
                                 && s.users.rows[k].password == b.password.value;
      GetUserByUsernameUnique(s, k);
    }
  }

  // ---------------------------------------------------------------------
  // Users

  /** GET /api/users/:id. */
  function GetUserRoute(s: Store, id: Id): (r: Reply)
    ensures r.state == s
    ensures r.status == NotFound <==> id !in s.users.rows
    ensures r.status != NotFound ==>
      r.status == Ok && r.body == UserJson(WithoutPassword(s.users.rows[id]))
  {
    match GetUser(s, id)
    case None => Reply(s, NotFound, Notice("User not found"))
    case Some(u) => Reply(s, Ok, UserJson(WithoutPassword(u)))
  }

  /** PUT /api/users/:id: the `password` key is deleted from the updates
      before they reach the store. */
  function PutUserRoute(s: Store, id: Id, updates: UserPatch): (r: Reply)
    ensures id !in s.users.rows ==> r.state == s && r.status == NotFound
    ensures id in s.users.rows ==> r.status == Ok && id in r.state.users.rows
    ensures id in s.users.rows ==>
      var u := r.state.users.rows[id];
      && u.password == s.users.rows[id].password
      && u == PatchUser(s.users.rows[id], updates.(password := None))
      && r.state.users.rows == s.users.rows[id := u]
      && r.state.users.order == s.users.order
      && r.body == UserJson(WithoutPassword(u))
      && r.state == s.(users := r.state.users)
  {
    match UpdateUser(s, id, updates.(password := None))
    case (s1, None) => Reply(s1, NotFound, Notice("User not found"))
    case (s1, Some(u)) => Reply(s1, Ok, UserJson(WithoutPassword(u)))
  }

  /** The update would give user `id` a username or email another user has. */
  ghost predicate Collides(s: Store, id: Id, updates: UserPatch) {
    exists k :: k in s.users.rows && k != id &&
      (|| (updates.username.Some? && s.users.rows[k].username == updates.username.value)
       || (updates.email.Some? && s.users.rows[k].email == updates.email.value))
  }

  // ---------------------------------------------------------------------
  // Listings

  /** GET /api/listings?category=&university=: a non-empty `category` wins;
      otherwise a non-empty `university`; otherwise every active listing. */
  function ListListings(s: Store, category: Option<string>, university: Option<string>): (r: Reply)
    ensures r.state == s && r.status == Ok && r.body.ListingsJson?
    ensures forall l :: l in r.body.listings <==>
      && l in s.listings.rows.Values && l.isActive
      && (Truthy(category) ==> l.category == category.value)
      && (!Truthy(category) && Truthy(university) ==> l.university == university.value)
    ensures IsSubseq(r.body.listings, Values(s.listings))
  {
    if Truthy(category) then Reply(s, Ok, ListingsJson(GetListingsByCategory(s, category.value)))
    else if Truthy(university) then Reply(s, Ok, ListingsJson(GetListingsByUniversity(s, university.value)))
    else Reply(s, Ok, ListingsJson(GetAllListings(s)))
  }

  /** When a category is given the university parameter is ignored. */
  lemma CategoryOverridesUniversity(s: Store, category: string, u1: Option<string>, u2: Option<string>)
    requires category != ""
    ensures ListListings(s, Some(category), u1) == ListListings(s, Some(category), u2)
  {
  }

  /** GET /api/listings/:id. */
  function GetListingRoute(s: Store, id: Id): (r: Reply)
    ensures r.state == s
    ensures r.status == NotFound <==> id !in s.listings.rows
    ensures r.status != NotFound ==> r.status == Ok && r.body == ListingJson(s.listings.rows[id])
  {
    match GetListing(s, id)
    case None => Reply(s, NotFound, Notice("Listing not found"))
    case Some(l) => Reply(s, Ok, ListingJson(l))
  }

  /** POST /api/listings: the body is validated first, then `userId` must be
      truthy; it is read from the raw body, outside the insert shape. */
  function PostListing(s: Store, b: ListingBody, newId: Id): (r: Reply)
    requires newId !in s.listings.rows
    ensures r.status == Ok || r.status == BadRequest
    ensures r.status == BadRequest ==> r.state == s
    ensures r.status == Ok <==> ParseListing(b).Some? && Truthy(b.userId)
    ensures r.status == Ok ==> newId in r.state.listings.rows
    ensures r.status == Ok ==>
      var l := r.state.listings.rows[newId];
      && l.id == newId && l.createdAt == s.clock
      && r.state.listings.rows == s.listings.rows[newId := l]
      && r.state.listings.order == s.listings.order + [newId]
      && l.userId == b.userId.value
      && l.title == b.title.value && l.description == b.description.value
      && l.price == b.price.value && l.category == b.category.value
      && l.condition == b.condition.value && l.images == b.images
      && l.university == b.university.value
      && (l.isActive <==> b.isActive != Some(false))
      && r.body == ListingJson(l)
      && r.state == s.(listings := r.state.listings, clock := s.clock + 1)
  {
    match ParseListing(b)
    case None => Reply(s, BadRequest, Notice("Invalid listing data"))
    case Some(ins) =>
      if !Truthy(b.userId) then Reply(s, BadRequest, Notice("User ID required"))
      else
        var (s1, l) := CreateListing(s, ins, b.userId.value, newId);
        Reply(s1, Ok, ListingJson(l))
  }

  /** PUT /api/listings/:id: the body goes to the store unfiltered. */
  function PutListing(s: Store, id: Id, updates: ListingPatch): (r: Reply)
    ensures id !in s.listings.rows ==> r.state == s && r.status == NotFound
    ensures id in s.listings.rows ==> r.status == Ok
    ensures id in s.listings.rows ==>
      var l := PatchListing(s.listings.rows[id], updates);
      && r.state.listings.rows == s.listings.rows[id := l]
      && r.state.listings.order == s.listings.order
      && r.body == ListingJson(l)
      && r.state == s.(listings := r.state.listings)
  {
    match UpdateListing(s, id, updates)
    case (s1, None) => Reply(s1, NotFound, Notice("Listing not found"))
    case (s1, Some(l)) => Reply(s1, Ok, ListingJson(l))
  }

  /** DELETE /api/listings/:id. */
  function DeleteListingRoute(s: Store, id: Id): (r: Reply)
    ensures id !in s.listings.rows ==> r.state == s && r.status == NotFound
    ensures id in s.listings.rows ==>
      && r.status == Ok
      && r.state.listings.rows == s.listings.rows - {id}
      && IsSubseq(r.state.listings.order, s.listings.order)
      && r.state == s.(listings := r.state.listings)
  {
    var (s1, found) := DeleteListing(s, id);
    if !found then
      assert s1.listings.rows == s.listings.rows;
      Reply(s, NotFound, Notice("Listing not found"))
    else Reply(s1, Ok, Notice("Listing deleted"))
  }

  /** GET /api/users/:userId/listings. */
  function ListUserListings(s: Store, userId: Id): (r: Reply)
    ensures r.state == s && r.status == Ok && r.body.ListingsJson?
    ensures forall l :: l in r.body.listings <==> l in s.listings.rows.Values && l.userId == userId
    ensures IsSubseq(r.body.listings, Values(s.listings))
  {
    Reply(s, Ok, ListingsJson(GetListingsByUser(s, userId)))
  }

  // ---------------------------------------------------------------------
  // Roommate profiles

  /** GET /api/roommates. */
  function ListRoommates(s: Store): (r: Reply)
    ensures r.state == s && r.status == Ok && r.body.ProfilesJson?
    ensures forall p :: p in r.body.profiles <==> p in s.profiles.rows.Values && p.isActive
    ensures IsSubseq(r.body.profiles, Values(s.profiles))
  {
    Reply(s, Ok, ProfilesJson(GetAllRoommateProfiles(s)))
  }

  /** GET /api/roommates/:id. */
  function GetRoommateRoute(s: Store, id: Id): (r: Reply)
    ensures r.state == s
    ensures r.status == NotFound <==> id !in s.profiles.rows
    ensures r.status != NotFound ==> r.status == Ok && r.body == ProfileJson(s.profiles.rows[id])
  {
    match GetRoommateProfile(s, id)
    case None => Reply(s, NotFound, Notice("Roommate profile not found"))
    case Some(p) => Reply(s, Ok, ProfileJson(p))
  }

  /** POST /api/roommates: as for listings. No check that the user has no
      profile yet. */
  function PostRoommate(s: Store, b: ProfileBody, newId: Id): (r: Reply)
    requires newId !in s.profiles.rows
    ensures r.status == Ok || r.status == BadRequest
    ensures r.status == BadRequest ==> r.state == s
    ensures r.status == Ok <==> ParseProfile(b).Some? && Truthy(b.userId)
    ensures r.status == Ok ==> newId in r.state.profiles.rows
    ensures r.status == Ok ==>
      var p := r.state.profiles.rows[newId];
      && p.id == newId && p.createdAt == s.clock
      && r.state.profiles.rows == s.profiles.rows[newId := p]
      && r.state.profiles.order == s.profiles.order + [newId]
      && p.userId == b.userId.value
      && p.title == b.title.value && p.description == b.description.value
      && p.preferences == b.preferences
      && p.budget == NullIfZero(b.budget) && p.moveInDate == NullIfEmpty(b.moveInDate)
      && p.location == NullIfEmpty(b.location) && p.contactInfo == NullIfEmpty(b.contactInfo)
      && (p.isActive <==> b.isActive != Some(false))
      && r.body == ProfileJson(p)
      && r.state == s.(profiles := r.state.profiles, clock := s.clock + 1)
  {
    match ParseProfile(b)
    case None => Reply(s, BadRequest, Notice("Invalid roommate profile data"))
    case Some(ins) =>
      if !Truthy(b.userId) then Reply(s, BadRequest, Notice("User ID required"))
      else
        var (s1, p) := CreateRoommateProfile(s, ins, b.userId.value, newId);
        Reply(s1, Ok, ProfileJson(p))
  }

  /** PUT /api/roommates/:id. */
  function PutRoommate(s: Store, id: Id, updates: ProfilePatch): (r: Reply)
    ensures id !in s.profiles.rows ==> r.state == s && r.status == NotFound
    ensures id in s.profiles.rows ==> r.status == Ok
    ensures id in s.profiles.rows ==>
      var p := PatchProfile(s.profiles.rows[id], updates);
      && r.state.profiles.rows == s.profiles.rows[id := p]
      && r.state.profiles.order == s.profiles.order
      && r.body == ProfileJson(p)
      && r.state == s.(profiles := r.state.profiles)
  {
    match UpdateRoommateProfile(s, id, updates)
    case (s1, None) => Reply(s1, NotFound, Notice("Roommate profile not found"))
    case (s1, Some(p)) => Reply(s1, Ok, ProfileJson(p))
  }

  /** DELETE /api/roommates/:id. */
  function DeleteRoommateRoute(s: Store, id: Id): (r: Reply)
    ensures id !in s.profiles.rows ==> r.state == s && r.status == NotFound
    ensures id in s.profiles.rows ==>
      && r.status == Ok
      && r.state.profiles.rows == s.profiles.rows - {id}
      && IsSubseq(r.state.profiles.order, s.profiles.order)
      && r.state == s.(profiles := r.state.profiles)
  {
    var (s1, found) := DeleteRoommateProfile(s, id);
    if !found then Reply(s, NotFound, Notice("Roommate profile not found"))
    else Reply(s1, Ok, Notice("Roommate profile deleted"))
  }

  /** GET /api/users/:userId/roommate: the user's first profile, in
      insertion order. */
  function GetUserRoommate(s: Store, userId: Id): (r: Reply)
    ensures r.state == s
    ensures r.status == NotFound <==> forall p :: p in s.profiles.rows.Values ==> p.userId != userId
    ensures r.status != NotFound ==>
      && r.status == Ok && r.body.ProfileJson?
      && r.body.profile in s.profiles.rows.Values && r.body.profile.userId == userId
      && IsFirstMatch(Values(s.profiles), ProfileOf(userId), r.body.profile)
  {
    match GetRoommateProfileByUser(s, userId)
    case None => Reply(s, NotFound, Notice("Roommate profile not found"))
    case Some(p) => Reply(s, Ok, ProfileJson(p))
  }

  // ---------------------------------------------------------------------
  // Messages

  /** GET /api/users/:userId/messages. */
  function ListUserMessages(s: Store, userId: Id): (r: Reply)
    ensures r.state == s && r.status == Ok && r.body.MessagesJson?
    ensures forall m :: m in r.body.messages <==>
      m in s.messages.rows.Values && (m.senderId == userId || m.receiverId == userId)
    ensures IsSubseq(r.body.messages, Values(s.messages))
  {
    Reply(s, Ok, MessagesJson(GetMessages(s, userId)))
  }

  /** GET /api/messages/conversation/:userId1/:userId2. */
  function ConversationRoute(s: Store, a: Id, b: Id): (r: Reply)
    ensures r.state == s && r.status == Ok && r.body.MessagesJson?
    ensures SortedBy(r.body.messages, MessageTime)
    ensures forall m :: m in r.body.messages <==>
      && m in s.messages.rows.Values
      && ((m.senderId == a && m.receiverId == b) || (m.senderId == b && m.receiverId == a))
    ensures multiset(r.body.messages) == multiset(Filter(Values(s.messages), Between(a, b)))
  {
    Reply(s, Ok, MessagesJson(GetConversation(s, a, b)))
  }

  /** POST /api/messages. */
  function PostMessage(s: Store, b: MessageBody, newId: Id): (r: Reply)
    requires newId !in s.messages.rows
    ensures r.status == Ok || r.status == BadRequest
    ensures r.status == BadRequest <==> ParseMessage(b).None?
    ensures r.status == BadRequest ==> r.state == s
    ensures r.status == Ok ==> newId in r.state.messages.rows
    ensures r.status == Ok ==>
      var m := r.state.messages.rows[newId];
      && m.id == newId && m.createdAt == s.clock
      && r.state.messages.rows == s.messages.rows[newId := m]
      && r.state.messages.order == s.messages.order + [newId]
      && m.senderId == b.senderId.value && m.receiverId == b.receiverId.value
      && m.content == b.content.value
      && (m.isRead <==> b.isRead == Some(true))
      && r.body == MessageJson(m)
      && r.state == s.(messages := r.state.messages, clock := s.clock + 1)
  {
    match ParseMessage(b)
    case None => Reply(s, BadRequest, Notice("Invalid message data"))
    case Some(ins) =>
      var (s1, m) := CreateMessage(s, ins, newId);
      Reply(s1, Ok, MessageJson(m))
  }

  /** PATCH /api/messages/:id/read. */
  function MarkReadRoute(s: Store, id: Id): (r: Reply)
    ensures id !in s.messages.rows ==> r.state == s && r.status == NotFound
    ensures id in s.messages.rows ==>
      && r.status == Ok
      && r.state.messages.rows == s.messages.rows[id := s.messages.rows[id].(isRead := true)]
      && r.state.messages.order == s.messages.order
      && r.state == s.(messages := r.state.messages)
  {
    var (s1, found) := MarkMessageRead(s, id);
    if !found then Reply(s1, NotFound, Notice("Message not found"))
    else Reply(s1, Ok, Notice("Message marked as read"))
  }

  // ---------------------------------------------------------------------
  // Dispatch

  datatype Request =
    | RegisterReq(user: UserBody)
    | LoginReq(credentials: LoginBody)
    | GetUserReq(id: Id)
    | PutUserReq(id: Id, userUpdates: UserPatch)
    | ListListingsReq(category: Option<string>, university: Option<string>)
    | GetListingReq(id: Id)
    | PostListingReq(listing: ListingBody)
    | PutListingReq(id: Id, listingUpdates: ListingPatch)
    | DeleteListingReq(id: Id)
    | UserListingsReq(userId: Id)
    | ListRoommatesReq
    | GetRoommateReq(id: Id)
    | PostRoommateReq(profile: ProfileBody)
    | PutRoommateReq(id: Id, profileUpdates: ProfilePatch)
    | DeleteRoommateReq(id: Id)
    | UserRoommateReq(userId: Id)
    | UserMessagesReq(userId: Id)
    | ConversationReq(a: Id, b: Id)
    | PostMessageReq(message: MessageBody)
    | MarkReadReq(id: Id)
  {
    /** GET requests and login only read the store. */
    predicate IsRead() {
      || LoginReq? || GetUserReq? || ListListingsReq? || GetListingReq? || UserListingsReq?
      || ListRoommatesReq? || GetRoommateReq? || UserRoommateReq? || UserMessagesReq?
      || ConversationReq?
    }
  }

  /** `newId` is what `randomUUID` returns: new in every collection. */
  ghost predicate FreshIn(s: Store, newId: Id) {
    && newId !in s.users.rows && newId !in s.listings.rows
    && newId !in s.profiles.rows && newId !in s.messages.rows
  }

  /** Every route: the reads and login, which leave the store alone, and the
      writes. */
  function Handle(s: Store, req: Request, newId: Id): (r: Reply)
    requires FreshIn(s, newId)
    ensures r.status in {Ok, BadRequest, Unauthorized, NotFound}
    ensures r.status != Ok ==> r.state == s
    ensures req.IsRead() ==> r.state == s
  {
    if req.IsRead() then HandleRead(s, req) else HandleWrite(s, req, newId)
  }

  /** The routes that only read the store. */
  function HandleRead(s: Store, req: Request): (r: Reply)
    requires req.IsRead()
    ensures r.status in {Ok, BadRequest, Unauthorized, NotFound}
    ensures r.state == s
  {
    match req
    case LoginReq(b) => Login(s, b)
    case GetUserReq(id) => GetUserRoute(s, id)
    case ListListingsReq(c, u) => ListListings(s, c, u)
    case GetListingReq(id) => GetListingRoute(s, id)
    case UserListingsReq(u) => ListUserListings(s, u)
    case ListRoommatesReq => ListRoommates(s)
    case GetRoommateReq(id) => GetRoommateRoute(s, id)
    case UserRoommateReq(u) => GetUserRoommate(s, u)
    case UserMessagesReq(u) => ListUserMessages(s, u)
    case ConversationReq(a, b) => ConversationRoute(s, a, b)
  }

  /** The routes that create, change or remove rows. */
  function HandleWrite(s: Store, req: Request, newId: Id): (r: Reply)
    requires FreshIn(s, newId)
    requires !req.IsRead()
    ensures r.status in {Ok, BadRequest, NotFound}
    ensures r.status != Ok ==> r.state == s
  {
    match req
    case RegisterReq(b) => Register(s, b, newId)
    case PutUserReq(id, p) => PutUserRoute(s, id, p)
    case PostListingReq(b) => PostListing(s, b, newId)
    case PutListingReq(id, p) => PutListing(s, id, p)
    case DeleteListingReq(id) => DeleteListingRoute(s, id)
    case PostRoommateReq(b) => PostRoommate(s, b, newId)
    case PutRoommateReq(id, p) => PutRoommate(s, id, p)
    case DeleteRoommateReq(id) => DeleteRoommateRoute(s, id)
    case PostMessageReq(b) => PostMessage(s, b, newId)
    case MarkReadReq(id) => MarkReadRoute(s, id)
  }

  // ---------------------------------------------------------------------
  // Properties over every route

  /** No route removes a user or changes a stored password: registration
      only adds, and the user update route drops the password key. */
  lemma PasswordsNeverChange(s: Store, req: Request, newId: Id)
    requires FreshIn(s, newId)
    ensures var s1 := Handle(s, req, newId).state;
      forall k :: k in s.users.rows ==>
        k in s1.users.rows && s1.users.rows[k].password == s.users.rows[k].password
  {
  }

  /** Every user object a route returns is the public view of a user stored
      in the resulting state: the password never leaves the API. */
  lemma UserRepliesArePublicViews(s: Store, req: Request, newId: Id)
    requires FreshIn(s, newId)
    ensures var r := Handle(s, req, newId);
      r.body.UserEnvelope? || r.body.UserJson? ==>
        exists u :: u in r.state.users.rows.Values && r.body.user == WithoutPassword(u)
  {
    var r := Handle(s, req, newId);
    match req
    case RegisterReq(b) =>
      if r.status == Ok {
        assert r.state.users.rows[newId] in r.state.users.rows.Values;
      }
    case GetUserReq(id) =>
      if r.status == Ok {
        assert s.users.rows[id] in s.users.rows.Values;
      }
    case PutUserReq(id, p) =>
      if r.status == Ok {
        assert r.state.users.rows[id] in r.state.users.rows.Values;
      }
    case _ =>
  }

  /** Registration keeps usernames and emails unique: it refuses a body
      whose username or email is taken. */
  lemma RegisterKeepsUsersUnique(s: Store, b: UserBody, newId: Id)
    requires newId !in s.users.rows
    requires UsersUnique(s)
    ensures UsersUnique(Register(s, b, newId).state)
  {
    var r := Register(s, b, newId);
    if r.status == Ok {
      forall k | k in s.users.rows
        ensures && s.users.rows[k].username != b.username.value
                && s.users.rows[k].email != b.email.value
      {
        assert s.users.rows[k] in s.users.rows.Values;
      }
    }
  }

  /** On an existing user, the update route keeps usernames and emails
      unique exactly when the new values collide with no other user: the
      route itself checks nothing. */
  lemma {:induction false} PutUserUniqueIff(s: Store, id: Id, p: UserPatch)
    requires UsersUnique(s)
    requires id in s.users.rows
    ensures UsersUnique(PutUserRoute(s, id, p).state) <==> !Collides(s, id, p)
  {
    var s1 := PutUserRoute(s, id, p).state;
    var u := s1.users.rows[id];
    if Collides(s, id, p) {
      var k :| k in s.users.rows && k != id &&
        (|| (p.username.Some? && s.users.rows[k].username == p.username.value)
         || (p.email.Some? && s.users.rows[k].email == p.email.value));
      assert s1.users.rows[k] == s.users.rows[k];
      assert !UsersUnique(s1) by {
        assert k in s1.users.rows && id in s1.users.rows && k != id;
        assert s1.users.rows[k].username == u.username || s1.users.rows[k].email == u.email;
      }
    } else {
      forall k | k in s.users.rows && k != id
        ensures s.users.rows[k].username != u.username && s.users.rows[k].email != u.email
      {
        assert s.users.rows[k].username != s.users.rows[id].username;
      }
    }
  }

  /** After a successful registration, logging in with the same username
      and password gives back the new user's public view; any other
      non-empty password is refused. */
  lemma RegisterThenLogin(s: Store, b: UserBody, newId: Id, other: string)
    requires newId !in s.users.rows
    requires UsersUnique(s)
    requires Register(s, b, newId).status == Ok
    requires Truthy(b.username) && Truthy(b.password)
    requires other != "" && other != b.password.value
    ensures var r := Register(s, b, newId);
      && Login(r.state, LoginBody(b.username, b.password)) == Reply(r.state, Ok, r.body)
      && Login(r.state, LoginBody(b.username, Some(other))).status == Unauthorized
  {
    var r := Register(s, b, newId);
    RegisterKeepsUsersUnique(s, b, newId);
    GetUserByUsernameUnique(r.state, newId);
  }

  /** Creating a roommate profile keeps "one profile per user" exactly when
      the user has no profile yet: the route does not look. */
  lemma PostRoommateOwnersIff(s: Store, b: ProfileBody, newId: Id)
    requires newId !in s.profiles.rows
    requires ProfileOwnersUnique(s)
    requires ParseProfile(b).Some? && Truthy(b.userId)
    ensures ProfileOwnersUnique(PostRoommate(s, b, newId).state) <==>
      GetRoommateProfileByUser(s, b.userId.value).None?
  {
    var s1 := PostRoommate(s, b, newId).state;
    var q := GetRoommateProfileByUser(s, b.userId.value);
    if q.Some? {
      var k :| k in s.profiles.rows && s.profiles.rows[k] == q.value;
      assert s1.profiles.rows[k] == q.value;
      assert s1.profiles.rows[newId].userId == q.value.userId;
    } else {
      forall k | k in s.profiles.rows ensures s.profiles.rows[k].userId != b.userId.value {
        assert s.profiles.rows[k] in s.profiles.rows.Values;
      }
    }
  }

  /** The update would give profile `id` an owner that another profile has. */
  ghost predicate OwnerCollides(s: Store, id: Id, updates: ProfilePatch) {
    updates.userId.Some? &&
    exists k :: k in s.profiles.rows && k != id && s.profiles.rows[k].userId == updates.userId.value
  }

  /** On an existing profile, the update route keeps "one profile per user"
      exactly when a supplied owner owns no other profile: the body goes to
      the spread unchecked. */
  lemma {:induction false} PutRoommateOwnersIff(s: Store, id: Id, p: ProfilePatch)
    requires ProfileOwnersUnique(s)
    requires id in s.profiles.rows
    ensures ProfileOwnersUnique(PutRoommate(s, id, p).state) <==> !OwnerCollides(s, id, p)
  {
    var s1 := PutRoommate(s, id, p).state;
    var q := s1.profiles.rows[id];
    if OwnerCollides(s, id, p) {
      var k :| k in s.profiles.rows && k != id && s.profiles.rows[k].userId == p.userId.value;
      assert s1.profiles.rows[k] == s.profiles.rows[k];
      assert !ProfileOwnersUnique(s1) by {
        assert k in s1.profiles.rows && id in s1.profiles.rows && k != id;
        assert s1.profiles.rows[k].userId == q.userId;
      }
    } else {
      forall k | k in s.profiles.rows && k != id ensures s.profiles.rows[k].userId != q.userId {
        assert s.profiles.rows[k].userId != s.profiles.rows[id].userId;
      }
    }
  }

  /** Every route keeps "one profile per user" except a profile creation for
      a user who already has one and an update that moves a profile to a
      user who owns another. */
  lemma ProfileOwnersUniqueKept(s: Store, req: Request, newId: Id)
    requires FreshIn(s, newId)
    requires ProfileOwnersUnique(s)
    requires req.PostRoommateReq? && req.profile.userId.Some? ==>
      GetRoommateProfileByUser(s, req.profile.userId.value).None?
    requires req.PutRoommateReq? ==> !OwnerCollides(s, req.id, req.profileUpdates)
    ensures ProfileOwnersUnique(Handle(s, req, newId).state)
  {
    var r := Handle(s, req, newId);
    if r.status == Ok {
      if req.PostRoommateReq? {
        PostRoommateOwnersIff(s, req.profile, newId);
      } else if req.PutRoommateReq? {
        PutRoommateOwnersIff(s, req.id, req.profileUpdates);
      }
    }
  }

  /** Every route but an update that hands one user another's username or
      email keeps the uniqueness of usernames and emails. */
  lemma UsersUniqueKept(s: Store, req: Request, newId: Id)
    requires FreshIn(s, newId)
    requires UsersUnique(s)
    requires req.PutUserReq? ==> !Collides(s, req.id, req.userUpdates)
    ensures UsersUnique(Handle(s, req, newId).state)
  {
    var r := Handle(s, req, newId);
    if r.status == Ok {
      if req.RegisterReq? {
        RegisterKeepsUsersUnique(s, req.user, newId);
      } else if req.PutUserReq? {
        PutUserUniqueIff(s, req.id, req.userUpdates);
      }
    }
  }

  /** The routes that create a row stamp it with the clock and advance it. */
  lemma ClockAheadCreate(s: Store, req: Request, newId: Id)
    requires FreshIn(s, newId) && ClockAhead(s)
    requires req.RegisterReq? || req.PostListingReq? || req.PostRoommateReq? || req.PostMessageReq?
    ensures ClockAhead(Handle(s, req, newId).state)
  {
    var r := Handle(s, req, newId);
    if r.status == Ok {
      match req
      case RegisterReq(b) =>
        assert r == Register(s, b, newId);
      case PostListingReq(b) =>
        assert r == PostListing(s, b, newId);
      case PostRoommateReq(b) =>
        assert r == PostRoommate(s, b, newId);
      case PostMessageReq(b) =>
        assert r == PostMessage(s, b, newId);
    }
  }

  /** The routes that update, delete or mark a row never touch a creation
      time or the clock. */
  lemma ClockAheadPutUser(s: Store, id: Id, p: UserPatch)
    requires ClockAhead(s)
    ensures ClockAhead(PutUserRoute(s, id, p).state)
  {
  }

  lemma ClockAheadPutListing(s: Store, id: Id, p: ListingPatch)
    requires ClockAhead(s)
    ensures ClockAhead(PutListing(s, id, p).state)
  {
  }

  lemma ClockAheadDeleteListing(s: Store, id: Id)
    requires ClockAhead(s)
    ensures ClockAhead(DeleteListingRoute(s, id).state)
  {
  }

  lemma ClockAheadPutRoommate(s: Store, id: Id, p: ProfilePatch)
    requires ClockAhead(s)
    ensures ClockAhead(PutRoommate(s, id, p).state)
  {
  }

  lemma ClockAheadDeleteRoommate(s: Store, id: Id)
    requires ClockAhead(s)
    ensures ClockAhead(DeleteRoommateRoute(s, id).state)
  {
  }

  lemma ClockAheadMarkRead(s: Store, id: Id)
    requires ClockAhead(s)
    ensures ClockAhead(MarkReadRoute(s, id).state)
  {
  }

  lemma ClockAheadChange(s: Store, req: Request, newId: Id)
    requires FreshIn(s, newId) && ClockAhead(s)
    requires !(req.RegisterReq? || req.PostListingReq? || req.PostRoommateReq? || req.PostMessageReq?)
    ensures ClockAhead(Handle(s, req, newId).state)
  {
    if !req.IsRead() {
      match req
      case PutUserReq(id, p) => ClockAheadPutUser(s, id, p);
      case PutListingReq(id, p) => ClockAheadPutListing(s, id, p);
      case DeleteListingReq(id) => ClockAheadDeleteListing(s, id);
      case PutRoommateReq(id, p) => ClockAheadPutRoommate(s, id, p);
      case DeleteRoommateReq(id) => ClockAheadDeleteRoommate(s, id);
      case MarkReadReq(id) => ClockAheadMarkRead(s, id);
    }
  }

  /** Creation times stay behind the clock on every route. */
  lemma ClockAheadKept(s: Store, req: Request, newId: Id)
    requires FreshIn(s, newId)
    requires ClockAhead(s)
    ensures ClockAhead(Handle(s, req, newId).state)
  {
    if req.RegisterReq? || req.PostListingReq? || req.PostRoommateReq? || req.PostMessageReq? {
      ClockAheadCreate(s, req, newId);
    } else {
      ClockAheadChange(s, req, newId);
    }
  }
}
