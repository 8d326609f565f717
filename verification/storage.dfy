/** The in-memory storage backend: four keyed collections and the
    create / get / find / list / update / delete / mark-read operations over
    them. Every operation is a pure function from the store (and its
    arguments) to the new store and the answer. The id that `randomUUID`
    would produce is an argument that must not already be a key; the clock
    `clock` stands for `new Date()` and ticks on every create. */
module Storage {
  import opened Basics
  import opened Seqs
  import opened Tables
  import opened Schema

  datatype Store = Store(
    users: WfTable<User>,
    listings: WfTable<Listing>,
    profiles: WfTable<RoommateProfile>,
    messages: WfTable<Message>,
    clock: nat)

  function EmptyStore(): (s: Store)
    ensures s.users.rows == map[] && s.listings.rows == map[]
    ensures s.profiles.rows == map[] && s.messages.rows == map[]
  {
    Store(Empty(), Empty(), Empty(), Empty(), 0)
  }

  // ---------------------------------------------------------------------
  // Invariants the schema declares. `UsersUnique` is the unique constraint
  // on `username` and on `email`; `ProfileOwnersUnique` the one on the
  // profile's `userId`. The in-memory backend enforces neither by itself.

  ghost predicate UsersUnique(s: Store) {
    forall k, k' :: k in s.users.rows && k' in s.users.rows && k != k' ==>
      && s.users.rows[k].username != s.users.rows[k'].username
      && s.users.rows[k].email != s.users.rows[k'].email
  }

  ghost predicate ProfileOwnersUnique(s: Store) {
    forall k, k' :: k in s.profiles.rows && k' in s.profiles.rows && k != k' ==>
      s.profiles.rows[k].userId != s.profiles.rows[k'].userId
  }

  /** Every stored row was created at an earlier tick than the clock shows. */
  ghost predicate ClockAhead(s: Store) {
    && (forall k :: k in s.users.rows ==> s.users.rows[k].createdAt < s.clock)
    && (forall k :: k in s.listings.rows ==> s.listings.rows[k].createdAt < s.clock)
    && (forall k :: k in s.profiles.rows ==> s.profiles.rows[k].createdAt < s.clock)
    && (forall k :: k in s.messages.rows ==> s.messages.rows[k].createdAt < s.clock)
  }

  // ---------------------------------------------------------------------
  // Users

  function GetUser(s: Store, id: Id): (r: Option<User>)
    ensures r.Some? <==> id in s.users.rows
    ensures r.Some? ==> r.value == s.users.rows[id]
  {
    Get(s.users, id)
  }

  function HasUsername(name: string): User -> bool {
    (u: User) => u.username == name
  }

  function HasEmail(email: string): User -> bool {
    (u: User) => u.email == email
  }

  /** The first user, in insertion order, with this username. */
  function GetUserByUsername(s: Store, name: string): (r: Option<User>)
    ensures r.None? <==> forall u :: u in s.users.rows.Values ==> u.username != name
    ensures r.Some? ==> r.value in s.users.rows.Values && r.value.username == name
    ensures r.Some? ==> IsFirstMatch(Values(s.users), HasUsername(name), r.value)
  {
    ValuesMembership(s.users);
    FindFirstIsFirst(Values(s.users), HasUsername(name));
    FindFirstNone(Values(s.users), HasUsername(name));
    FindFirst(Values(s.users), HasUsername(name))
  }

  /** The first user, in insertion order, with this email. */
  function GetUserByEmail(s: Store, email: string): (r: Option<User>)
    ensures r.None? <==> forall u :: u in s.users.rows.Values ==> u.email != email
    ensures r.Some? ==> r.value in s.users.rows.Values && r.value.email == email
    ensures r.Some? ==> IsFirstMatch(Values(s.users), HasEmail(email), r.value)
  {
    ValuesMembership(s.users);
    FindFirstIsFirst(Values(s.users), HasEmail(email));
    FindFirstNone(Values(s.users), HasEmail(email));
    FindFirst(Values(s.users), HasEmail(email))
  }

  /** With unique usernames the lookup finds the one user that has it. */
  lemma GetUserByUsernameUnique(s: Store, k: Id)
    requires UsersUnique(s)
    requires k in s.users.rows
    ensures GetUserByUsername(s, s.users.rows[k].username) == Some(s.users.rows[k])
  {
    var u := s.users.rows[k];
    ValuesMembership(s.users);
    forall v | v in Values(s.users) && HasUsername(u.username)(v) ensures v == u {
      var k' :| k' in s.users.rows && s.users.rows[k'] == v;
    }
    FindFirstUnique(Values(s.users), HasUsername(u.username), u);
  }

  /** `createUser`: empty or missing optional columns are stored as null. */
  function CreateUser(s: Store, ins: InsertUser, id: Id): (r: (Store, User))
    requires id !in s.users.rows
    ensures r.1.id == id && r.1.createdAt == s.clock
    ensures && r.1.username == ins.username && r.1.email == ins.email
            && r.1.password == ins.password && r.1.firstName == ins.firstName
            && r.1.lastName == ins.lastName && r.1.university == ins.university
    ensures r.1.major.None? <==> ins.major.None? || ins.major.value == ""
    ensures r.1.year.None? <==> ins.year.None? || ins.year.value == ""
    ensures r.1.bio.None? <==> ins.bio.None? || ins.bio.value == ""
    ensures r.1.avatar.None? <==> ins.avatar.None? || ins.avatar.value == ""
    ensures r.1.major.Some? ==> r.1.major == ins.major
    ensures r.1.year.Some? ==> r.1.year == ins.year
    ensures r.1.bio.Some? ==> r.1.bio == ins.bio
    ensures r.1.avatar.Some? ==> r.1.avatar == ins.avatar
    ensures r.0.users.rows == s.users.rows[id := r.1]
    ensures r.0.users.order == s.users.order + [id]
    ensures |r.0.users.rows| == |s.users.rows| + 1
    ensures r.0 == s.(users := r.0.users, clock := s.clock + 1)
  {
    var u := User(id, ins.username, ins.email, ins.password, ins.firstName, ins.lastName,
                  ins.university, NullIfEmpty(ins.major), NullIfEmpty(ins.year),
                  NullIfEmpty(ins.bio), NullIfEmpty(ins.avatar), s.clock);
    (s.(users := Put(s.users, id, u), clock := s.clock + 1), u)
  }

  /** `updateUser`: unknown id answers absent and changes nothing; otherwise
      the row at `id` is overridden by the supplied keys and nothing else
      moves. */
  function UpdateUser(s: Store, id: Id, p: UserPatch): (r: (Store, Option<User>))
    ensures id !in s.users.rows ==> r == (s, None)
    ensures id in s.users.rows ==>
      && r.1 == Some(PatchUser(s.users.rows[id], p))
      && r.0.users.rows == s.users.rows[id := r.1.value]
      && r.0.users.order == s.users.order
      && r.0 == s.(users := r.0.users)
  {
    match Get(s.users, id)
    case None => (s, None)
    case Some(u) =>
      var u' := PatchUser(u, p);
      (s.(users := Put(s.users, id, u')), Some(u'))
  }

  // ---------------------------------------------------------------------
  // Listings

  predicate IsActiveListing(l: Listing) {
    l.isActive
  }

  function InCategory(category: string): Listing -> bool {
    (l: Listing) => l.category == category && l.isActive
  }

  function AtUniversity(university: string): Listing -> bool {
    (l: Listing) => l.university == university && l.isActive
  }

  function OwnedBy(userId: Id): Listing -> bool {
    (l: Listing) => l.userId == userId
  }

  /** `getAllListings`: the active listings, in insertion order. */
  function GetAllListings(s: Store): (r: seq<Listing>)
    ensures forall l :: l in r <==> l in s.listings.rows.Values && l.isActive
    ensures IsSubseq(r, Values(s.listings))
  {
    ValuesMembership(s.listings);
    FilterMembership(Values(s.listings), IsActiveListing);
    FilterIsSubseq(Values(s.listings), IsActiveListing);
    Filter(Values(s.listings), IsActiveListing)
  }

  function GetListing(s: Store, id: Id): (r: Option<Listing>)
    ensures r.Some? <==> id in s.listings.rows
    ensures r.Some? ==> r.value == s.listings.rows[id]
  {
    Get(s.listings, id)
  }

  /** `getListingsByUser`: the owner's listings, sold (inactive) ones included. */
  function GetListingsByUser(s: Store, userId: Id): (r: seq<Listing>)
    ensures forall l :: l in r <==> l in s.listings.rows.Values && l.userId == userId
    ensures IsSubseq(r, Values(s.listings))
  {
    ValuesMembership(s.listings);
    FilterMembership(Values(s.listings), OwnedBy(userId));
    FilterIsSubseq(Values(s.listings), OwnedBy(userId));
    Filter(Values(s.listings), OwnedBy(userId))
  }

  /** `getListingsByCategory`: exact, case-sensitive category, active only. */
  function GetListingsByCategory(s: Store, category: string): (r: seq<Listing>)
    ensures forall l :: l in r <==> l in s.listings.rows.Values && l.isActive && l.category == category
    ensures IsSubseq(r, Values(s.listings))
  {
    ValuesMembership(s.listings);
    FilterMembership(Values(s.listings), InCategory(category));
    FilterIsSubseq(Values(s.listings), InCategory(category));
    Filter(Values(s.listings), InCategory(category))
  }

  /** `getListingsByUniversity`: exact university, active only. */
  function GetListingsByUniversity(s: Store, university: string): (r: seq<Listing>)
    ensures forall l :: l in r <==> l in s.listings.rows.Values && l.isActive && l.university == university
    ensures IsSubseq(r, Values(s.listings))
  {
    ValuesMembership(s.listings);
    FilterMembership(Values(s.listings), AtUniversity(university));
    FilterIsSubseq(Values(s.listings), AtUniversity(university));
    Filter(Values(s.listings), AtUniversity(university))
  }

  /** `createListing`: `isActive` is true unless the caller said false. */
  function CreateListing(s: Store, ins: InsertListing, userId: Id, id: Id): (r: (Store, Listing))
    requires id !in s.listings.rows
    ensures r.1.id == id && r.1.createdAt == s.clock && r.1.userId == userId
    ensures && r.1.title == ins.title && r.1.description == ins.description
            && r.1.price == ins.price && r.1.category == ins.category
            && r.1.condition == ins.condition && r.1.images == ins.images
            && r.1.university == ins.university
    ensures r.1.isActive <==> ins.isActive != Some(false)
    ensures r.0.listings.rows == s.listings.rows[id := r.1]
    ensures r.0.listings.order == s.listings.order + [id]
    ensures r.0 == s.(listings := r.0.listings, clock := s.clock + 1)
  {
    var l := Listing(id, ins.title, ins.description, ins.price, ins.category, ins.condition,
                     ins.images, userId, ins.university, ins.isActive.GetOr(true), s.clock);
    (s.(listings := Put(s.listings, id, l), clock := s.clock + 1), l)
  }

  /** `updateListing`: as for users. */
  function UpdateListing(s: Store, id: Id, p: ListingPatch): (r: (Store, Option<Listing>))
    ensures id !in s.listings.rows ==> r == (s, None)
    ensures id in s.listings.rows ==>
      && r.1 == Some(PatchListing(s.listings.rows[id], p))
      && r.0.listings.rows == s.listings.rows[id := r.1.value]
      && r.0.listings.order == s.listings.order
      && r.0 == s.(listings := r.0.listings)
  {
    match Get(s.listings, id)
    case None => (s, None)
    case Some(l) =>
      var l' := PatchListing(l, p);
      (s.(listings := Put(s.listings, id, l')), Some(l'))
  }

  /** `deleteListing`: true exactly when the key was there; it is gone after,
      and the other listings keep their order. */
  function DeleteListing(s: Store, id: Id): (r: (Store, bool))
    ensures r.1 <==> id in s.listings.rows
    ensures !r.1 ==> r.0 == s
    ensures r.0.listings.rows == s.listings.rows - {id}
    ensures IsSubseq(r.0.listings.order, s.listings.order)
    ensures r.0 == s.(listings := r.0.listings)
  {
    (s.(listings := Remove(s.listings, id)), id in s.listings.rows)
  }

  // ---------------------------------------------------------------------
  // Roommate profiles

  predicate IsActiveProfile(p: RoommateProfile) {
    p.isActive
  }

  function ProfileOf(userId: Id): RoommateProfile -> bool {
    (p: RoommateProfile) => p.userId == userId
  }

  /** `getAllRoommateProfiles`: the active profiles, in insertion order. */
  function GetAllRoommateProfiles(s: Store): (r: seq<RoommateProfile>)
    ensures forall p :: p in r <==> p in s.profiles.rows.Values && p.isActive
    ensures IsSubseq(r, Values(s.profiles))
  {
    ValuesMembership(s.profiles);
    FilterMembership(Values(s.profiles), IsActiveProfile);
    FilterIsSubseq(Values(s.profiles), IsActiveProfile);
    Filter(Values(s.profiles), IsActiveProfile)
  }

  function GetRoommateProfile(s: Store, id: Id): (r: Option<RoommateProfile>)
    ensures r.Some? <==> id in s.profiles.rows
    ensures r.Some? ==> r.value == s.profiles.rows[id]
  {
    Get(s.profiles, id)
  }

  /** `getRoommateProfileByUser`: the first profile, in insertion order, that
      the user owns, active or not. */
  function GetRoommateProfileByUser(s: Store, userId: Id): (r: Option<RoommateProfile>)
    ensures r.None? <==> forall p :: p in s.profiles.rows.Values ==> p.userId != userId
    ensures r.Some? ==> r.value in s.profiles.rows.Values && r.value.userId == userId
    ensures r.Some? ==> IsFirstMatch(Values(s.profiles), ProfileOf(userId), r.value)
  {
    ValuesMembership(s.profiles);
    FindFirstIsFirst(Values(s.profiles), ProfileOf(userId));
    FindFirstNone(Values(s.profiles), ProfileOf(userId));
    FindFirst(Values(s.profiles), ProfileOf(userId))
  }

  /** `createRoommateProfile`: empty strings and a zero budget are stored as
      null; `isActive` is true unless the caller said false. */
  function CreateRoommateProfile(s: Store, ins: InsertProfile, userId: Id, id: Id)
    : (r: (Store, RoommateProfile))
    requires id !in s.profiles.rows
    ensures r.1.id == id && r.1.createdAt == s.clock && r.1.userId == userId
    ensures r.1.title == ins.title && r.1.description == ins.description
    ensures r.1.preferences == ins.preferences
    ensures r.1.budget.None? <==> ins.budget.None? || ins.budget.value == 0
    ensures r.1.budget.Some? ==> r.1.budget == ins.budget
    ensures r.1.moveInDate.None? <==> ins.moveInDate.None? || ins.moveInDate.value == ""
    ensures r.1.location.None? <==> ins.location.None? || ins.location.value == ""
    ensures r.1.contactInfo.None? <==> ins.contactInfo.None? || ins.contactInfo.value == ""
    ensures r.1.moveInDate.Some? ==> r.1.moveInDate == ins.moveInDate
    ensures r.1.location.Some? ==> r.1.location == ins.location
    ensures r.1.contactInfo.Some? ==> r.1.contactInfo == ins.contactInfo
    ensures r.1.isActive <==> ins.isActive != Some(false)
    ensures r.0.profiles.rows == s.profiles.rows[id := r.1]
    ensures r.0.profiles.order == s.profiles.order + [id]
    ensures r.0 == s.(profiles := r.0.profiles, clock := s.clock + 1)
  {
    var p := RoommateProfile(id, userId, ins.title, ins.description, ins.preferences,
                             NullIfZero(ins.budget), NullIfEmpty(ins.moveInDate),
                             NullIfEmpty(ins.location), NullIfEmpty(ins.contactInfo),
                             ins.isActive.GetOr(true), s.clock);
    (s.(profiles := Put(s.profiles, id, p), clock := s.clock + 1), p)
  }

  function UpdateRoommateProfile(s: Store, id: Id, p: ProfilePatch): (r: (Store, Option<RoommateProfile>))
    ensures id !in s.profiles.rows ==> r == (s, None)
    ensures id in s.profiles.rows ==>
      && r.1 == Some(PatchProfile(s.profiles.rows[id], p))
      && r.0.profiles.rows == s.profiles.rows[id := r.1.value]
      && r.0.profiles.order == s.profiles.order
      && r.0 == s.(profiles := r.0.profiles)
  {
    match Get(s.profiles, id)
    case None => (s, None)
    case Some(q) =>
      var q' := PatchProfile(q, p);
      (s.(profiles := Put(s.profiles, id, q')), Some(q'))
  }

  /** `deleteRoommateProfile`: as for listings. */
  function DeleteRoommateProfile(s: Store, id: Id): (r: (Store, bool))
    ensures r.1 <==> id in s.profiles.rows
    ensures !r.1 ==> r.0 == s
    ensures r.0.profiles.rows == s.profiles.rows - {id}
    ensures IsSubseq(r.0.profiles.order, s.profiles.order)
    ensures r.0 == s.(profiles := r.0.profiles)
  {
    (s.(profiles := Remove(s.profiles, id)), id in s.profiles.rows)
  }

  // ---------------------------------------------------------------------
  // Messages

  function Touches(userId: Id): Message -> bool {
    (m: Message) => m.senderId == userId || m.receiverId == userId
  }

  /** The message goes from one of `a`, `b` to the other. */
  function Between(a: Id, b: Id): Message -> bool {
    (m: Message) => (m.senderId == a && m.receiverId == b) || (m.senderId == b && m.receiverId == a)
  }

  function MessageTime(m: Message): int {
    m.createdAt
  }

  /** `getMessages`: every message the user sent or received. */
  function GetMessages(s: Store, userId: Id): (r: seq<Message>)
    ensures forall m :: m in r <==>
      m in s.messages.rows.Values && (m.senderId == userId || m.receiverId == userId)
    ensures IsSubseq(r, Values(s.messages))
  {
    ValuesMembership(s.messages);
    FilterMembership(Values(s.messages), Touches(userId));
    FilterIsSubseq(Values(s.messages), Touches(userId));
    Filter(Values(s.messages), Touches(userId))
  }

  /** `getConversation`: the messages between the two users, in either
      direction, oldest first. */
  function GetConversation(s: Store, a: Id, b: Id): (r: seq<Message>)
    ensures forall m :: m in r <==>
      && m in s.messages.rows.Values
      && ((m.senderId == a && m.receiverId == b) || (m.senderId == b && m.receiverId == a))
    ensures SortedBy(r, MessageTime)
    ensures multiset(r) == multiset(Filter(Values(s.messages), Between(a, b)))
  {
    var between := Filter(Values(s.messages), Between(a, b));
    ValuesMembership(s.messages);
    FilterMembership(Values(s.messages), Between(a, b));
    SortByMembership(between, MessageTime);
    SortBy(between, MessageTime)
  }

  /** `createMessage`: `isRead` is false unless the caller said true. */
  function CreateMessage(s: Store, ins: InsertMessage, id: Id): (r: (Store, Message))
    requires id !in s.messages.rows
    ensures r.1.id == id && r.1.createdAt == s.clock
    ensures r.1.senderId == ins.senderId && r.1.receiverId == ins.receiverId
    ensures r.1.content == ins.content
    ensures r.1.isRead <==> ins.isRead == Some(true)
    ensures r.0.messages.rows == s.messages.rows[id := r.1]
    ensures r.0.messages.order == s.messages.order + [id]
    ensures r.0 == s.(messages := r.0.messages, clock := s.clock + 1)
  {
    var m := Message(id, ins.senderId, ins.receiverId, ins.content, ins.isRead.GetOr(false), s.clock);
    (s.(messages := Put(s.messages, id, m), clock := s.clock + 1), m)
  }

  /** `markMessageRead`: unknown id answers false and changes nothing;
      otherwise only that message's `isRead` becomes true. */
  function MarkMessageRead(s: Store, id: Id): (r: (Store, bool))
    ensures r.1 <==> id in s.messages.rows
    ensures !r.1 ==> r.0 == s
    ensures r.1 ==> r.0.messages.rows == s.messages.rows[id := s.messages.rows[id].(isRead := true)]
    ensures r.0.messages.order == s.messages.order
    ensures r.0 == s.(messages := r.0.messages)
  {
    match Get(s.messages, id)
    case None => (s, false)
    case Some(m) => (s.(messages := Put(s.messages, id, m.(isRead := true))), true)
  }

  // ---------------------------------------------------------------------
  // Properties relating several operations

  /** Deleting twice: the second call answers false, and the row stays gone. */
  lemma DeleteTwice(s: Store, id: Id)
    ensures var (s1, _) := DeleteListing(s, id);
            !DeleteListing(s1, id).1 && GetListing(s1, id).None?
    ensures var (s1, _) := DeleteRoommateProfile(s, id);
            !DeleteRoommateProfile(s1, id).1 && GetRoommateProfile(s1, id).None?
  {
  }

  /** A deleted listing disappears from every list that showed it, and
      the other listings stay where they were. */
  lemma DeleteListingOthersKept(s: Store, id: Id, k: Id)
    requires k in s.listings.rows && k != id
    ensures GetListing(DeleteListing(s, id).0, k) == GetListing(s, k)
  {
  }

  /** An update followed by a read gives the patched row; every other key
      reads as before. */
  lemma UpdateThenGet(s: Store, id: Id, k: Id, p: ListingPatch)
    requires id in s.listings.rows
    ensures GetListing(UpdateListing(s, id, p).0, id) == Some(PatchListing(s.listings.rows[id], p))
    ensures k != id ==> GetListing(UpdateListing(s, id, p).0, k) == GetListing(s, k)
  {
  }

  /** A listing marked sold leaves the public list and stays in its owner's. */
  lemma SoldListingLeavesBrowse(s: Store, id: Id)
    requires id in s.listings.rows
    ensures var s1 := UpdateListing(s, id, NoListingChanges.(isActive := Some(false))).0;
            var l := s1.listings.rows[id];
            && !l.isActive
            && l in GetListingsByUser(s1, l.userId)
            && l !in GetAllListings(s1)
  {
  }

  /** The two argument orders give the same conversation. */
  lemma ConversationSymmetric(s: Store, a: Id, b: Id)
    ensures GetConversation(s, a, b) == GetConversation(s, b, a)
  {
    FilterAgree(Values(s.messages), Between(a, b), Between(b, a));
  }

  /** A conversation is part of each participant's message list. */
  lemma ConversationInMessages(s: Store, a: Id, b: Id)
    ensures forall m :: m in GetConversation(s, a, b) ==> m in GetMessages(s, a) && m in GetMessages(s, b)
  {
  }

  /** In a list sorted by time, a message newer than every other one in the
      list is its last element. */
  lemma NewestIsLast(c: seq<Message>, m: Message)
    requires SortedBy(c, MessageTime)
    requires m in c
    requires forall x :: x in c && x != m ==> MessageTime(x) < MessageTime(m)
    ensures |c| > 0 && c[|c| - 1] == m
  {
    var i :| 0 <= i < |c| && c[i] == m;
    assert c[|c| - 1] in c;
    if i < |c| - 1 {
      assert MessageTime(c[i]) <= MessageTime(c[|c| - 1]);
    }
  }

  /** A message just sent is stored and is newer than every other stored
      message. */
  lemma CreatedMessageIsNewest(s: Store, ins: InsertMessage, id: Id)
    requires ClockAhead(s)
    requires id !in s.messages.rows
    ensures var (s1, m) := CreateMessage(s, ins, id);
            && m in s1.messages.rows.Values
            && forall x :: x in s1.messages.rows.Values && x != m ==> MessageTime(x) < MessageTime(m)
  {
    var (s1, m) := CreateMessage(s, ins, id);
    var rows := s1.messages.rows;
    assert rows[id] == m;
    forall x | x in rows.Values && x != m ensures MessageTime(x) < MessageTime(m) {
      var k :| k in rows && rows[k] == x;
      assert k in s.messages.rows && x == s.messages.rows[k];
    }
  }

  /** A message just sent comes last in its conversation. */
  lemma {:induction false} NewMessageIsLast(s: Store, ins: InsertMessage, id: Id)
    requires ClockAhead(s)
    requires id !in s.messages.rows
    ensures var (s1, m) := CreateMessage(s, ins, id);
            var c := GetConversation(s1, ins.senderId, ins.receiverId);
            |c| > 0 && c[|c| - 1] == m
  {
    var (s1, m) := CreateMessage(s, ins, id);
    CreatedMessageIsNewest(s, ins, id);
    NewestIsLast(GetConversation(s1, ins.senderId, ins.receiverId), m);
  }

  /** `markMessageRead` sets the flag and is idempotent. */
  lemma MarkReadIdempotent(s: Store, id: Id)
    requires id in s.messages.rows
    ensures var s1 := MarkMessageRead(s, id).0;
            && s1.messages.rows[id].isRead
            && s1.messages.rows[id] == s.messages.rows[id].(isRead := true)
            && MarkMessageRead(s1, id) == (s1, true)
  {
    var s1 := MarkMessageRead(s, id).0;
    var m := s1.messages.rows[id];
    assert s1.messages.rows[id := m.(isRead := true)] == s1.messages.rows;
    assert Put(s1.messages, id, m.(isRead := true)) == s1.messages;
  }

  /** Creating and then reading back returns the stored row unchanged; for a
      profile that includes the order of its preferences and its budget. */
  lemma CreateThenGet(s: Store, ins: InsertProfile, userId: Id, id: Id)
    requires id !in s.profiles.rows
    ensures var (s1, p) := CreateRoommateProfile(s, ins, userId, id);
            && GetRoommateProfile(s1, id) == Some(p)
            && p.preferences == ins.preferences
            && (ins.budget.Some? && ins.budget.value != 0 ==> p.budget == ins.budget)
  {
  }

  /** Creating a row stamps it with the clock and advances the clock, so
      every creation time stays behind the clock. */
  lemma ClockAheadAfterCreate(s: Store, id: Id, iu: InsertUser, il: InsertListing,
                              ip: InsertProfile, im: InsertMessage, owner: Id)
    requires ClockAhead(s)
    ensures id !in s.users.rows ==> ClockAhead(CreateUser(s, iu, id).0)
    ensures id !in s.listings.rows ==> ClockAhead(CreateListing(s, il, owner, id).0)
    ensures id !in s.profiles.rows ==> ClockAhead(CreateRoommateProfile(s, ip, owner, id).0)
    ensures id !in s.messages.rows ==> ClockAhead(CreateMessage(s, im, id).0)
  {
  }

  /** Updates, deletes and mark-read never touch a creation time. */
  lemma ClockAheadAfterChange(s: Store, id: Id, up: UserPatch, lp: ListingPatch, pp: ProfilePatch)
    requires ClockAhead(s)
    ensures ClockAhead(UpdateUser(s, id, up).0)
    ensures ClockAhead(UpdateListing(s, id, lp).0)
    ensures ClockAhead(UpdateRoommateProfile(s, id, pp).0)
    ensures ClockAhead(DeleteListing(s, id).0)
    ensures ClockAhead(DeleteRoommateProfile(s, id).0)
    ensures ClockAhead(MarkMessageRead(s, id).0)
  {
  }
}
