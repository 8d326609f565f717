/** The four tables of the data model, the insert shapes accepted on
    creation, the untyped request bodies those shapes are parsed from, the
    partial updates accepted by the update routes, and the login shape. */
module Schema {
  import opened Basics
  import opened Tables

  // ---------------------------------------------------------------------
  // Rows. `Option` marks a nullable column; `createdAt` is a tick of the
  // store's clock.

  datatype User = User(
    id: Id, username: string, email: string, password: string,
    firstName: string, lastName: string, university: string,
    major: Option<string>, year: Option<string>, bio: Option<string>, avatar: Option<string>,
    createdAt: nat)

  /** A user as the API sends it: every column except `password`. */
  datatype PublicUser = PublicUser(
    id: Id, username: string, email: string,
    firstName: string, lastName: string, university: string,
    major: Option<string>, year: Option<string>, bio: Option<string>, avatar: Option<string>,
    createdAt: nat)

  datatype Listing = Listing(
    id: Id, title: string, description: string, price: int,
    category: string, condition: string, images: Option<seq<string>>,
    userId: Id, university: string, isActive: bool, createdAt: nat)

  datatype RoommateProfile = RoommateProfile(
    id: Id, userId: Id, title: string, description: string,
    preferences: Option<seq<string>>, budget: Option<int>, moveInDate: Option<string>,
    location: Option<string>, contactInfo: Option<string>, isActive: bool, createdAt: nat)

  datatype Message = Message(
    id: Id, senderId: Id, receiverId: Id, content: string, isRead: bool, createdAt: nat)

  /** Drops the password (`const { password, ...rest } = user`). */
  function WithoutPassword(u: User): (r: PublicUser)
    ensures WithPassword(r, u.password) == u
  {
    PublicUser(u.id, u.username, u.email, u.firstName, u.lastName, u.university,
               u.major, u.year, u.bio, u.avatar, u.createdAt)
  }

  /** `{ ...rest, password }`: puts a password back into a public view. */
  function WithPassword(v: PublicUser, password: string): (r: User)
    ensures r.password == password
  {
    User(v.id, v.username, v.email, password, v.firstName, v.lastName, v.university,
         v.major, v.year, v.bio, v.avatar, v.createdAt)
  }

  /** Adding a password and dropping it again gives the public view back. */
  lemma WithPasswordRoundTrip(v: PublicUser, password: string)
    ensures WithoutPassword(WithPassword(v, password)) == v
  {
  }

  /** The public view forgets the password and nothing else: two users look
      the same to a client exactly when they differ at most in password. */
  lemma WithoutPasswordForgetsOnlyPassword(u: User, v: User)
    ensures WithoutPassword(u) == WithoutPassword(v) <==> u.(password := v.password) == v
  {
  }

  // ---------------------------------------------------------------------
  // Insert shapes: the row minus `id` and `createdAt` (and, for listings and
  // profiles, minus `userId`). A defaulted column is optional.

  datatype InsertUser = InsertUser(
    username: string, email: string, password: string,
    firstName: string, lastName: string, university: string,
    major: Option<string>, year: Option<string>, bio: Option<string>, avatar: Option<string>)

  datatype InsertListing = InsertListing(
    title: string, description: string, price: int, category: string, condition: string,
    images: Option<seq<string>>, university: string, isActive: Option<bool>)

  datatype InsertProfile = InsertProfile(
    title: string, description: string, preferences: Option<seq<string>>,
    budget: Option<int>, moveInDate: Option<string>, location: Option<string>,
    contactInfo: Option<string>, isActive: Option<bool>)

  datatype InsertMessage = InsertMessage(
    senderId: Id, receiverId: Id, content: string, isRead: Option<bool>)

  // ---------------------------------------------------------------------
  // Request bodies as they arrive: every key may be missing (missing and
  // null are not told apart). Keys outside the insert shape are carried so
  // that their being ignored can be stated.

  datatype UserBody = UserBody(
    id: Option<string>, createdAt: Option<string>,
    username: Option<string>, email: Option<string>, password: Option<string>,
    firstName: Option<string>, lastName: Option<string>, university: Option<string>,
    major: Option<string>, year: Option<string>, bio: Option<string>, avatar: Option<string>)

  datatype ListingBody = ListingBody(
    id: Option<string>, createdAt: Option<string>, userId: Option<string>,
    title: Option<string>, description: Option<string>, price: Option<int>,
    category: Option<string>, condition: Option<string>, images: Option<seq<string>>,
    university: Option<string>, isActive: Option<bool>)

  datatype ProfileBody = ProfileBody(
    id: Option<string>, createdAt: Option<string>, userId: Option<string>,
    title: Option<string>, description: Option<string>, preferences: Option<seq<string>>,
    budget: Option<int>, moveInDate: Option<string>, location: Option<string>,
    contactInfo: Option<string>, isActive: Option<bool>)

  datatype MessageBody = MessageBody(
    id: Option<string>, createdAt: Option<string>,
    senderId: Option<string>, receiverId: Option<string>, content: Option<string>,
    isRead: Option<bool>)

  /** `insertUserSchema.parse`: the six non-null columns without a default
      are required; the nullable ones are optional. */
  function ParseUser(b: UserBody): (r: Option<InsertUser>)
    ensures r.Some? <==> && b.username.Some? && b.email.Some? && b.password.Some?
                         && b.firstName.Some? && b.lastName.Some? && b.university.Some?
    ensures r.Some? ==> b == UserBodyOf(r.value, b.id, b.createdAt)
  {
    if && b.username.Some? && b.email.Some? && b.password.Some?
       && b.firstName.Some? && b.lastName.Some? && b.university.Some?
    then Some(InsertUser(b.username.value, b.email.value, b.password.value,
                         b.firstName.value, b.lastName.value, b.university.value,
                         b.major, b.year, b.bio, b.avatar))
    else None
  }

  /** `insertListingSchema.parse`: `images` and `isActive` are optional,
      `userId` is not part of the shape. */
  function ParseListing(b: ListingBody): (r: Option<InsertListing>)
    ensures r.Some? <==> && b.title.Some? && b.description.Some? && b.price.Some?
                         && b.category.Some? && b.condition.Some? && b.university.Some?
    ensures r.Some? ==> b == ListingBodyOf(r.value, b.id, b.createdAt, b.userId)
  {
    if && b.title.Some? && b.description.Some? && b.price.Some?
       && b.category.Some? && b.condition.Some? && b.university.Some?
    then Some(InsertListing(b.title.value, b.description.value, b.price.value,
                            b.category.value, b.condition.value, b.images,
                            b.university.value, b.isActive))
    else None
  }

  /** `insertRoommateProfileSchema.parse`: only `title` and `description`
      are required; `userId` is not part of the shape. */
  function ParseProfile(b: ProfileBody): (r: Option<InsertProfile>)
    ensures r.Some? <==> b.title.Some? && b.description.Some?
    ensures r.Some? ==> b == ProfileBodyOf(r.value, b.id, b.createdAt, b.userId)
  {
    if b.title.Some? && b.description.Some?
    then Some(InsertProfile(b.title.value, b.description.value, b.preferences,
                            b.budget, b.moveInDate, b.location, b.contactInfo, b.isActive))
    else None
  }

  /** `insertMessageSchema.parse`: sender, receiver and content are required. */
  function ParseMessage(b: MessageBody): (r: Option<InsertMessage>)
    ensures r.Some? <==> b.senderId.Some? && b.receiverId.Some? && b.content.Some?
    ensures r.Some? ==> b == MessageBodyOf(r.value, b.id, b.createdAt)
  {
    if b.senderId.Some? && b.receiverId.Some? && b.content.Some?
    then Some(InsertMessage(b.senderId.value, b.receiverId.value, b.content.value, b.isRead))
    else None
  }

  // Bodies that carry exactly an insert shape plus arbitrary server fields.

  function UserBodyOf(u: InsertUser, id: Option<string>, createdAt: Option<string>): UserBody {
    UserBody(id, createdAt, Some(u.username), Some(u.email), Some(u.password),
             Some(u.firstName), Some(u.lastName), Some(u.university),
             u.major, u.year, u.bio, u.avatar)
  }

  function ListingBodyOf(l: InsertListing, id: Option<string>, createdAt: Option<string>,
                         userId: Option<string>): ListingBody {
    ListingBody(id, createdAt, userId, Some(l.title), Some(l.description), Some(l.price),
                Some(l.category), Some(l.condition), l.images, Some(l.university), l.isActive)
  }

  function ProfileBodyOf(p: InsertProfile, id: Option<string>, createdAt: Option<string>,
                         userId: Option<string>): ProfileBody {
    ProfileBody(id, createdAt, userId, Some(p.title), Some(p.description), p.preferences,
                p.budget, p.moveInDate, p.location, p.contactInfo, p.isActive)
  }

  function MessageBodyOf(m: InsertMessage, id: Option<string>, createdAt: Option<string>): MessageBody {
    MessageBody(id, createdAt, Some(m.senderId), Some(m.receiverId), Some(m.content), m.isRead)
  }

  /** Parsing recovers every insert shape from its body, whatever `id`,
      `createdAt` (and `userId`) the client adds: those keys are never read. */
  lemma ParseRoundTrip(u: InsertUser, l: InsertListing, p: InsertProfile, m: InsertMessage,
                       id: Option<string>, createdAt: Option<string>, userId: Option<string>)
    ensures ParseUser(UserBodyOf(u, id, createdAt)) == Some(u)
    ensures ParseListing(ListingBodyOf(l, id, createdAt, userId)) == Some(l)
    ensures ParseProfile(ProfileBodyOf(p, id, createdAt, userId)) == Some(p)
    ensures ParseMessage(MessageBodyOf(m, id, createdAt)) == Some(m)
  {
  }

  // ---------------------------------------------------------------------
  // Login shape.

  datatype LoginBody = LoginBody(username: Option<string>, password: Option<string>)
  datatype Credentials = Credentials(username: string, password: string)

  /** `loginSchema.parse`: both keys present, both strings of length >= 1. */
  function ParseLogin(b: LoginBody): (r: Option<Credentials>)
    ensures r.Some? <==> Truthy(b.username) && Truthy(b.password)
    ensures r.Some? ==> r.value.username == b.username.value && |r.value.username| >= 1
    ensures r.Some? ==> r.value.password == b.password.value && |r.value.password| >= 1
  {
    match (b.username, b.password)
    case (Some(u), Some(p)) => if |u| >= 1 && |p| >= 1 then Some(Credentials(u, p)) else None
    case _ => None
  }

  // ---------------------------------------------------------------------
  // Partial updates (`Partial<Row>`): each supplied key overrides the
  // stored value, as `{ ...row, ...updates }` does. A nullable column takes
  // `Some(None)` to be set to null. The patches have no `createdAt` key: a
  // request body that carries one would replace the stamp with whatever JSON
  // value it holds, and the model leaves that case out, so every statement
  // below that the creation time survives a patch is about patches without it.

  /** The later of two optional overrides wins. */
  function Later<T>(a: Option<T>, b: Option<T>): Option<T> {
    if b.Some? then b else a
  }

  datatype UserPatch = UserPatch(
    id: Option<Id>, username: Option<string>, email: Option<string>, password: Option<string>,
    firstName: Option<string>, lastName: Option<string>, university: Option<string>,
    major: Option<Option<string>>, year: Option<Option<string>>,
    bio: Option<Option<string>>, avatar: Option<Option<string>>)

  const NoUserChanges := UserPatch(None, None, None, None, None, None, None, None, None, None, None)

  /** `{ ...user, ...updates }`. */
  function PatchUser(u: User, p: UserPatch): (r: User)
    ensures r.createdAt == u.createdAt
    ensures p.password.None? ==> r.password == u.password
    ensures r.username == if p.username.Some? then p.username.value else u.username
    ensures r.email == if p.email.Some? then p.email.value else u.email
  {
    User(p.id.GetOr(u.id), p.username.GetOr(u.username), p.email.GetOr(u.email),
         p.password.GetOr(u.password), p.firstName.GetOr(u.firstName),
         p.lastName.GetOr(u.lastName), p.university.GetOr(u.university),
         p.major.GetOr(u.major), p.year.GetOr(u.year), p.bio.GetOr(u.bio),
         p.avatar.GetOr(u.avatar), u.createdAt)
  }

  /** `{ ...a, ...b }` on two updates. */
  function MergeUserPatch(a: UserPatch, b: UserPatch): UserPatch {
    UserPatch(Later(a.id, b.id), Later(a.username, b.username), Later(a.email, b.email),
              Later(a.password, b.password), Later(a.firstName, b.firstName),
              Later(a.lastName, b.lastName), Later(a.university, b.university),
              Later(a.major, b.major), Later(a.year, b.year), Later(a.bio, b.bio),
              Later(a.avatar, b.avatar))
  }

  datatype ListingPatch = ListingPatch(
    id: Option<Id>, title: Option<string>, description: Option<string>, price: Option<int>,
    category: Option<string>, condition: Option<string>, images: Option<Option<seq<string>>>,
    userId: Option<Id>, university: Option<string>, isActive: Option<bool>)

  const NoListingChanges := ListingPatch(None, None, None, None, None, None, None, None, None, None)

  /** `{ ...listing, ...updates }`. */
  function PatchListing(l: Listing, p: ListingPatch): (r: Listing)
    ensures r.createdAt == l.createdAt
    ensures r.isActive == if p.isActive.Some? then p.isActive.value else l.isActive
    ensures r.userId == if p.userId.Some? then p.userId.value else l.userId
    ensures r.price == if p.price.Some? then p.price.value else l.price
  {
    Listing(p.id.GetOr(l.id), p.title.GetOr(l.title), p.description.GetOr(l.description),
            p.price.GetOr(l.price), p.category.GetOr(l.category),
            p.condition.GetOr(l.condition), p.images.GetOr(l.images),
            p.userId.GetOr(l.userId), p.university.GetOr(l.university),
            p.isActive.GetOr(l.isActive), l.createdAt)
  }

  function MergeListingPatch(a: ListingPatch, b: ListingPatch): ListingPatch {
    ListingPatch(Later(a.id, b.id), Later(a.title, b.title), Later(a.description, b.description),
                 Later(a.price, b.price), Later(a.category, b.category),
                 Later(a.condition, b.condition), Later(a.images, b.images),
                 Later(a.userId, b.userId), Later(a.university, b.university),
                 Later(a.isActive, b.isActive))
  }

  datatype ProfilePatch = ProfilePatch(
    id: Option<Id>, userId: Option<Id>, title: Option<string>, description: Option<string>,
    preferences: Option<Option<seq<string>>>, budget: Option<Option<int>>,
    moveInDate: Option<Option<string>>, location: Option<Option<string>>,
    contactInfo: Option<Option<string>>, isActive: Option<bool>)

  const NoProfileChanges := ProfilePatch(None, None, None, None, None, None, None, None, None, None)

  /** `{ ...profile, ...updates }`. */
  function PatchProfile(r0: RoommateProfile, p: ProfilePatch): (r: RoommateProfile)
    ensures r.createdAt == r0.createdAt
    ensures r.userId == if p.userId.Some? then p.userId.value else r0.userId
    ensures r.isActive == if p.isActive.Some? then p.isActive.value else r0.isActive
    ensures r.preferences == if p.preferences.Some? then p.preferences.value else r0.preferences
  {
    RoommateProfile(p.id.GetOr(r0.id), p.userId.GetOr(r0.userId), p.title.GetOr(r0.title),
                    p.description.GetOr(r0.description), p.preferences.GetOr(r0.preferences),
                    p.budget.GetOr(r0.budget), p.moveInDate.GetOr(r0.moveInDate),
                    p.location.GetOr(r0.location), p.contactInfo.GetOr(r0.contactInfo),
                    p.isActive.GetOr(r0.isActive), r0.createdAt)
  }

  function MergeProfilePatch(a: ProfilePatch, b: ProfilePatch): ProfilePatch {
    ProfilePatch(Later(a.id, b.id), Later(a.userId, b.userId), Later(a.title, b.title),
                 Later(a.description, b.description), Later(a.preferences, b.preferences),
                 Later(a.budget, b.budget), Later(a.moveInDate, b.moveInDate),
                 Later(a.location, b.location), Later(a.contactInfo, b.contactInfo),
                 Later(a.isActive, b.isActive))
  }

  /** An update that supplies one column changes that column of the user
      and nothing else, for every column the update type has. */
  lemma PatchUserOneColumn(u: User, k: Id, t: string, o: Option<string>)
    ensures PatchUser(u, NoUserChanges.(id := Some(k))) == u.(id := k)
    ensures PatchUser(u, NoUserChanges.(username := Some(t))) == u.(username := t)
    ensures PatchUser(u, NoUserChanges.(email := Some(t))) == u.(email := t)
    ensures PatchUser(u, NoUserChanges.(password := Some(t))) == u.(password := t)
    ensures PatchUser(u, NoUserChanges.(firstName := Some(t))) == u.(firstName := t)
    ensures PatchUser(u, NoUserChanges.(lastName := Some(t))) == u.(lastName := t)
    ensures PatchUser(u, NoUserChanges.(university := Some(t))) == u.(university := t)
    ensures PatchUser(u, NoUserChanges.(major := Some(o))) == u.(major := o)
    ensures PatchUser(u, NoUserChanges.(year := Some(o))) == u.(year := o)
    ensures PatchUser(u, NoUserChanges.(bio := Some(o))) == u.(bio := o)
    ensures PatchUser(u, NoUserChanges.(avatar := Some(o))) == u.(avatar := o)
  {
  }

  /** The same for every column of a listing. */
  lemma PatchListingOneColumn(l: Listing, k: Id, t: string, n: int,
                              images: Option<seq<string>>, active: bool)
    ensures PatchListing(l, NoListingChanges.(id := Some(k))) == l.(id := k)
    ensures PatchListing(l, NoListingChanges.(title := Some(t))) == l.(title := t)
    ensures PatchListing(l, NoListingChanges.(description := Some(t))) == l.(description := t)
    ensures PatchListing(l, NoListingChanges.(price := Some(n))) == l.(price := n)
    ensures PatchListing(l, NoListingChanges.(category := Some(t))) == l.(category := t)
    ensures PatchListing(l, NoListingChanges.(condition := Some(t))) == l.(condition := t)
    ensures PatchListing(l, NoListingChanges.(images := Some(images))) == l.(images := images)
    ensures PatchListing(l, NoListingChanges.(userId := Some(k))) == l.(userId := k)
    ensures PatchListing(l, NoListingChanges.(university := Some(t))) == l.(university := t)
    ensures PatchListing(l, NoListingChanges.(isActive := Some(active))) == l.(isActive := active)
  {
  }

  /** The same for every column of a roommate profile. */
  lemma PatchProfileOneColumn(q: RoommateProfile, k: Id, t: string, o: Option<string>,
                              tags: Option<seq<string>>, budget: Option<int>, active: bool)
    ensures PatchProfile(q, NoProfileChanges.(id := Some(k))) == q.(id := k)
    ensures PatchProfile(q, NoProfileChanges.(userId := Some(k))) == q.(userId := k)
    ensures PatchProfile(q, NoProfileChanges.(title := Some(t))) == q.(title := t)
    ensures PatchProfile(q, NoProfileChanges.(description := Some(t))) == q.(description := t)
    ensures PatchProfile(q, NoProfileChanges.(preferences := Some(tags))) == q.(preferences := tags)
    ensures PatchProfile(q, NoProfileChanges.(budget := Some(budget))) == q.(budget := budget)
    ensures PatchProfile(q, NoProfileChanges.(moveInDate := Some(o))) == q.(moveInDate := o)
    ensures PatchProfile(q, NoProfileChanges.(location := Some(o))) == q.(location := o)
    ensures PatchProfile(q, NoProfileChanges.(contactInfo := Some(o))) == q.(contactInfo := o)
    ensures PatchProfile(q, NoProfileChanges.(isActive := Some(active))) == q.(isActive := active)
  {
  }

  /** The laws of `{ ...row, ...updates }`: the empty update changes nothing,
      applying an update twice is applying it once, and two updates in a row
      are one update in which the later keys win. */
  lemma PatchLaws(u: User, l: Listing, r: RoommateProfile,
                  p: UserPatch, q: UserPatch, lp: ListingPatch, lq: ListingPatch,
                  rp: ProfilePatch, rq: ProfilePatch)
    ensures PatchUser(u, NoUserChanges) == u
    ensures PatchUser(PatchUser(u, p), p) == PatchUser(u, p)
    ensures PatchUser(PatchUser(u, p), q) == PatchUser(u, MergeUserPatch(p, q))
    ensures PatchListing(l, NoListingChanges) == l
    ensures PatchListing(PatchListing(l, lp), lp) == PatchListing(l, lp)
    ensures PatchListing(PatchListing(l, lp), lq) == PatchListing(l, MergeListingPatch(lp, lq))
    ensures PatchProfile(r, NoProfileChanges) == r
    ensures PatchProfile(PatchProfile(r, rp), rp) == PatchProfile(r, rp)
    ensures PatchProfile(PatchProfile(r, rp), rq) == PatchProfile(r, MergeProfilePatch(rp, rq))
  {
  }
}
