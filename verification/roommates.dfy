/** The roommate page's client logic: the preference-tag editor, the
    profile search, the checks `onSubmit` makes before sending, and the form
    values `handleEditProfile` loads from the user's stored profile. */
module RoommatesPage {
  import opened Basics
  import opened Seqs
  import opened Text
  import opened Tables
  import opened Schema
  import opened Storage
  import opened Routes

  // ---------------------------------------------------------------------
  // The profile dialog

  /** What the dialog holds: the form's values (what `onSubmit` receives),
      the tags shown under the preference input, the text in that input,
      and whether the edit dialog is open. */
  datatype Dialog = Dialog(form: InsertProfile, shown: seq<string>, input: string, editOpen: bool)

  /** The shown tags are the tags the form will submit. */
  predicate Synced(d: Dialog) {
    d.form.preferences == Some(d.shown)
  }

  /** The form's `defaultValues`, with no tags and the edit dialog closed. */
  function NewDialog(): (d: Dialog)
    ensures Synced(d) && d.shown == [] && !d.editOpen
    ensures d.form.isActive == Some(true) && d.form.budget.None?
  {
    Dialog(InsertProfile("", "", Some([]), None, Some(""), Some(""), Some(""), Some(true)), [], "", false)
  }

  /** `addPreference`: the trimmed input is appended, to both the shown tags
      and the form, when it is non-empty and not shown yet; the input is then
      cleared. Otherwise nothing happens. */
  function AddPreference(d: Dialog): (r: Dialog)
    ensures var t := Trim(d.input);
      && (t != "" && t !in d.shown ==>
            && r.shown == d.shown + [t] && r.input == "" && Synced(r)
            && r.form == d.form.(preferences := Some(r.shown)) && r.editOpen == d.editOpen)
      && (t == "" || t in d.shown ==> r == d)
    ensures Distinct(d.shown) ==> Distinct(r.shown)
    ensures Synced(d) ==> Synced(r)
    ensures forall x :: x in r.shown && x !in d.shown ==> x != "" && !IsSpace(x[0]) && !IsSpace(x[|x| - 1])
  {
    var t := Trim(d.input);
    if t != "" && t !in d.shown then
      var updated := d.shown + [t];
      assert Distinct(d.shown) ==> Distinct(updated) by {
        if Distinct(d.shown) {
          forall i, j | 0 <= i < j < |updated| ensures updated[i] != updated[j] {
            if j == |d.shown| {
              assert updated[i] == d.shown[i] && d.shown[i] in d.shown;
            } else {
              assert updated[i] == d.shown[i] && updated[j] == d.shown[j];
            }
          }
        }
      }
      Dialog(d.form.(preferences := Some(updated)), updated, "", d.editOpen)
    else
      d
  }

  function Unequal(pref: string): string -> bool {
    (p: string) => p != pref
  }

  /** `removePreference` as written: the tag leaves the shown list only; the
      form keeps submitting it. */
  function RemovePreferenceAsWritten(d: Dialog, pref: string): (r: Dialog)
    ensures forall x :: x in r.shown <==> x in d.shown && x != pref
    ensures IsSubseq(r.shown, d.shown)
    ensures forall x :: multiset(r.shown)[x] == if x == pref then 0 else multiset(d.shown)[x]
    ensures r.form == d.form && r.input == d.input && r.editOpen == d.editOpen
  {
    FilterMembership(d.shown, Unequal(pref));
    FilterIsSubseq(d.shown, Unequal(pref));
    FilterCount(d.shown, Unequal(pref));
    d.(shown := Filter(d.shown, Unequal(pref)))
  }

  /** Once a shown tag is removed the dialog is out of sync: the form still
      holds the tag the user took away. */
  lemma RemoveAsWrittenDesyncs(d: Dialog, pref: string)
    requires Synced(d)
    requires pref in d.shown
    ensures !Synced(RemovePreferenceAsWritten(d, pref))
    ensures pref in RemovePreferenceAsWritten(d, pref).form.preferences.value
    ensures pref !in RemovePreferenceAsWritten(d, pref).shown
  {
  }

  /** `removePreference` as evidently intended: the tag leaves both the shown
      list and the form. Every copy of it goes, the rest keep their order. */
  function RemovePreference(d: Dialog, pref: string): (r: Dialog)
    ensures forall x :: x in r.shown <==> x in d.shown && x != pref
    ensures IsSubseq(r.shown, d.shown)
    ensures forall x :: multiset(r.shown)[x] == if x == pref then 0 else multiset(d.shown)[x]
    ensures Synced(r)
    ensures r.form == d.form.(preferences := Some(r.shown))
    ensures r.input == d.input && r.editOpen == d.editOpen
  {
    FilterMembership(d.shown, Unequal(pref));
    FilterIsSubseq(d.shown, Unequal(pref));
    FilterCount(d.shown, Unequal(pref));
    var kept := Filter(d.shown, Unequal(pref));
    Dialog(d.form.(preferences := Some(kept)), kept, d.input, d.editOpen)
  }

  /** Removing a tag that was just added gives the tags back as they were. */
  lemma {:induction false} RemoveAfterAdd(d: Dialog)
    requires Trim(d.input) != "" && Trim(d.input) !in d.shown
    ensures RemovePreference(AddPreference(d), Trim(d.input)).shown == d.shown
  {
    var t := Trim(d.input);
    assert forall x :: x in d.shown ==> Unequal(t)(x);
    FilterKeepsAll(d.shown, Unequal(t));
    FilterAppend(d.shown, [t], Unequal(t));
  }

  lemma {:induction false} FilterAppend<T>(xs: seq<T>, ys: seq<T>, p: T -> bool)
    ensures Filter(xs + ys, p) == Filter(xs, p) + Filter(ys, p)
  {
    if |xs| > 0 {
      assert (xs + ys)[0] == xs[0];
      assert (xs + ys)[1..] == xs[1..] + ys;
      FilterAppend(xs[1..], ys, p);
    } else {
      assert xs + ys == ys;
    }
  }

  /** Every sequence of adds and (corrected) removes from a synced dialog
      keeps it synced and duplicate-free. */
  datatype TagEdit = Add(text: string) | Remove(tag: string)

  function ApplyEdits(d: Dialog, edits: seq<TagEdit>): (r: Dialog)
    decreases |edits|
  {
    if |edits| == 0 then d
    else
      var d1 := match edits[0]
        case Add(text) => AddPreference(d.(input := text))
        case Remove(tag) => RemovePreference(d, tag);
      ApplyEdits(d1, edits[1..])
  }

  lemma {:induction false} EditsKeepSynced(d: Dialog, edits: seq<TagEdit>)
    requires Synced(d) && Distinct(d.shown)
    ensures Synced(ApplyEdits(d, edits)) && Distinct(ApplyEdits(d, edits).shown)
    decreases |edits|
  {
    if |edits| > 0 {
      var d1 := match edits[0]
        case Add(text) => AddPreference(d.(input := text))
        case Remove(tag) => RemovePreference(d, tag);
      if edits[0].Remove? {
        FilterDistinct(d.shown, Unequal(edits[0].tag));
      }
      EditsKeepSynced(d1, edits[1..]);
    }
  }

  // ---------------------------------------------------------------------
  // Search

  function LowerIncludes(field: string, q: string): bool {
    Includes(Lower(field), Lower(q))
  }

  /** A profile is kept by the search box when the query is empty or occurs,
      ignoring ASCII case, in its title, its description or its location
      when it has one. */
  predicate MatchesProfile(p: RoommateProfile, q: string) {
    || q == ""
    || LowerIncludes(p.title, q)
    || LowerIncludes(p.description, q)
    || (p.location.Some? && LowerIncludes(p.location.value, q))
  }

  function ProfileMatcher(q: string): RoommateProfile -> bool {
    (p: RoommateProfile) => MatchesProfile(p, q)
  }

  /** `filteredProfiles`. */
  function FilteredProfiles(ps: seq<RoommateProfile>, q: string): (r: seq<RoommateProfile>)
    ensures forall p :: p in r <==> p in ps && MatchesProfile(p, q)
    ensures IsSubseq(r, ps)
  {
    FilterMembership(ps, ProfileMatcher(q));
    FilterIsSubseq(ps, ProfileMatcher(q));
    Filter(ps, ProfileMatcher(q))
  }

  /** An empty search box shows every profile. */
  lemma EmptySearchKeepsAll(ps: seq<RoommateProfile>)
    ensures FilteredProfiles(ps, "") == ps
  {
    FilterKeepsAll(ps, ProfileMatcher(""));
  }

  /** A profile without a location is found only through its title or
      description. */
  lemma NoLocationSearch(p: RoommateProfile, q: string)
    requires p.location.None? && q != ""
    ensures MatchesProfile(p, q) <==>
      (exists i :: OccursAt(Lower(p.title), Lower(q), i)) ||
      (exists i :: OccursAt(Lower(p.description), Lower(q), i))
  {
  }

  // ---------------------------------------------------------------------
  // The e-mail check `/^[^\s@]+@[^\s@]+\.[^\s@]+$/`

  /** A non-empty run of characters that are neither whitespace nor '@':
      what `[^\s@]+` matches. */
  ghost predicate Word(s: string) {
    |s| > 0 && forall k :: 0 <= k < |s| ==> !IsSpace(s[k]) && s[k] != '@'
  }

  /** The pattern matches the whole of `s` with its '@' at `i` and the
      escaped '.' at `j`. */
  ghost predicate EmailSplit(s: string, i: int, j: int) {
    && 0 <= i < j < |s|
    && s[i] == '@' && s[j] == '.'
    && Word(s[..i]) && Word(s[i + 1..j]) && Word(s[j + 1..])
  }

  /** The regular expression, as its meaning: some way to split `s`. */
  ghost predicate EmailShaped(s: string) {
    exists i, j :: EmailSplit(s, i, j)
  }

  /** Index of the first occurrence of `c`. */
  function IndexOf(s: string, c: char): (r: Option<nat>)
    ensures r.None? <==> c !in s
    ensures r.Some? ==> r.value < |s| && s[r.value] == c && c !in s[..r.value]
  {
    if |s| == 0 then None
    else if s[0] == c then Some(0)
    else
      var r := IndexOf(s[1..], c);
      if r.None? then None
      else
        assert s[..r.value + 1] == [s[0]] + s[1..][..r.value];
        Some(r.value + 1)
  }

  predicate NoSpaceNorAt(s: string) {
    forall k :: 0 <= k < |s| ==> !IsSpace(s[k]) && s[k] != '@'
  }

  /** `emailRegex.test(s)`, decided in one pass: exactly one '@', not first;
      no whitespace anywhere; after the '@', a '.' that is neither first
      nor last. */
  function IsEmail(s: string): (r: bool)
    ensures r <==> EmailShaped(s)
  {
    match IndexOf(s, '@')
    case None =>
      assert forall k :: 0 <= k < |s| ==> s[k] != '@';
      false
    case Some(i) =>
      var t := s[i + 1..];
      var r := i > 0 && NoSpaceNorAt(s[..i]) && NoSpaceNorAt(t)
               && exists j | 0 < j < |t| - 1 :: t[j] == '.';
      assert r ==> EmailShaped(s) by {
        if r {
          var j :| 0 < j < |t| - 1 && t[j] == '.';
          assert s[i + 1..i + 1 + j] == t[..j];
          assert s[i + 1 + j + 1..] == t[j + 1..];
          assert EmailSplit(s, i, i + 1 + j);
        }
      }
      assert EmailShaped(s) ==> r by {
        if EmailShaped(s) {
          var i0, j0 :| EmailSplit(s, i0, j0);
          EmailSplitAt(s, i0, j0, i);
          var j := j0 - i - 1;
          assert t[j] == '.';
          forall k | 0 <= k < |t| ensures !IsSpace(t[k]) && t[k] != '@' {
            if k < j {
              assert t[k] == s[i + 1..j0][k];
            } else if k > j {
              assert t[k] == s[j0 + 1..][k - j - 1];
            }
          }
        }
      }
      r
  }

  /** In a split, the '@' is the first one in the string. */
  lemma EmailSplitAt(s: string, i0: int, j0: int, i: nat)
    requires EmailSplit(s, i0, j0)
    requires i < |s| && s[i] == '@' && '@' !in s[..i]
    ensures i == i0
  {
    assert forall k :: 0 <= k < i ==> s[..i][k] == s[k];
    assert forall k :: 0 <= k < i0 ==> s[..i0][k] == s[k];
  }

  /** What a match needs of the text: no whitespace anywhere, and at least
      one '@' and one '.'. */
  lemma EmailShapeFacts(s: string)
    ensures EmailShaped(s) ==>
      && (forall k :: 0 <= k < |s| ==> !IsSpace(s[k]))
      && '@' in s && '.' in s
  {
    if EmailShaped(s) {
      var i, j :| EmailSplit(s, i, j);
      forall k | 0 <= k < |s| ensures !IsSpace(s[k]) {
        if k < i {
          assert s[k] == s[..i][k];
        } else if i < k < j {
          assert s[k] == s[i + 1..j][k - i - 1];
        } else if k > j {
          assert s[k] == s[j + 1..][k - j - 1];
        }
      }
      assert s[i] in s && s[j] in s;
    }
  }

  /** Anything the pattern accepts has no whitespace to trim. */
  lemma EmailIsTrimmed(s: string)
    requires EmailShaped(s)
    ensures Trim(s) == s
  {
    EmailShapeFacts(s);
    TrimWithoutSpaces(s);
  }

  /** Three concrete inputs: the pattern wants a dot after the '@', and it is
      applied to the untrimmed text, so a leading space makes it fail. */
  lemma EmailExamples()
    ensures EmailShaped("ana@uni.edu")
    ensures !EmailShaped("ana@uni")
    ensures !EmailShaped(" ana@uni.edu")
  {
    var s := "ana@uni.edu";
    assert s[..3] == "ana" && s[4..7] == "uni" && s[8..] == "edu";
    assert EmailSplit(s, 3, 7);
    EmailShapeFacts("ana@uni");
    assert forall k :: 0 <= k < 7 ==> "ana@uni"[k] != '.';
    EmailShapeFacts(" ana@uni.edu");
    assert IsSpace(" ana@uni.edu"[0]);
  }

  // ---------------------------------------------------------------------
  // Submitting

  datatype Problem = NoTitle | NoDescription | NoContact | BadEmail

  /** What pressing "save" does: ask to log in, show a validation error, or
      send the form as an update of the user's profile or as a new profile. */
  datatype Outcome =
    | LoginRequired
    | Invalid(problem: Problem)
    | UpdateProfile(profileId: Id, data: InsertProfile)
    | CreateProfile(userId: Id, data: InsertProfile)

  /** The checks in order: title, description and contact must be non-blank
      once trimmed; the contact must then match the e-mail pattern as typed. */
  function Validate(data: InsertProfile): (r: Option<Problem>)
    ensures r == Some(NoTitle) <==> Trim(data.title) == ""
    ensures r == Some(NoDescription) <==> Trim(data.title) != "" && Trim(data.description) == ""
    ensures r == Some(NoContact) <==>
      && Trim(data.title) != "" && Trim(data.description) != ""
      && (data.contactInfo.None? || Trim(data.contactInfo.value) == "")
    ensures r.None? <==>
      && Trim(data.title) != "" && Trim(data.description) != ""
      && data.contactInfo.Some? && EmailShaped(data.contactInfo.value)
  {
    if Trim(data.title) == "" then Some(NoTitle)
    else if Trim(data.description) == "" then Some(NoDescription)
    else if data.contactInfo.None? || Trim(data.contactInfo.value) == "" then Some(NoContact)
    else if !IsEmail(data.contactInfo.value) then Some(BadEmail)
    else
      None
  }

  /** `onSubmit`. `user` is the logged-in user's id; `profile` the user's
      stored profile, if the page loaded one. */
  function OnSubmit(user: Option<Id>, data: InsertProfile, editOpen: bool,
                    profile: Option<RoommateProfile>): (r: Outcome)
    ensures r.LoginRequired? <==> user.None?
    ensures r.Invalid? <==> user.Some? && Validate(data).Some?
    ensures r.Invalid? ==> Validate(data) == Some(r.problem)
    ensures r.UpdateProfile? <==> user.Some? && Validate(data).None? && editOpen && profile.Some?
    ensures r.CreateProfile? <==> user.Some? && Validate(data).None? && !(editOpen && profile.Some?)
    ensures r.UpdateProfile? ==> r.profileId == profile.value.id && r.data == data
    ensures r.CreateProfile? ==> r.userId == user.value && r.data == data
    ensures r.UpdateProfile? || r.CreateProfile? ==> EmailShaped(r.data.contactInfo.value)
  {
    if user.None? then LoginRequired
    else
      match Validate(data)
      case Some(p) => Invalid(p)
      case None =>
        if editOpen && profile.Some? then UpdateProfile(profile.value.id, data)
        else CreateProfile(user.value, data)
  }

  /** A create that passes the page's checks is accepted by
      `POST /api/roommates` and stores the submitted title, description,
      tags and contact. */
  lemma SubmittedCreateIsAccepted(s: Store, user: Id, data: InsertProfile, editOpen: bool,
                                  profile: Option<RoommateProfile>, newId: Id)
    requires user != ""
    requires newId !in s.profiles.rows
    requires OnSubmit(Some(user), data, editOpen, profile).CreateProfile?
    ensures var r := PostRoommate(s, ProfileBodyOf(data, None, None, Some(user)), newId);
      && r.status == Ok
      && var p := r.state.profiles.rows[newId];
         && p.userId == user && p.title == data.title && p.description == data.description
         && p.preferences == data.preferences && p.contactInfo == data.contactInfo
  {
    ParseRoundTrip(InsertUser("", "", "", "", "", "", None, None, None, None),
                   InsertListing("", "", 0, "", "", None, "", None), data,
                   InsertMessage("", "", "", None), None, None, Some(user));
    var r := PostRoommate(s, ProfileBodyOf(data, None, None, Some(user)), newId);
    var p := r.state.profiles.rows[newId];
    assert data.contactInfo.Some? && data.contactInfo.value != "" by {
      EmailIsTrimmed(data.contactInfo.value);
    }
    assert p == CreateRoommateProfile(s, data, user, newId).1;
  }

  /** The form of the example below, with whatever tags it holds. */
  function ExampleForm(tags: seq<string>): InsertProfile {
    InsertProfile("Room near campus", "Tidy", Some(tags), None, Some(""), Some(""),
                  Some("ana@uni.edu"), Some(true))
  }

  lemma ExampleFormValid(tags: seq<string>)
    ensures Validate(ExampleForm(tags)).None?
  {
    assert !AllSpace("Room near campus") by {
      assert !IsSpace("Room near campus"[0]);
    }
    assert !AllSpace("Tidy") by {
      assert !IsSpace("Tidy"[0]);
    }
    EmailExamples();
  }

  /** The removed tag is still submitted: add "quiet", remove it with the
      handler as written, and a valid save sends it. */
  lemma RemovedTagIsSubmitted()
    ensures var d0 := Dialog(ExampleForm([]), [], "quiet", false);
      var d2 := RemovePreferenceAsWritten(AddPreference(d0), "quiet");
      && d2.shown == []
      && d2.form == ExampleForm(["quiet"])
      && OnSubmit(Some("u1"), d2.form, false, None) == CreateProfile("u1", ExampleForm(["quiet"]))
  {
    var d0 := Dialog(ExampleForm([]), [], "quiet", false);
    assert forall k :: 0 <= k < 5 ==> !IsSpace("quiet"[k]);
    TrimWithoutSpaces("quiet");
    var d1 := AddPreference(d0);
    assert d1.shown == ["quiet"] && d1.form == ExampleForm(["quiet"]);
    assert Filter(["quiet"], Unequal("quiet")) == [];
    ExampleFormValid(["quiet"]);
  }

  // ---------------------------------------------------------------------
  // Editing

  /** The form values `handleEditProfile` loads: missing text becomes "",
      missing tags become none, a zero or missing budget becomes unset, and
      a missing `isActive` reads as true. */
  function EditValues(p: RoommateProfile): (f: InsertProfile)
    ensures f.title == p.title && f.description == p.description
    ensures f.preferences == Some(if p.preferences.Some? then p.preferences.value else [])
    ensures f.budget.None? <==> p.budget.None? || p.budget.value == 0
    ensures f.budget.Some? ==> f.budget == p.budget
    ensures f.moveInDate == Some(if p.moveInDate.Some? then p.moveInDate.value else "")
    ensures f.location == Some(if p.location.Some? then p.location.value else "")
    ensures f.contactInfo == Some(if p.contactInfo.Some? then p.contactInfo.value else "")
    ensures f.isActive == Some(p.isActive)
  {
    InsertProfile(p.title, p.description, Some(p.preferences.GetOr([])), NullIfZero(p.budget),
                  Some(p.moveInDate.GetOr("")), Some(p.location.GetOr("")),
                  Some(p.contactInfo.GetOr("")), Some(p.isActive))
  }

  /** `handleEditProfile`: does nothing without a stored profile; otherwise
      loads its values, shows its tags and opens the edit dialog. */
  function HandleEditProfile(d: Dialog, profile: Option<RoommateProfile>): (r: Dialog)
    ensures profile.None? ==> r == d
    ensures profile.Some? ==> r.editOpen && Synced(r) && r.form == EditValues(profile.value)
    ensures profile.Some? ==> r.input == d.input
  {
    match profile
    case None => d
    case Some(p) => Dialog(EditValues(p), p.preferences.GetOr([]), d.input, true)
  }

  /** A profile as the server stores it on creation: no empty text and no
      zero budget in the nullable columns. */
  predicate Normalised(p: RoommateProfile) {
    && p.budget != Some(0)
    && p.moveInDate != Some("") && p.location != Some("") && p.contactInfo != Some("")
  }

  /** Loading a stored profile into the form and creating from those values
      gives the same profile back, up to its id and timestamp (and a missing
      tag list, which comes back empty). */
  lemma EditValuesRoundTrip(s: Store, p: RoommateProfile, id: Id)
    requires Normalised(p)
    requires id !in s.profiles.rows
    ensures var q := CreateRoommateProfile(s, EditValues(p), p.userId, id).1;
      q == p.(id := id, createdAt := s.clock,
              preferences := Some(if p.preferences.Some? then p.preferences.value else []))
  {
  }

  /** The body an update sends, as the store's partial update: JSON drops
      unset keys, so a missing optional value is no change at all, while a
      set one (even "") overrides the column. The `id` key the page adds is
      left out. */
  function FormPatch(f: InsertProfile): ProfilePatch {
    ProfilePatch(None, None, Some(f.title), Some(f.description),
                 if f.preferences.Some? then Some(f.preferences) else None,
                 if f.budget.Some? then Some(f.budget) else None,
                 if f.moveInDate.Some? then Some(f.moveInDate) else None,
                 if f.location.Some? then Some(f.location) else None,
                 if f.contactInfo.Some? then Some(f.contactInfo) else None,
                 f.isActive)
  }

  /** Saving an edit with the form as loaded keeps the profile, except that
      a missing tag list comes back empty and missing text comes back "". */
  lemma EditUnchangedKeepsProfile(s: Store, id: Id)
    requires id in s.profiles.rows
    ensures var p := s.profiles.rows[id];
      var r := PutRoommate(s, id, FormPatch(EditValues(p)));
      && r.status == Ok
      && r.state.profiles.rows[id] ==
           p.(preferences := Some(if p.preferences.Some? then p.preferences.value else []),
              moveInDate := Some(if p.moveInDate.Some? then p.moveInDate.value else ""),
              location := Some(if p.location.Some? then p.location.value else ""),
              contactInfo := Some(if p.contactInfo.Some? then p.contactInfo.value else ""))
  {
  }
}
