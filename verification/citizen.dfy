/**
 * The citizen area (`CitizenController`). Every action works on behalf of the
 * signed-in citizen `me`, and sees or changes only that citizen's rows.
 */
module Citizen {
  import opened Optional
  import opened Text
  import opened Sequences
  import opened Entities
  import opened Forms

  /** The name the citizen pages greet with. */
  function DisplayName(me: User): string {
    me.fullName.GetOr("Citizen")
  }

  /** The figures `Dashboard` shows. */
  datatype DashboardView = DashboardView(fullName: string, total: nat, pending: nat, inProgress: nat, resolved: nat)

  /** `Dashboard()`: counts over the caller's own complaints only. */
  function Dashboard(s: Store, me: User): (d: DashboardView)
    ensures d.fullName == DisplayName(me)
    ensures d.total == |OwnedBy(s.complaints, me.id)| <= |s.complaints|
    ensures d.pending == CountStatus(OwnedBy(s.complaints, me.id), "Pending")
    ensures d.inProgress == CountStatus(OwnedBy(s.complaints, me.id), "In Progress")
    ensures d.resolved == CountStatus(OwnedBy(s.complaints, me.id), "Resolved")
    ensures d.pending + d.inProgress + d.resolved <= d.total
  {
    var mine := OwnedBy(s.complaints, me.id);
    StatusCountsBounded(mine);
    DashboardView(DisplayName(me), |mine|, CountStatus(mine, "Pending"),
                  CountStatus(mine, "In Progress"), CountStatus(mine, "Resolved"))
  }

  /** A complaint filed by someone else, or by nobody, never shows on the caller's dashboard. */
  lemma {:induction false} DashboardIgnoresOthers(s: Store, me: User, c: Complaint)
    requires c.citizenId != Some(me.id)
    ensures Dashboard(s.(complaints := s.complaints + [c]), me) == Dashboard(s, me)
  {
    var cs := s.complaints + [c];
    assert cs[..|cs| - 1] == s.complaints;
    assert OwnedBy(cs, me.id) == OwnedBy(s.complaints, me.id);
  }

  /** `MyComplaints()`: exactly the caller's complaints, newest first. */
  function MyComplaints(s: Store, me: User): (r: seq<Complaint>)
    ensures forall c :: c in r ==> c.citizenId == Some(me.id)
    ensures forall c :: multiset(r)[c] == if c.citizenId == Some(me.id) then multiset(s.complaints)[c] else 0
    ensures SortedDesc(r, ComplaintTimeOf)
  {
    SortDesc(OwnedBy(s.complaints, me.id), ComplaintTimeOf)
  }

  /** The dashboard total is the length of the caller's complaint list. */
  lemma DashboardTotalIsListLength(s: Store, me: User)
    ensures Dashboard(s, me).total == |MyComplaints(s, me)|
  {
  }

  /** `TrackStatus(id)`: the complaint with that id, but only when the caller owns it. */
  function TrackStatus(s: Store, me: User, id: Option<int>): (r: Option<Complaint>)
    ensures id.None? ==> r.None?
    ensures r.Some? ==> r.value in s.complaints && id == Some(r.value.id) && r.value.citizenId == Some(me.id)
    ensures r.None? && id.Some? ==> forall c :: c in s.complaints ==> !(c.id == id.value && c.citizenId == Some(me.id))
  {
    match id
    case None => None
    case Some(k) =>
      match FirstIndex(s.complaints, (c: Complaint) => c.id == k && c.citizenId == Some(me.id))
      case None => None
      case Some(i) => Some(s.complaints[i])
  }

  /** Another citizen's complaint is never revealed, whatever id is asked for. */
  lemma TrackStatusNeverRevealsOthers(s: Store, me: User, id: Option<int>, c: Complaint)
    requires c.citizenId != Some(me.id)
    ensures TrackStatus(s, me, id) != Some(c)
  {
  }

  /**
   * `SubmitComplaint(vm)`: a valid wizard files one pending complaint for the
   * caller. The wizard bounds the title but not the category, so a category
   * longer than its 120-character column makes the save fail.
   */
  function SubmitComplaint(s: Store, me: User, vm: ComplaintWizard, isEmail: string -> bool, now: Time): (r: Store)
    ensures !ComplaintWizardValid(vm, isEmail) ==> r == s
    ensures ComplaintWizardValid(vm, isEmail) && !FitsColumn(vm.category.GetOr("Other"), 120) ==> r == s
    ensures ComplaintWizardValid(vm, isEmail) && FitsColumn(vm.category.GetOr("Other"), 120) ==>
      && r == s.(complaints := r.complaints)
      && |r.complaints| == |s.complaints| + 1 && r.complaints[..|s.complaints|] == s.complaints
      && var c := r.complaints[|s.complaints|];
      && c.status == "Pending" && c.resolvedAt.None? && c.citizenId == Some(me.id)
      && c.category == Some(vm.category.GetOr("Other"))
      && c.title == vm.title.GetOr("") && c.description == vm.description.GetOr("")
      && c.createdAt == now
      && (forall x :: x in s.complaints ==> x.id < c.id)
  {
    if !ComplaintWizardValid(vm, isEmail) then s
    else
      var c := Complaint(NextId(s.complaints, ComplaintIdOf), Some(vm.category.GetOr("Other")),
                         vm.title.GetOr(""), vm.description.GetOr(""), "Pending", now, Some(me.id), None);
      CodeUnitBoundFits(c.title, 200);
      if !ComplaintFits(c) then s
      else
        assert forall x :: x in s.complaints ==> ComplaintIdOf(x) < c.id;
        s.(complaints := s.complaints + [c])
  }

  /**
   * An accepted wizard is filed exactly when its category fits the column, and
   * then the stored category, title and description are exactly the ones entered.
   */
  lemma SubmittedComplaintKeepsEnteredText(s: Store, me: User, vm: ComplaintWizard, isEmail: string -> bool, now: Time)
    requires ComplaintWizardValid(vm, isEmail)
    ensures var t := SubmitComplaint(s, me, vm, isEmail, now);
      && (|t.complaints| > |s.complaints| <==> FitsColumn(vm.category.value, 120))
      && (|t.complaints| > |s.complaints| ==>
            var c := t.complaints[|s.complaints|];
            && c.category == vm.category && Some(c.title) == vm.title && Some(c.description) == vm.description
            && Trim(c.title) != "")
  {
    RequiredMeaning(vm.title);
    RequiredMeaning(vm.category);
  }

  /** Filing a complaint keeps `ResolvedAt` consistent and every key unique. */
  lemma SubmitKeepsInvariants(s: Store, me: User, vm: ComplaintWizard, isEmail: string -> bool, now: Time)
    requires AllResolvedAtConsistent(s) && UniqueKeys(s)
    ensures AllResolvedAtConsistent(SubmitComplaint(s, me, vm, isEmail, now))
    ensures UniqueKeys(SubmitComplaint(s, me, vm, isEmail, now))
  {
    var r := SubmitComplaint(s, me, vm, isEmail, now);
    if r != s {
      var k := |s.complaints|;
      assert r.complaints == s.complaints + [r.complaints[k]];
      AppendFreshKeepsDistinct(s.complaints, r.complaints[k], ComplaintIdOf);
    }
  }

  // Garbage reminders

  const DefaultCollectionDays: string := "Sunday \U{2013} Friday"
  const DefaultCollectionTime: string := "6:00 AM \U{2013} 10:00 AM"
  const DefaultNotes: string := "All Types of Waste"

  /** The value kept for a reminder field: the input, or the default when the input is blank. */
  function OrDefault(v: Option<string>, default: string): (r: string)
    ensures IsNullOrWhiteSpace(v) ==> r == default
    ensures !IsNullOrWhiteSpace(v) ==> Some(r) == v
  {
    if IsNullOrWhiteSpace(v) then default else v.value
  }

  /** The caller already has a reminder for this ward. */
  predicate HasReminder(s: Store, citizenId: string, ward: int) {
    exists g :: g in s.reminders && g.citizenId == citizenId && g.wardNumber == ward
  }

  /**
   * The values a reminder would store fit their columns. The action takes raw
   * parameters, so nothing bounds them before the save.
   */
  predicate ReminderInputFits(days: Option<string>, time: Option<string>, notes: Option<string>) {
    && FitsColumn(OrDefault(days, DefaultCollectionDays), 100)
    && FitsColumn(OrDefault(time, DefaultCollectionTime), 80)
    && FitsColumn(OrDefault(notes, DefaultNotes), 200)
  }

  /**
   * `SaveGarbageReminder(...)`: one reminder per citizen and ward, with defaults
   * for blank fields; a value too long for its column makes the save fail.
   */
  function SaveGarbageReminder(s: Store, me: User, wardNumber: int, days: Option<string>, time: Option<string>,
                               notes: Option<string>, now: Time): (r: Store)
    ensures wardNumber <= 0 || HasReminder(s, me.id, wardNumber) ==> r == s
    ensures wardNumber > 0 && !HasReminder(s, me.id, wardNumber) ==> (r != s <==> ReminderInputFits(days, time, notes))
    ensures r != s ==>
      && r == s.(reminders := r.reminders)
      && |r.reminders| == |s.reminders| + 1 && r.reminders[..|s.reminders|] == s.reminders
      && var g := r.reminders[|s.reminders|];
      && g.citizenId == me.id && g.wardNumber == wardNumber && g.createdAt == now
      && (IsNullOrWhiteSpace(days) ==> g.collectionDays == DefaultCollectionDays)
      && (!IsNullOrWhiteSpace(days) ==> Some(g.collectionDays) == days)
      && (IsNullOrWhiteSpace(time) ==> g.collectionTime == DefaultCollectionTime)
      && (!IsNullOrWhiteSpace(time) ==> Some(g.collectionTime) == time)
      && (IsNullOrWhiteSpace(notes) ==> g.notes == Some(DefaultNotes))
      && (!IsNullOrWhiteSpace(notes) ==> g.notes == notes)
      && (forall x :: x in s.reminders ==> x.id < g.id)
  {
    if wardNumber <= 0 || HasReminder(s, me.id, wardNumber) then s
    else
      var g := GarbageReminder(NextId(s.reminders, ReminderIdOf), me.id, wardNumber,
                               OrDefault(days, DefaultCollectionDays), OrDefault(time, DefaultCollectionTime),
                               Some(OrDefault(notes, DefaultNotes)), now);
      if !ReminderFits(g) then s
      else
        assert forall x :: x in s.reminders ==> ReminderIdOf(x) < g.id;
        s.(reminders := s.reminders + [g])
  }

  /** No two reminders belong to the same citizen and ward. */
  ghost predicate OneReminderPerWard(s: Store) {
    forall i, j :: 0 <= i < j < |s.reminders| ==>
      !(s.reminders[i].citizenId == s.reminders[j].citizenId && s.reminders[i].wardNumber == s.reminders[j].wardNumber)
  }

  /** Saving a reminder keeps at most one reminder per citizen and ward. */
  lemma SaveKeepsOneReminderPerWard(s: Store, me: User, wardNumber: int, days: Option<string>,
                                    time: Option<string>, notes: Option<string>, now: Time)
    requires OneReminderPerWard(s)
    ensures OneReminderPerWard(SaveGarbageReminder(s, me, wardNumber, days, time, notes, now))
  {
    var r := SaveGarbageReminder(s, me, wardNumber, days, time, notes, now);
    if r != s {
      var n := |s.reminders|;
      forall i, j | 0 <= i < j < |r.reminders|
        ensures !(r.reminders[i].citizenId == r.reminders[j].citizenId
                  && r.reminders[i].wardNumber == r.reminders[j].wardNumber)
      {
        if j == n {
          assert r.reminders[i] == s.reminders[i];
          assert r.reminders[i] in s.reminders;
        } else {
          assert r.reminders[i] == s.reminders[i] && r.reminders[j] == s.reminders[j];
        }
      }
    }
  }

  /**
   * A second save for the same ward changes nothing, unless the first one
   * failed on a value too long for its column.
   */
  lemma SaveTwiceIsSaveOnce(s: Store, me: User, wardNumber: int, days: Option<string>, time: Option<string>,
                            notes: Option<string>, t1: Time, t2: Time, days2: Option<string>,
                            time2: Option<string>, notes2: Option<string>)
    ensures var s1 := SaveGarbageReminder(s, me, wardNumber, days, time, notes, t1);
      ReminderInputFits(days, time, notes) || wardNumber <= 0 || HasReminder(s, me.id, wardNumber) ==>
      SaveGarbageReminder(s1, me, wardNumber, days2, time2, notes2, t2) == s1
  {
    var s1 := SaveGarbageReminder(s, me, wardNumber, days, time, notes, t1);
    if s1 != s {
      assert s1.reminders[|s.reminders|] in s1.reminders;
    }
  }

  /** `DeleteGarbageReminder(id)`: removes the caller's reminder with that id; anything else is a no-op. */
  function DeleteGarbageReminder(s: Store, me: User, id: int): (r: Store)
    ensures r == s <==> forall g :: g in s.reminders ==> !(g.id == id && g.citizenId == me.id)
    ensures r == s.(reminders := r.reminders)
    ensures r != s ==>
      && |r.reminders| == |s.reminders| - 1
      && exists i :: (0 <= i < |s.reminders| && s.reminders[i].id == id && s.reminders[i].citizenId == me.id
                      && r.reminders == s.reminders[..i] + s.reminders[i + 1..])
    ensures forall g: GarbageReminder :: g.id != id || g.citizenId != me.id ==> multiset(r.reminders)[g] == multiset(s.reminders)[g]
  {
    match FirstIndex(s.reminders, (g: GarbageReminder) => g.id == id && g.citizenId == me.id)
    case None => s
    case Some(i) =>
      assert s.reminders == s.reminders[..i] + [s.reminders[i]] + s.reminders[i + 1..];
      s.(reminders := s.reminders[..i] + s.reminders[i + 1..])
  }

  /** Position `a` of a sequence with element `i` removed. */
  lemma RemovedAt<T>(s: seq<T>, i: nat, a: nat)
    requires i < |s| && a < |s| - 1
    ensures (s[..i] + s[i + 1..])[a] == s[if a < i then a else a + 1]
  {
  }

  /** Removing a reminder keeps at most one reminder per citizen and ward. */
  lemma DeleteKeepsOneReminderPerWard(s: Store, me: User, id: int)
    requires OneReminderPerWard(s)
    ensures OneReminderPerWard(DeleteGarbageReminder(s, me, id))
  {
    var r := DeleteGarbageReminder(s, me, id);
    if r != s {
      var i :| 0 <= i < |s.reminders| && r.reminders == s.reminders[..i] + s.reminders[i + 1..];
      forall a, b | 0 <= a < b < |r.reminders|
        ensures !(r.reminders[a].citizenId == r.reminders[b].citizenId
                  && r.reminders[a].wardNumber == r.reminders[b].wardNumber)
      {
        RemovedAt(s.reminders, i, a);
        RemovedAt(s.reminders, i, b);
      }
    }
  }

  /** `MyGarbageReminders()`: exactly the caller's reminders, newest first. */
  function MyGarbageReminders(s: Store, me: User): (r: seq<GarbageReminder>)
    ensures forall g :: g in r ==> g.citizenId == me.id
    ensures forall g :: multiset(r)[g] == if g.citizenId == me.id then multiset(s.reminders)[g] else 0
    ensures SortedDesc(r, ReminderTimeOf)
  {
    var mine := Filter(s.reminders, (g: GarbageReminder) => g.citizenId == me.id);
    var r := SortDesc(mine, ReminderTimeOf);
    forall g | g in r
      ensures g.citizenId == me.id
    {
      assert g in multiset(r);
      assert g in mine;
    }
    r
  }

  /** A saved reminder shows in the caller's list, next to every reminder listed before. */
  lemma SavedReminderIsListed(s: Store, me: User, wardNumber: int, days: Option<string>, time: Option<string>,
                              notes: Option<string>, now: Time)
    requires wardNumber > 0 && !HasReminder(s, me.id, wardNumber) && ReminderInputFits(days, time, notes)
    ensures var r := SaveGarbageReminder(s, me, wardNumber, days, time, notes, now);
      && r.reminders[|s.reminders|] in MyGarbageReminders(r, me)
      && |MyGarbageReminders(r, me)| == |MyGarbageReminders(s, me)| + 1
      && forall g :: g in MyGarbageReminders(s, me) ==> g in MyGarbageReminders(r, me)
  {
    var r := SaveGarbageReminder(s, me, wardNumber, days, time, notes, now);
    var g := r.reminders[|s.reminders|];
    assert r.reminders == s.reminders + [g];
    assert multiset(r.reminders) == multiset(s.reminders) + multiset{g};
    var a := MyGarbageReminders(s, me);
    var b := MyGarbageReminders(r, me);
    assert multiset(b) == multiset(a) + multiset{g} by {
      forall x
        ensures multiset(b)[x] == (multiset(a) + multiset{g})[x]
      {
      }
    }
    assert |multiset(b)| == |multiset(a)| + 1;
    assert g in multiset(b);
    forall x | x in a
      ensures x in b
    {
      assert x in multiset(a);
    }
  }

  /** Once the caller deletes a reminder by a unique id, no reminder with that id remains on their list. */
  lemma DeletedReminderLeavesList(s: Store, me: User, id: int)
    requires DistinctKeys(s.reminders, ReminderIdOf)
    ensures forall g :: g in MyGarbageReminders(DeleteGarbageReminder(s, me, id), me) ==> g.id != id
  {
    var r := DeleteGarbageReminder(s, me, id);
    var list := MyGarbageReminders(r, me);
    if r == s {
      forall g | g in list
        ensures g.id != id
      {
        assert g in multiset(list);
        assert g in s.reminders;
      }
    } else {
      var i :| 0 <= i < |s.reminders| && s.reminders[i].id == id && s.reminders[i].citizenId == me.id
               && r.reminders == s.reminders[..i] + s.reminders[i + 1..];
      RemovedKeyIsGone(s.reminders, i, ReminderIdOf);
      forall g | g in list
        ensures g.id != id
      {
        assert g in multiset(list);
        assert g in r.reminders;
        assert ReminderIdOf(g) != ReminderIdOf(s.reminders[i]);
      }
    }
  }

  // Profile

  /** `MyProfile(vm)` POST: a valid form rewrites the caller's name and address and nothing else. */
  function UpdateProfile(s: Store, callerId: string, vm: ProfileForm, isEmail: string -> bool): (r: Store)
    ensures !ProfileValid(vm, isEmail) || UserIndex(s.users, callerId).None? ==> r == s
    ensures ProfileValid(vm, isEmail) && UserIndex(s.users, callerId).Some? ==>
      var i := UserIndex(s.users, callerId).value;
      && r == s.(users := r.users)
      && ChangedOnlyAt(s.users, r.users, i)
      && r.users[i] == s.users[i].(fullName := vm.fullName, address := vm.address)
  {
    if !ProfileValid(vm, isEmail) then s
    else match UserIndex(s.users, callerId)
      case None => s
      case Some(i) => s.(users := s.users[i := s.users[i].(fullName := vm.fullName, address := vm.address)])
  }

  /** The profile form never changes anyone's e-mail, id, role or activation, whatever e-mail it carries. */
  lemma UpdateProfileKeepsIdentity(s: Store, callerId: string, vm: ProfileForm, isEmail: string -> bool)
    ensures var r := UpdateProfile(s, callerId, vm, isEmail);
      && |r.users| == |s.users|
      && forall j :: 0 <= j < |s.users| ==>
           && r.users[j].email == s.users[j].email && r.users[j].id == s.users[j].id
           && r.users[j].role == s.users[j].role && r.users[j].isActive == s.users[j].isActive
  {
  }

  /** `DeactivateAccount()`: switched off; only a message is shown. */
  function DeactivateAccount(s: Store): (r: (Store, string))
    ensures r.0 == s
    ensures r.1 == "Deactivate feature is disabled for now."
  {
    (s, "Deactivate feature is disabled for now.")
  }
}
