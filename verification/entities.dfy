/**
 * The records the portal persists and the store that holds them. Every table
 * is a sequence in primary-key order; each controller action is one
 * transition from a store to a store.
 */
module Entities {
  import opened Optional
  import opened Text
  import opened Sequences

  /** A `DateTime` as ticks of 100 ns since 0001-01-01. */
  type Time = nat

  const TicksPerDay: nat := 864_000_000_000

  /** `DateTime.Date`, as a day number. */
  function DayOf(t: Time): int {
    t / TicksPerDay
  }

  /** Identity user with the portal's extra columns. */
  datatype User = User(
    id: string,
    userName: Option<string>,
    email: Option<string>,
    fullName: Option<string>,
    role: Option<string>,
    address: Option<string>,
    isActive: bool,
    emailConfirmed: bool)

  /** A citizen's complaint; `resolvedAt` is the column the ResolvedAt migration adds. */
  datatype Complaint = Complaint(
    id: int,
    category: Option<string>,
    title: string,
    description: string,
    status: string,
    createdAt: Time,
    citizenId: Option<string>,
    resolvedAt: Option<Time>)

  /** Entry of the admin activity feed; `kind` is the `Type` column. */
  datatype ActivityLog = ActivityLog(
    id: int,
    kind: string,
    title: string,
    detail: string,
    isRead: bool,
    createdAt: Time)

  datatype CitizenNotification = CitizenNotification(
    id: int,
    citizenId: string,
    title: string,
    message: string,
    kind: string,
    isRead: bool,
    createdAt: Time,
    complaintId: Option<int>)

  datatype GarbageReminder = GarbageReminder(
    id: int,
    citizenId: string,
    wardNumber: int,
    collectionDays: string,
    collectionTime: string,
    notes: Option<string>,
    createdAt: Time)

  /** A published notice with its creator attribution. */
  datatype Notice = Notice(
    id: int,
    title: string,
    description: string,
    priority: string,
    createdAt: Time,
    createdByUserId: Option<string>,
    createdByRole: Option<string>,
    createdByName: Option<string>)

  /** The notice form both publishing actions read (its view model is not part of this model; its validity is an input). */
  datatype NoticeForm = NoticeForm(title: string, description: string, priority: string)

  /**
   * The database: identity users, identity roles, the user-role mapping
   * (pairs of user id and role name) and the portal's own tables.
   */
  datatype Store = Store(
    users: seq<User>,
    roles: seq<string>,
    userRoles: set<(string, string)>,
    complaints: seq<Complaint>,
    activityLogs: seq<ActivityLog>,
    notifications: seq<CitizenNotification>,
    notices: seq<Notice>,
    reminders: seq<GarbageReminder>)

  // Keys used to order tables and to allocate identity values.
  function ComplaintIdOf(c: Complaint): int { c.id }
  function ComplaintTimeOf(c: Complaint): int { c.createdAt }
  function LogIdOf(e: ActivityLog): int { e.id }
  function LogTimeOf(e: ActivityLog): int { e.createdAt }
  function NotificationIdOf(n: CitizenNotification): int { n.id }
  function NoticeIdOf(n: Notice): int { n.id }
  function NoticeTimeOf(n: Notice): int { n.createdAt }
  function ReminderIdOf(g: GarbageReminder): int { g.id }
  function ReminderTimeOf(g: GarbageReminder): int { g.createdAt }

  // Column widths. Each `MaxLength(n)` on an entity becomes a MySQL
  // `varchar(n)`, which counts characters; in MySQL's default strict SQL mode
  // a longer value makes `SaveChanges` throw, and nothing of the request is saved.

  /** The value fits a `varchar(width)` column. */
  predicate FitsColumn(v: string, width: nat) {
    |v| <= width
  }

  /** The notice a publishing form stores (trimmed title, priority as entered) fits its columns. */
  predicate FormFits(form: NoticeForm) {
    FitsColumn(Trim(form.title), 140) && FitsColumn(form.priority, 20)
  }

  /** Category 120, Title 200 and Status 30 characters. */
  predicate ComplaintFits(c: Complaint) {
    (c.category.Some? ==> FitsColumn(c.category.value, 120)) && FitsColumn(c.title, 200) && FitsColumn(c.status, 30)
  }

  /** Title 140 and Priority 20 characters. */
  predicate NoticeFits(n: Notice) {
    FitsColumn(n.title, 140) && FitsColumn(n.priority, 20)
  }

  /** CollectionDays 100, CollectionTime 80 and Notes 200 characters. */
  predicate ReminderFits(g: GarbageReminder) {
    FitsColumn(g.collectionDays, 100) && FitsColumn(g.collectionTime, 80)
    && (g.notes.Some? ==> FitsColumn(g.notes.value, 200))
  }

  /** FullName 100 and Address 200 characters. */
  predicate UserFits(u: User) {
    (u.fullName.Some? ==> FitsColumn(u.fullName.value, 100)) && (u.address.Some? ==> FitsColumn(u.address.value, 200))
  }

  /** A value within `n` UTF-16 code units (a form's `MaxLength(n)`) fits a `varchar(n)` column. */
  lemma CodeUnitBoundFits(v: string, n: nat)
    requires Utf16Length(v) <= n
    ensures FitsColumn(v, n)
  {
    CodeUnitsOfString(v);
  }

  /** Two sequences of equal length that agree everywhere except possibly at `i`. */
  ghost predicate ChangedOnlyAt<T>(a: seq<T>, b: seq<T>, i: nat) {
    |a| == |b| && forall j :: 0 <= j < |a| && j != i ==> a[j] == b[j]
  }

  /** `after` is `before` plus one unread entry with the given content, under a fresh id. */
  ghost predicate LoggedOnce(before: seq<ActivityLog>, after: seq<ActivityLog>,
                             kind: string, title: string, detail: string, now: Time)
  {
    && |after| == |before| + 1
    && after[..|before|] == before
    && var e := after[|before|];
    && e.kind == kind && e.title == title && e.detail == detail
    && !e.isRead && e.createdAt == now
    && forall x :: x in before ==> x.id < e.id
  }

  /** `_db.ActivityLogs.Add(new ActivityLog { ..., IsRead = false, CreatedAt = now })`. */
  function AppendLog(s: Store, kind: string, title: string, detail: string, now: Time): (r: Store)
    ensures r == s.(activityLogs := r.activityLogs)
    ensures LoggedOnce(s.activityLogs, r.activityLogs, kind, title, detail, now)
  {
    var e := ActivityLog(NextId(s.activityLogs, LogIdOf), kind, title, detail, false, now);
    assert forall x :: x in s.activityLogs ==> LogIdOf(x) < e.id;
    s.(activityLogs := s.activityLogs + [e])
  }

  /** `FirstOrDefault(u => u.Id == id)` on the users table. */
  function UserIndex(users: seq<User>, id: string): (r: Option<nat>)
    ensures r.Some? ==> r.value < |users| && users[r.value].id == id
    ensures r.Some? ==> forall j :: 0 <= j < r.value ==> users[j].id != id
    ensures r.None? ==> forall u :: u in users ==> u.id != id
  {
    FirstIndex(users, (u: User) => u.id == id)
  }

  /** `_userManager.IsInRoleAsync(user, role)`. */
  predicate IsInRole(s: Store, userId: string, role: string) {
    (userId, role) in s.userRoles
  }

  /** Number of complaints whose status is exactly `status`. */
  function CountStatus(cs: seq<Complaint>, status: string): nat
  {
    if |cs| == 0 then 0
    else CountStatus(cs[..|cs| - 1], status) + (if cs[|cs| - 1].status == status then 1 else 0)
  }

  /** The three lifecycle statuses are disjoint, so their counts never exceed the total. */
  lemma {:induction false} StatusCountsBounded(cs: seq<Complaint>)
    ensures CountStatus(cs, "Pending") + CountStatus(cs, "In Progress") + CountStatus(cs, "Resolved") <= |cs|
    ensures CountStatus(cs, "Resolved") + CountStatus(cs, "Pending") <= |cs|
    decreases |cs|
  {
    if |cs| > 0 {
      StatusCountsBounded(cs[..|cs| - 1]);
    }
  }

  /** The complaints owned by `citizenId`, in table order (`Where(c => c.CitizenId == id)`). */
  function OwnedBy(cs: seq<Complaint>, citizenId: string): (r: seq<Complaint>)
    ensures forall c :: multiset(r)[c] == if c.citizenId == Some(citizenId) then multiset(cs)[c] else 0
    ensures forall c :: c in r ==> c.citizenId == Some(citizenId)
    ensures |r| <= |cs|
  {
    Filter(cs, (c: Complaint) => c.citizenId == Some(citizenId))
  }

  /** `ResolvedAt` is set exactly on resolved complaints. */
  ghost predicate ResolvedAtConsistent(c: Complaint) {
    c.resolvedAt.Some? <==> c.status == "Resolved"
  }

  ghost predicate AllResolvedAtConsistent(s: Store) {
    forall c :: c in s.complaints ==> ResolvedAtConsistent(c)
  }

  /** The primary keys of every table are unique. */
  ghost predicate UniqueKeys(s: Store) {
    && (forall i, j :: 0 <= i < j < |s.users| ==> s.users[i].id != s.users[j].id)
    && DistinctKeys(s.complaints, ComplaintIdOf)
    && DistinctKeys(s.activityLogs, LogIdOf)
    && DistinctKeys(s.notifications, NotificationIdOf)
    && DistinctKeys(s.notices, NoticeIdOf)
    && DistinctKeys(s.reminders, ReminderIdOf)
  }

  /** Appending an element under a key above all present keeps the keys distinct. */
  lemma AppendFreshKeepsDistinct<T>(s: seq<T>, x: T, id: T -> int)
    requires DistinctKeys(s, id)
    requires forall y :: y in s ==> id(y) < id(x)
    ensures DistinctKeys(s + [x], id)
  {
    forall i, j | 0 <= i < j < |s + [x]|
      ensures id((s + [x])[i]) != id((s + [x])[j])
    {
      if j == |s| {
        assert (s + [x])[i] in s;
      }
    }
  }

  /** Replacing one element by another with the same key keeps the keys distinct. */
  lemma SameKeyUpdateKeepsDistinct<T>(a: seq<T>, b: seq<T>, i: nat, id: T -> int)
    requires DistinctKeys(a, id) && ChangedOnlyAt(a, b, i)
    requires i < |a| ==> id(a[i]) == id(b[i])
    ensures DistinctKeys(b, id)
  {
    forall j, k | 0 <= j < k < |b|
      ensures id(b[j]) != id(b[k])
    {
      assert id(b[j]) == id(a[j]) && id(b[k]) == id(a[k]);
    }
  }
}
