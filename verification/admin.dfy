/**
 * The admin area (`AdminController`): complaint status changes with citizen
 * notification, user activation and soft delete, notice maintenance, the
 * activity feed and the dashboard counts.
 */
module Admin {
  import opened Optional
  import opened Text
  import opened Sequences
  import opened Entities

  /** The only statuses a complaint may be moved to. */
  const AllowedStatuses: seq<string> := ["Pending", "In Progress", "Resolved"]

  /** The seeded administrator, who cannot be soft-deleted. */
  const ReservedAdminEmail: string := "admin@smartnagar.com"

  /** `FirstOrDefault(c => c.Id == id)` on the complaints table. */
  function ComplaintIndex(cs: seq<Complaint>, id: int): (r: Option<nat>)
    ensures r.Some? ==> r.value < |cs| && cs[r.value].id == id
    ensures r.Some? ==> forall j :: 0 <= j < r.value ==> cs[j].id != id
    ensures r.None? ==> forall c :: c in cs ==> c.id != id
  {
    FirstIndex(cs, (c: Complaint) => c.id == id)
  }

  /** The requested status after the blank check, trimming and the whitelist. */
  function AcceptedStatus(status: Option<string>): (r: Option<string>)
    ensures r.Some? ==> r.value in AllowedStatuses && status.Some? && r.value == Trim(status.value)
    ensures r.None? ==> status.None? || Trim(status.value) !in AllowedStatuses
  {
    if IsNullOrWhiteSpace(status) then None
    else if Trim(status.value) in AllowedStatuses then Some(Trim(status.value))
    else None
  }

  /** `after` is `before` plus one unread status-update notification for `citizenId` about complaint `id`. */
  ghost predicate NotifiedOnce(before: seq<CitizenNotification>, after: seq<CitizenNotification>,
                               citizenId: string, id: int, status: string, now: Time)
  {
    && |after| == |before| + 1
    && after[..|before|] == before
    && var n := after[|before|];
    && n.citizenId == citizenId && n.complaintId == Some(id)
    && n.kind == "ComplaintUpdate" && n.title == "Complaint Status Updated"
    && n.message == "Your complaint #" + IntToString(id) + " is now '" + status + "'."
    && !n.isRead && n.createdAt == now
    && forall x :: x in before ==> x.id < n.id
  }

  /** `UpdateComplaintStatus(id, status)`: both saves of the action happen as one transition. */
  function UpdateComplaintStatus(s: Store, id: int, status: Option<string>, now: Time): (r: Store)
    ensures AcceptedStatus(status).None? ==> r == s
    ensures ComplaintIndex(s.complaints, id).None? ==> r == s
    ensures AcceptedStatus(status).Some? && ComplaintIndex(s.complaints, id).Some? ==>
      var st := AcceptedStatus(status).value;
      var i := ComplaintIndex(s.complaints, id).value;
      var c := s.complaints[i];
      && r == s.(complaints := r.complaints, activityLogs := r.activityLogs, notifications := r.notifications)
      && ChangedOnlyAt(s.complaints, r.complaints, i)
      && r.complaints[i] == c.(status := st, resolvedAt := r.complaints[i].resolvedAt)
      && (r.complaints[i].resolvedAt.Some? <==> st == "Resolved")
      && (st == "Resolved" ==> r.complaints[i].resolvedAt == Some(now))
      && LoggedOnce(s.activityLogs, r.activityLogs, "Complaint", "Complaint status updated",
                    "Complaint #" + IntToString(id) + " -> " + st, now)
      && (IsNullOrEmpty(c.citizenId) ==> r.notifications == s.notifications)
      && (!IsNullOrEmpty(c.citizenId) ==> NotifiedOnce(s.notifications, r.notifications, c.citizenId.value, id, st, now))
  {
    match AcceptedStatus(status)
    case None => s
    case Some(st) =>
      match ComplaintIndex(s.complaints, id)
      case None => s
      case Some(i) =>
        var c := s.complaints[i];
        var updated := c.(status := st, resolvedAt := if st == "Resolved" then Some(now) else None);
        var logged := AppendLog(s.(complaints := s.complaints[i := updated]), "Complaint",
                                "Complaint status updated", "Complaint #" + IntToString(c.id) + " -> " + st, now);
        if IsNullOrEmpty(c.citizenId) then logged
        else
          var n := CitizenNotification(NextId(s.notifications, NotificationIdOf), c.citizenId.value,
                                       "Complaint Status Updated",
                                       "Your complaint #" + IntToString(c.id) + " is now '" + st + "'.",
                                       "ComplaintUpdate", false, now, Some(c.id));
          assert forall x :: x in s.notifications ==> NotificationIdOf(x) < n.id;
          logged.(notifications := s.notifications + [n])
  }

  /** A status update keeps `ResolvedAt` set exactly on resolved complaints, store-wide. */
  lemma UpdateStatusKeepsResolvedAt(s: Store, id: int, status: Option<string>, now: Time)
    requires AllResolvedAtConsistent(s)
    ensures AllResolvedAtConsistent(UpdateComplaintStatus(s, id, status, now))
  {
    var r := UpdateComplaintStatus(s, id, status, now);
    if AcceptedStatus(status).Some? && ComplaintIndex(s.complaints, id).Some? {
      var i := ComplaintIndex(s.complaints, id).value;
      forall c | c in r.complaints
        ensures ResolvedAtConsistent(c)
      {
        var j :| 0 <= j < |r.complaints| && r.complaints[j] == c;
        if j != i {
          assert c == s.complaints[j];
        }
      }
    }
  }

  /** A status update keeps every table's keys unique. */
  lemma UpdateStatusKeepsUniqueKeys(s: Store, id: int, status: Option<string>, now: Time)
    requires UniqueKeys(s)
    ensures UniqueKeys(UpdateComplaintStatus(s, id, status, now))
  {
    var r := UpdateComplaintStatus(s, id, status, now);
    if AcceptedStatus(status).Some? && ComplaintIndex(s.complaints, id).Some? {
      var i := ComplaintIndex(s.complaints, id).value;
      SameKeyUpdateKeepsDistinct(s.complaints, r.complaints, i, ComplaintIdOf);
      var k := |s.activityLogs|;
      assert r.activityLogs == s.activityLogs + [r.activityLogs[k]];
      AppendFreshKeepsDistinct(s.activityLogs, r.activityLogs[k], LogIdOf);
      if |r.notifications| != |s.notifications| {
        var m := |s.notifications|;
        assert r.notifications == s.notifications + [r.notifications[m]];
        AppendFreshKeepsDistinct(s.notifications, r.notifications[m], NotificationIdOf);
      }
    }
  }

  /** `$"{user.FullName} ({user.Email})"`, with nulls printed as empty text. */
  function UserDetail(u: User): string {
    u.fullName.GetOr("") + " (" + u.email.GetOr("") + ")"
  }

  /** The user a non-blank id designates, if any. */
  function TargetUser(s: Store, id: Option<string>): (r: Option<nat>)
    ensures r.Some? ==> id.Some? && !IsBlank(id.value) && r.value < |s.users| && s.users[r.value].id == id.value
    ensures r.None? ==> IsNullOrWhiteSpace(id) || forall u :: u in s.users ==> u.id != id.value
  {
    if IsNullOrWhiteSpace(id) then None else UserIndex(s.users, id.value)
  }

  /** `ToggleActive(id)`: flips one user's activation and logs which way it went. */
  function ToggleActive(s: Store, id: Option<string>, now: Time): (r: Store)
    ensures TargetUser(s, id).None? ==> r == s
    ensures TargetUser(s, id).Some? ==>
      var i := TargetUser(s, id).value;
      && r == s.(users := r.users, activityLogs := r.activityLogs)
      && ChangedOnlyAt(s.users, r.users, i)
      && r.users[i] == s.users[i].(isActive := !s.users[i].isActive)
      && LoggedOnce(s.activityLogs, r.activityLogs, "User",
                    if r.users[i].isActive then "User activated" else "User deactivated",
                    UserDetail(s.users[i]), now)
  {
    match TargetUser(s, id)
    case None => s
    case Some(i) =>
      var u := s.users[i].(isActive := !s.users[i].isActive);
      AppendLog(s.(users := s.users[i := u]), "User",
                if u.isActive then "User activated" else "User deactivated", UserDetail(u), now)
  }

  /** Toggling the same user twice restores every user. */
  lemma ToggleTwiceRestoresUsers(s: Store, id: Option<string>, t1: Time, t2: Time)
    ensures ToggleActive(ToggleActive(s, id, t1), id, t2).users == s.users
  {
    var s1 := ToggleActive(s, id, t1);
    if TargetUser(s, id).Some? {
      assert TargetUser(s1, id) == TargetUser(s, id);
    }
  }

  /** The seeded administrator, recognised by lower-cased e-mail. */
  predicate IsReservedAdmin(u: User) {
    Lower(u.email.GetOr("")) == ReservedAdminEmail
  }

  /** `DeleteUser(id)`: soft delete, never applied to the seeded administrator. */
  function DeleteUser(s: Store, id: Option<string>, now: Time): (r: Store)
    ensures TargetUser(s, id).None? ==> r == s
    ensures TargetUser(s, id).Some? && IsReservedAdmin(s.users[TargetUser(s, id).value]) ==> r == s
    ensures TargetUser(s, id).Some? && !IsReservedAdmin(s.users[TargetUser(s, id).value]) ==>
      var i := TargetUser(s, id).value;
      && r == s.(users := r.users, activityLogs := r.activityLogs)
      && ChangedOnlyAt(s.users, r.users, i)
      && r.users[i] == s.users[i].(isActive := false)
      && LoggedOnce(s.activityLogs, r.activityLogs, "User", "User disabled (soft delete)", UserDetail(s.users[i]), now)
  {
    match TargetUser(s, id)
    case None => s
    case Some(i) =>
      if IsReservedAdmin(s.users[i]) then s
      else
        var u := s.users[i].(isActive := false);
        AppendLog(s.(users := s.users[i := u]), "User", "User disabled (soft delete)", UserDetail(u), now)
  }

  /** No admin action removes a user row, and the reserved administrator is never touched by `DeleteUser`. */
  lemma DeleteUserNeverRemovesOrTouchesAdmin(s: Store, id: Option<string>, now: Time)
    ensures |DeleteUser(s, id, now).users| == |s.users|
    ensures forall j :: 0 <= j < |s.users| && IsReservedAdmin(s.users[j]) ==> DeleteUser(s, id, now).users[j] == s.users[j]
  {
  }

  /** `FirstOrDefault(x => x.Id == id)` on the activity feed. */
  function LogIndex(logs: seq<ActivityLog>, id: int): (r: Option<nat>)
    ensures r.Some? ==> r.value < |logs| && logs[r.value].id == id
    ensures r.Some? ==> forall j :: 0 <= j < r.value ==> logs[j].id != id
    ensures r.None? ==> forall e :: e in logs ==> e.id != id
  {
    FirstIndex(logs, (e: ActivityLog) => e.id == id)
  }

  /** `MarkActivityRead(id)`: marks that one entry read; an unknown id changes nothing. */
  function MarkActivityRead(s: Store, id: int): (r: Store)
    ensures LogIndex(s.activityLogs, id).None? ==> r == s
    ensures LogIndex(s.activityLogs, id).Some? ==>
      var i := LogIndex(s.activityLogs, id).value;
      && r == s.(activityLogs := r.activityLogs)
      && ChangedOnlyAt(s.activityLogs, r.activityLogs, i)
      && r.activityLogs[i] == s.activityLogs[i].(isRead := true)
  {
    match LogIndex(s.activityLogs, id)
    case None => s
    case Some(i) => s.(activityLogs := s.activityLogs[i := s.activityLogs[i].(isRead := true)])
  }

  /** Marking the same entry read twice is the same as once. */
  lemma MarkActivityReadIdempotent(s: Store, id: int)
    ensures MarkActivityRead(MarkActivityRead(s, id), id) == MarkActivityRead(s, id)
  {
    var r := MarkActivityRead(s, id);
    if LogIndex(s.activityLogs, id).Some? {
      assert LogIndex(r.activityLogs, id) == LogIndex(s.activityLogs, id);
    }
  }

  /** Every entry marked read, nothing else changed. */
  function MarkEntriesRead(logs: seq<ActivityLog>): (r: seq<ActivityLog>)
    ensures |r| == |logs|
    ensures forall i :: 0 <= i < |logs| ==> r[i] == logs[i].(isRead := true)
  {
    seq(|logs|, i requires 0 <= i < |logs| => logs[i].(isRead := true))
  }

  /** `MarkAllRead()`: afterwards no entry is unread; entries keep their content and order. */
  function MarkAllRead(s: Store): (r: Store)
    ensures r == s.(activityLogs := r.activityLogs)
    ensures forall e :: e in r.activityLogs ==> e.isRead
    ensures |r.activityLogs| == |s.activityLogs|
    ensures forall i :: 0 <= i < |s.activityLogs| ==> r.activityLogs[i] == s.activityLogs[i].(isRead := true)
    ensures (forall e :: e in s.activityLogs ==> e.isRead) ==> r == s
  {
    if forall e :: e in s.activityLogs ==> e.isRead then s
    else s.(activityLogs := MarkEntriesRead(s.activityLogs))
  }

  /** `MarkAllRead` twice is `MarkAllRead` once. */
  lemma MarkAllReadIdempotent(s: Store)
    ensures MarkAllRead(MarkAllRead(s)) == MarkAllRead(s)
  {
  }

  /** The figures `Dashboard` shows. */
  datatype DashboardView = DashboardView(
    totalUsers: nat,
    totalComplaints: nat,
    resolved: nat,
    pending: nat,
    recentActivities: seq<ActivityLog>)

  /** `Dashboard()`: table counts and the 15 newest activity entries. */
  function Dashboard(s: Store): (d: DashboardView)
    ensures d.totalUsers == |s.users| && d.totalComplaints == |s.complaints|
    ensures d.resolved == CountStatus(s.complaints, "Resolved") && d.pending == CountStatus(s.complaints, "Pending")
    ensures d.resolved + d.pending <= d.totalComplaints
    ensures |d.recentActivities| == if |s.activityLogs| < 15 then |s.activityLogs| else 15
    ensures SortedDesc(d.recentActivities, LogTimeOf)
    ensures multiset(d.recentActivities) <= multiset(s.activityLogs)
    ensures forall x, y :: x in d.recentActivities && y in multiset(s.activityLogs) - multiset(d.recentActivities)
              ==> LogTimeOf(y) <= LogTimeOf(x)
  {
    StatusCountsBounded(s.complaints);
    DashboardView(|s.users|, |s.complaints|, CountStatus(s.complaints, "Resolved"),
                  CountStatus(s.complaints, "Pending"), TopN(s.activityLogs, LogTimeOf, 15))
  }

  /** `$"{notice.Title} ({notice.Priority})"`. */
  function NoticeDetail(n: Notice): string {
    n.title + " (" + n.priority + ")"
  }

  /**
   * Admin `PublishNotice(vm)`: stores the trimmed notice, unattributed, and logs
   * it; a value too long for its column makes the save fail.
   */
  function PublishNotice(s: Store, formValid: bool, form: NoticeForm, now: Time): (r: Store)
    ensures !formValid || !FormFits(form) ==> r == s
    ensures formValid && FormFits(form) ==>
      && r == s.(notices := r.notices, activityLogs := r.activityLogs)
      && |r.notices| == |s.notices| + 1 && r.notices[..|s.notices|] == s.notices
      && var n := r.notices[|s.notices|];
      && n.title == Trim(form.title) && n.description == Trim(form.description)
      && n.priority == form.priority && n.createdAt == now
      && n.createdByUserId.None? && n.createdByRole.None? && n.createdByName.None?
      && (forall x :: x in s.notices ==> x.id < n.id)
      && LoggedOnce(s.activityLogs, r.activityLogs, "Notice", "New notice published", NoticeDetail(n), now)
  {
    if !formValid then s
    else
      var n := Notice(NextId(s.notices, NoticeIdOf), Trim(form.title), Trim(form.description),
                      form.priority, now, None, None, None);
      if !NoticeFits(n) then s
      else
        assert forall x :: x in s.notices ==> NoticeIdOf(x) < n.id;
        AppendLog(s.(notices := s.notices + [n]), "Notice", "New notice published", NoticeDetail(n), now)
  }

  /** Publishing keeps every table's keys unique. */
  lemma PublishNoticeKeepsUniqueKeys(s: Store, formValid: bool, form: NoticeForm, now: Time)
    requires UniqueKeys(s)
    ensures UniqueKeys(PublishNotice(s, formValid, form, now))
  {
    var r := PublishNotice(s, formValid, form, now);
    if r != s {
      assert r.notices == s.notices + [r.notices[|s.notices|]];
      AppendFreshKeepsDistinct(s.notices, r.notices[|s.notices|], NoticeIdOf);
      assert r.activityLogs == s.activityLogs + [r.activityLogs[|s.activityLogs|]];
      AppendFreshKeepsDistinct(s.activityLogs, r.activityLogs[|s.activityLogs|], LogIdOf);
    }
  }

  /** `FirstOrDefault(n => n.Id == id)` on the notices table. */
  function NoticeIndex(ns: seq<Notice>, id: int): (r: Option<nat>)
    ensures r.Some? ==> r.value < |ns| && ns[r.value].id == id
    ensures r.Some? ==> forall j :: 0 <= j < r.value ==> ns[j].id != id
    ensures r.None? ==> forall n :: n in ns ==> n.id != id
  {
    FirstIndex(ns, (n: Notice) => n.id == id)
  }

  /** `DeleteNotice(id)`: removes that notice and logs its title; an unknown id changes nothing. */
  function DeleteNotice(s: Store, id: int, now: Time): (r: Store)
    ensures NoticeIndex(s.notices, id).None? ==> r == s
    ensures NoticeIndex(s.notices, id).Some? ==>
      var i := NoticeIndex(s.notices, id).value;
      && r == s.(notices := r.notices, activityLogs := r.activityLogs)
      && r.notices == s.notices[..i] + s.notices[i + 1..]
      && LoggedOnce(s.activityLogs, r.activityLogs, "Notice", "Notice deleted", s.notices[i].title, now)
  {
    match NoticeIndex(s.notices, id)
    case None => s
    case Some(i) =>
      AppendLog(s.(notices := s.notices[..i] + s.notices[i + 1..]), "Notice", "Notice deleted", s.notices[i].title, now)
  }

  /** With unique notice ids, a deleted notice is gone and every other notice stays. */
  lemma DeleteNoticeRemovesExactlyIt(s: Store, id: int, now: Time)
    requires DistinctKeys(s.notices, NoticeIdOf)
    requires NoticeIndex(s.notices, id).Some?
    ensures var r := DeleteNotice(s, id, now);
      && NoticeIndex(r.notices, id).None?
      && multiset(r.notices) + multiset{s.notices[NoticeIndex(s.notices, id).value]} == multiset(s.notices)
  {
    var i := NoticeIndex(s.notices, id).value;
    var r := DeleteNotice(s, id, now);
    assert s.notices == s.notices[..i] + [s.notices[i]] + s.notices[i + 1..];
    RemovedKeyIsGone(s.notices, i, NoticeIdOf);
  }

  /** The posted `Notice` of `EditNotice`; every text field may be missing. */
  datatype NoticeEdit = NoticeEdit(id: int, title: Option<string>, description: Option<string>, priority: Option<string>)

  /** A notice with the posted title, description and priority, trimmed, and with their defaults. */
  function Edited(n: Notice, edit: NoticeEdit): Notice {
    n.(title := Trim(edit.title.GetOr("")), description := Trim(edit.description.GetOr("")),
       priority := Trim(edit.priority.GetOr("Normal")))
  }

  /** Editing an edited notice with the same values changes nothing more. */
  lemma EditedTwice(n: Notice, edit: NoticeEdit)
    ensures Edited(Edited(n, edit), edit) == Edited(n, edit)
  {
  }

  /** The notices table after an edit: the first notice with the posted id rewritten. */
  function EditedNotices(ns: seq<Notice>, edit: NoticeEdit): (r: seq<Notice>)
    ensures NoticeIndex(ns, edit.id).None? ==> r == ns
    ensures NoticeIndex(ns, edit.id).Some? ==>
      var i := NoticeIndex(ns, edit.id).value;
      ChangedOnlyAt(ns, r, i) && r[i] == Edited(ns[i], edit)
  {
    match NoticeIndex(ns, edit.id)
    case None => ns
    case Some(i) => ns[i := Edited(ns[i], edit)]
  }

  /**
   * The edited title and priority fit their columns. The action does not check
   * the posted model's validation state, so nothing bounds them before the save.
   */
  predicate EditFits(edit: NoticeEdit) {
    FitsColumn(Trim(edit.title.GetOr("")), 140) && FitsColumn(Trim(edit.priority.GetOr("Normal")), 20)
  }

  /**
   * `EditNotice(model)`: rewrites title, description and priority (trimmed,
   * with defaults) and logs it; a value too long for its column makes the save fail.
   */
  function EditNotice(s: Store, edit: NoticeEdit, now: Time): (r: Store)
    ensures NoticeIndex(s.notices, edit.id).None? || !EditFits(edit) ==> r == s
    ensures NoticeIndex(s.notices, edit.id).Some? && EditFits(edit) ==>
      var i := NoticeIndex(s.notices, edit.id).value;
      && r == s.(notices := r.notices, activityLogs := r.activityLogs)
      && ChangedOnlyAt(s.notices, r.notices, i)
      && r.notices[i] == s.notices[i].(title := Trim(edit.title.GetOr("")),
                                       description := Trim(edit.description.GetOr("")),
                                       priority := Trim(edit.priority.GetOr("Normal")))
      && LoggedOnce(s.activityLogs, r.activityLogs, "Notice", "Notice updated", NoticeDetail(r.notices[i]), now)
    ensures EditFits(edit) ==> r.notices == EditedNotices(s.notices, edit)
  {
    match NoticeIndex(s.notices, edit.id)
    case None => s
    case Some(i) =>
      var n := Edited(s.notices[i], edit);
      if !NoticeFits(n) then s
      else AppendLog(s.(notices := s.notices[i := n]), "Notice", "Notice updated", NoticeDetail(n), now)
  }

  /** Two tables with the same ids position by position find a notice id at the same place. */
  lemma SameIdsSameIndex(a: seq<Notice>, b: seq<Notice>, id: int)
    requires |a| == |b| && forall j :: 0 <= j < |a| ==> a[j].id == b[j].id
    ensures NoticeIndex(a, id) == NoticeIndex(b, id)
  {
    var ra := NoticeIndex(a, id);
    var rb := NoticeIndex(b, id);
    if ra.Some? {
      assert b[ra.value] in b;
    }
    if rb.Some? {
      assert a[rb.value] in a;
    }
  }

  /** Applying the same edit to the table twice gives the table after one edit. */
  lemma EditedNoticesIdempotent(ns: seq<Notice>, edit: NoticeEdit)
    ensures EditedNotices(EditedNotices(ns, edit), edit) == EditedNotices(ns, edit)
  {
    if NoticeIndex(ns, edit.id).Some? {
      var i := NoticeIndex(ns, edit.id).value;
      var n := Edited(ns[i], edit);
      EditedNoticesAt(ns, edit, i);
      EditedKeepsId(ns, i, n);
      EditedNoticesAt(ns[i := n], edit, i);
      EditedTwice(ns[i], edit);
      UpdateWithSame(ns[i := n], i, Edited(n, edit));
    }
  }

  /** The table after an edit that finds its notice at `i`. */
  lemma EditedNoticesAt(ns: seq<Notice>, edit: NoticeEdit, i: nat)
    requires NoticeIndex(ns, edit.id) == Some(i)
    ensures EditedNotices(ns, edit) == ns[i := Edited(ns[i], edit)]
  {
  }

  /** Rewriting a notice with one of the same id leaves every lookup by id where it was. */
  lemma EditedKeepsId(ns: seq<Notice>, i: nat, n: Notice)
    requires i < |ns| && n.id == ns[i].id
    ensures forall id :: NoticeIndex(ns[i := n], id) == NoticeIndex(ns, id)
  {
    forall id
      ensures NoticeIndex(ns[i := n], id) == NoticeIndex(ns, id)
    {
      SameIdsSameIndex(ns, ns[i := n], id);
    }
  }

  /** Submitting the same edit again rewrites the notice to the same values. */
  lemma EditNoticeTwiceSameNotices(s: Store, edit: NoticeEdit, t1: Time, t2: Time)
    ensures var s1 := EditNotice(s, edit, t1);
      EditNotice(s1, edit, t2).notices == s1.notices
  {
    EditedNoticesIdempotent(s.notices, edit);
  }

  /** An edited notice carries trimmed text: trimming it again changes nothing. */
  lemma EditedNoticeIsTrimmed(s: Store, edit: NoticeEdit, now: Time)
    requires NoticeIndex(s.notices, edit.id).Some?
    ensures var r := EditNotice(s, edit, now);
      var n := r.notices[NoticeIndex(s.notices, edit.id).value];
      r != s ==> Trim(n.title) == n.title && Trim(n.description) == n.description && Trim(n.priority) == n.priority
  {
    TrimIdempotent(edit.title.GetOr(""));
    TrimIdempotent(edit.description.GetOr(""));
    TrimIdempotent(edit.priority.GetOr("Normal"));
  }
}
