/**
 * The officers' notice board (`NoticeController`): publishing with creator
 * attribution, and the newest-first listing that the citizen and admin
 * notice pages show as well.
 */
module NoticeBoard {
  import opened Optional
  import opened Text
  import opened Sequences
  import opened Entities

  /** The role name a notice is attributed to. */
  function CreatorRole(callerIsAdmin: bool): string {
    if callerIsAdmin then "Admin" else "MunicipalOfficer"
  }

  /** The caller's full name, or "Unknown" when the account or its name is missing. */
  function CreatorName(s: Store, callerId: string): (r: string)
    ensures UserIndex(s.users, callerId).None? ==> r == "Unknown"
    ensures UserIndex(s.users, callerId).Some? ==>
      r == s.users[UserIndex(s.users, callerId).value].fullName.GetOr("Unknown")
  {
    match UserIndex(s.users, callerId)
    case None => "Unknown"
    case Some(i) => s.users[i].fullName.GetOr("Unknown")
  }

  /**
   * `Publish(vm)`: a valid form adds one trimmed notice attributed to the
   * caller's role and name, and one activity entry. `callerIsAdmin` is the
   * role claim of the signed-in principal. The activity entry's `CreatedAt`
   * is not assigned here and takes the entity's initial value, the current time.
   * A title or priority too long for its column makes the save fail.
   */
  function Publish(s: Store, formValid: bool, form: NoticeForm, callerId: string, callerIsAdmin: bool,
                   now: Time): (r: Store)
    ensures !formValid || !FormFits(form) ==> r == s
    ensures formValid && FormFits(form) ==>
      && r == s.(notices := r.notices, activityLogs := r.activityLogs)
      && |r.notices| == |s.notices| + 1 && r.notices[..|s.notices|] == s.notices
      && var n := r.notices[|s.notices|];
      && n.title == Trim(form.title) && n.description == Trim(form.description)
      && n.priority == form.priority && n.createdAt == now
      && n.createdByRole == Some(if callerIsAdmin then "Admin" else "MunicipalOfficer")
      && n.createdByName == Some(CreatorName(s, callerId))
      && n.createdByUserId.None?
      && (forall x :: x in s.notices ==> x.id < n.id)
      && LoggedOnce(s.activityLogs, r.activityLogs, "Notice", "New notice published",
                    Trim(form.title) + " (" + form.priority + ") by " + n.createdByRole.value, now)
  {
    if !formValid then s
    else
      var role := CreatorRole(callerIsAdmin);
      var n := Notice(NextId(s.notices, NoticeIdOf), Trim(form.title), Trim(form.description), form.priority,
                      now, None, Some(role), Some(CreatorName(s, callerId)));
      if !NoticeFits(n) then s
      else
        assert forall x :: x in s.notices ==> NoticeIdOf(x) < n.id;
        AppendLog(s.(notices := s.notices + [n]), "Notice", "New notice published",
                  n.title + " (" + n.priority + ") by " + role, now)
  }

  /** A published title is already trimmed, and is empty exactly when the entered title was blank. */
  lemma PublishedTitleIsTrimmed(s: Store, form: NoticeForm, callerId: string, callerIsAdmin: bool, now: Time)
    requires FormFits(form)
    ensures var n := Publish(s, true, form, callerId, callerIsAdmin, now).notices[|s.notices|];
      && Trim(n.title) == n.title
      && (n.title == "" <==> IsBlank(form.title))
  {
    TrimIdempotent(form.title);
    TrimEmptyIffBlank(form.title);
  }

  /** `List()`: every notice, newest first. */
  function List(s: Store): (r: seq<Notice>)
    ensures multiset(r) == multiset(s.notices)
    ensures SortedDesc(r, NoticeTimeOf)
  {
    SortDesc(s.notices, NoticeTimeOf)
  }

  /** A notice published later than every other heads the list. */
  lemma NewestNoticeListedFirst(s: Store, form: NoticeForm, callerId: string, callerIsAdmin: bool, now: Time)
    requires forall x :: x in s.notices ==> x.createdAt < now
    requires FormFits(form)
    ensures var t := Publish(s, true, form, callerId, callerIsAdmin, now);
      |List(t)| > 0 && List(t)[0] == t.notices[|s.notices|]
  {
    var t := Publish(s, true, form, callerId, callerIsAdmin, now);
    var n := t.notices[|s.notices|];
    assert t.notices == s.notices + [n];
    forall y | y in t.notices && y != n
      ensures NoticeTimeOf(y) < NoticeTimeOf(n)
    {
      assert y in s.notices;
    }
    SortedStartsWithStrictMax(List(t), t.notices, n, NoticeTimeOf);
  }
}
