/**
 * Start-up seeding (`DbSeeder`): the three roles, and the fixed administrator
 * and officer accounts, created when missing and repaired when present.
 * `creates(user, password)` is the identity framework's verdict on a new
 * account; the ids of new accounts are inputs.
 */
module Seeder {
  import opened Optional
  import opened Text
  import opened Sequences
  import opened Entities
  import opened Account

  const SeedRoles: seq<string> := ["Citizen", "Admin", "MunicipalOfficer"]

  /** Creates, in order, each wanted role that does not exist yet. */
  function EnsureRoles(roles: seq<string>, wanted: seq<string>): (r: seq<string>)
    ensures roles <= r
    ensures forall x :: x in wanted ==> x in r
    ensures forall x :: x in r ==> x in roles || x in wanted
    ensures NoDuplicates(roles) ==> NoDuplicates(r)
    ensures (forall x :: x in wanted ==> x in roles) ==> r == roles
    decreases |wanted|
  {
    if |wanted| == 0 then roles
    else
      var next := if wanted[0] in roles then roles else roles + [wanted[0]];
      assert NoDuplicates(roles) ==> NoDuplicates(next);
      var r := EnsureRoles(next, wanted[1..]);
      assert wanted[0] in r by {
        var k :| 0 <= k < |next| && next[k] == wanted[0];
        assert r[k] == next[k];
      }
      assert wanted == [wanted[0]] + wanted[1..];
      r
  }

  /** A new seed account: active and with its e-mail already confirmed. */
  function SeedUser(id: string, email: string, fullName: string, role: string): User {
    User(id, Some(email), Some(email), Some(fullName), Some(role), None, true, true)
  }

  /** An existing seed account with blank name and role filled in and the account switched on. */
  function Repaired(u: User, fullName: string, role: string): (r: User)
    ensures r.id == u.id && r.email == u.email && r.userName == u.userName && r.address == u.address
    ensures r.emailConfirmed == u.emailConfirmed && r.isActive
    ensures !IsNullOrWhiteSpace(u.fullName) ==> r.fullName == u.fullName
    ensures IsNullOrWhiteSpace(u.fullName) ==> r.fullName == Some(fullName)
    ensures !IsNullOrWhiteSpace(u.role) ==> r.role == u.role
    ensures IsNullOrWhiteSpace(u.role) ==> r.role == Some(role)
  {
    u.(fullName := if IsNullOrWhiteSpace(u.fullName) then Some(fullName) else u.fullName,
       role := if IsNullOrWhiteSpace(u.role) then Some(role) else u.role,
       isActive := true)
  }

  /**
   * `EnsureUserAsync`: create the account if no user has the e-mail, otherwise
   * repair it; then make sure it is in `role`. The flag says whether the role
   * step was reached (a failed creation returns early).
   */
  function EnsureUser(s: Store, email: string, password: string, fullName: string, role: string,
                      newId: string, creates: (User, string) -> bool): (r: (Store, bool))
    requires role in s.roles
    ensures r.0.roles == s.roles && r.0.complaints == s.complaints && r.0.activityLogs == s.activityLogs
    ensures r.0.notifications == s.notifications && r.0.notices == s.notices && r.0.reminders == s.reminders
    ensures !r.1 ==> r.0 == s
    ensures FindByEmail(s.users, email).None? ==>
      (r.1 <==> UserIndex(s.users, newId).None? && creates(SeedUser(newId, email, fullName, role), password))
    ensures FindByEmail(s.users, email).None? && r.1 ==>
      && r.0.users == s.users + [SeedUser(newId, email, fullName, role)]
      && (forall x :: x in s.users ==> x.id != newId)
      && r.0.userRoles == s.userRoles + {(newId, role)}
    ensures FindByEmail(s.users, email).Some? ==>
      var i := FindByEmail(s.users, email).value;
      && r.1
      && ChangedOnlyAt(s.users, r.0.users, i)
      && r.0.users[i] == Repaired(s.users[i], fullName, role)
      && r.0.userRoles == s.userRoles + {(s.users[i].id, role)}
  {
    match FindByEmail(s.users, email)
    case None =>
      var u := SeedUser(newId, email, fullName, role);
      if UserIndex(s.users, newId).Some? || !creates(u, password) then (s, false)
      else (s.(users := s.users + [u], userRoles := s.userRoles + {(newId, role)}), true)
    case Some(i) =>
      var u := Repaired(s.users[i], fullName, role);
      (s.(users := s.users[i := u], userRoles := s.userRoles + {(u.id, role)}), true)
  }

  /** Seeding an account never changes an e-mail, never deactivates anyone and never drops a role mapping. */
  lemma EnsureUserOnlyAdds(s: Store, email: string, password: string, fullName: string, role: string,
                           newId: string, creates: (User, string) -> bool)
    requires role in s.roles
    ensures var t := EnsureUser(s, email, password, fullName, role, newId, creates).0;
      && |s.users| <= |t.users| && s.userRoles <= t.userRoles
      && forall j :: 0 <= j < |s.users| ==>
           t.users[j].id == s.users[j].id && t.users[j].email == s.users[j].email
           && (s.users[j].isActive ==> t.users[j].isActive)
  {
  }

  /** After a completed run the account is active and holds the role. */
  lemma EnsureUserLeavesAccountReady(s: Store, email: string, password: string, fullName: string, role: string,
                                     newId: string, creates: (User, string) -> bool)
    requires role in s.roles
    requires EnsureUser(s, email, password, fullName, role, newId, creates).1
    ensures var t := EnsureUser(s, email, password, fullName, role, newId, creates).0;
      && FindByEmail(t.users, email).Some?
      && var u := t.users[FindByEmail(t.users, email).value];
      && u.isActive && IsInRole(t, u.id, role)
  {
    var t := EnsureUser(s, email, password, fullName, role, newId, creates).0;
    match FindByEmail(s.users, email)
    case None =>
      assert t.users[..|s.users|] == s.users;
      assert SameEmail(t.users[|s.users|], email);
      assert t.users[|s.users|].role == Some(role);
      SameFirstMatch(s.users, t.users, email, |s.users|);
    case Some(i) =>
      assert forall j :: 0 <= j < i ==> t.users[j] == s.users[j];
      assert t.users[i] == Repaired(s.users[i], fullName, role);
      assert SameEmail(t.users[i], email);
      SameFirstMatch(s.users, t.users, email, i);
  }

  /**
   * When the users up to `i` keep their e-mails (or, for `i == |a|`, `b` only
   * appends) and `b[i]` matches, the lookup in `b` lands on `i`.
   */
  lemma SameFirstMatch(a: seq<User>, b: seq<User>, email: string, i: nat)
    requires i <= |a| && i < |b|
    requires forall j :: 0 <= j < i ==> b[j].email == a[j].email
    requires forall j :: 0 <= j < i ==> !SameEmail(a[j], email)
    requires SameEmail(b[i], email)
    ensures FindByEmail(b, email) == Some(i)
  {
  }

  /** Running `EnsureUserAsync` a second time after a completed run changes nothing. */
  lemma EnsureUserIdempotent(s: Store, email: string, password: string, fullName: string, role: string,
                             id1: string, id2: string, creates1: (User, string) -> bool,
                             creates2: (User, string) -> bool)
    requires role in s.roles
    requires EnsureUser(s, email, password, fullName, role, id1, creates1).1
    ensures var t := EnsureUser(s, email, password, fullName, role, id1, creates1).0;
      EnsureUser(t, email, password, fullName, role, id2, creates2).0 == t
  {
    var t := EnsureUser(s, email, password, fullName, role, id1, creates1).0;
    EnsureUserLeavesAccountReady(s, email, password, fullName, role, id1, creates1);
    var k := FindByEmail(t.users, email).value;
    var u := t.users[k];
    var t2 := EnsureUser(t, email, password, fullName, role, id2, creates2).0;
    assert Repaired(u, fullName, role) == u;
    assert t.users[k := u] == t.users;
    assert t2.users == t.users;
  }

  /** The credentials `SeedAsync` provisions. */
  datatype SeedAccount = SeedAccount(email: string, password: string, fullName: string, role: string)

  const SeedAccounts: seq<SeedAccount> := [
    SeedAccount("admin@smartnagar.com", "Admin@123", "System Administrator", "Admin"),
    SeedAccount("officer1@smartnagar.com", "Officer@123", "Municipal Officer 1", "MunicipalOfficer"),
    SeedAccount("officer2@smartnagar.com", "Officer@123", "Municipal Officer 2", "MunicipalOfficer")]

  /** `t` differs from `s` only by added users and mappings, repaired or re-activated users. */
  ghost predicate OnlyAdds(s: Store, t: Store) {
    && t.roles == s.roles && t.complaints == s.complaints && t.activityLogs == s.activityLogs
    && t.notifications == s.notifications && t.notices == s.notices && t.reminders == s.reminders
    && |s.users| <= |t.users| && s.userRoles <= t.userRoles
    && forall j :: 0 <= j < |s.users| ==>
         t.users[j].id == s.users[j].id && t.users[j].email == s.users[j].email
         && (s.users[j].isActive ==> t.users[j].isActive)
  }

  /** Two steps that only add make one step that only adds. */
  lemma OnlyAddsTransitive(a: Store, b: Store, c: Store)
    requires OnlyAdds(a, b) && OnlyAdds(b, c)
    ensures OnlyAdds(a, c)
  {
  }

  /** One `EnsureUserAsync` call for a seed account. */
  function Provision(s: Store, a: SeedAccount, id: string, creates: (User, string) -> bool): (r: Store)
    requires a.role in s.roles
    ensures OnlyAdds(s, r)
  {
    EnsureUserOnlyAdds(s, a.email, a.password, a.fullName, a.role, id, creates);
    EnsureUser(s, a.email, a.password, a.fullName, a.role, id, creates).0
  }

  /** `SeedAsync`: the roles first, then the three accounts in order; `ids[k]` is offered to account `k`. */
  function Seed(s: Store, ids: seq<string>, creates: (User, string) -> bool): (r: Store)
    requires |ids| == |SeedAccounts|
    ensures forall x :: x in SeedRoles ==> x in r.roles
    ensures s.roles <= r.roles && (forall x :: x in r.roles ==> x in s.roles || x in SeedRoles)
    ensures NoDuplicates(s.roles) ==> NoDuplicates(r.roles)
    ensures OnlyAdds(s.(roles := r.roles), r)
  {
    var s0 := s.(roles := EnsureRoles(s.roles, SeedRoles));
    assert SeedAccounts[0].role in SeedRoles && SeedAccounts[1].role in SeedRoles && SeedAccounts[2].role in SeedRoles;
    var s1 := Provision(s0, SeedAccounts[0], ids[0], creates);
    var s2 := Provision(s1, SeedAccounts[1], ids[1], creates);
    var s3 := Provision(s2, SeedAccounts[2], ids[2], creates);
    OnlyAddsTransitive(s0, s1, s2);
    OnlyAddsTransitive(s0, s2, s3);
    s3
  }
}
