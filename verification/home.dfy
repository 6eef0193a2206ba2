/**
 * The public landing page (`HomeController.Index`): the active-citizen count
 * and the satisfaction figure, the rounded percentage of active accounts.
 */
module Home {
  import opened Optional
  import opened Entities

  /** `Math.Round(n / d)` for a non-negative fraction: the nearest integer, ties to the even one. */
  function RoundHalfEven(n: nat, d: nat): (r: nat)
    requires d > 0
    ensures 2 * (r * d - n) <= d && 2 * (n - r * d) <= d
    ensures 2 * (r * d - n) == d || 2 * (n - r * d) == d ==> r % 2 == 0
  {
    var q := n / d;
    var rem := n % d;
    assert n == q * d + rem;
    if 2 * rem < d then q
    else if 2 * rem > d then q + 1
    else if q % 2 == 0 then q
    else q + 1
  }

  /** Users whose account is switched on. */
  function CountActive(users: seq<User>): (r: nat)
    ensures r <= |users|
    decreases |users|
  {
    if |users| == 0 then 0
    else CountActive(users[..|users| - 1]) + (if users[|users| - 1].isActive then 1 else 0)
  }

  /** Users who are switched on and whose `Role` column says Citizen. */
  function CountActiveCitizens(users: seq<User>): nat
    decreases |users|
  {
    if |users| == 0 then 0
    else
      var u := users[|users| - 1];
      CountActiveCitizens(users[..|users| - 1]) + (if u.isActive && u.role == Some("Citizen") then 1 else 0)
  }

  /** Every active citizen is an active user. */
  lemma {:induction false} ActiveCitizensAreActive(users: seq<User>)
    ensures CountActiveCitizens(users) <= CountActive(users)
    decreases |users|
  {
    if |users| > 0 {
      ActiveCitizensAreActive(users[..|users| - 1]);
    }
  }

  /** A multiple of `t` within half of `t` above `100 t` is at most `100 t`. */
  lemma AtMostHundred(r: nat, t: nat)
    requires t > 0 && 2 * (r * t) <= 201 * t
    ensures r <= 100
  {
  }

  /** The satisfaction figure: 0 without users, else the rounded percentage of active ones. */
  function Satisfaction(active: nat, total: nat): (r: nat)
    requires active <= total
    ensures total == 0 ==> r == 0
    ensures total > 0 ==> 2 * (r * total - active * 100) <= total && 2 * (active * 100 - r * total) <= total
    ensures r <= 100
  {
    if total == 0 then 0
    else
      var r := RoundHalfEven(active * 100, total);
      AtMostHundred(r, total);
      r
  }

  /** The figures the landing page shows. */
  datatype HomeView = HomeView(activeCitizens: nat, resolvedComplaints: nat, satisfactionRate: nat,
                               serviceAvailability: string)

  /** `Index()`. */
  function Index(s: Store): (v: HomeView)
    ensures v.activeCitizens == CountActiveCitizens(s.users) <= CountActive(s.users) <= |s.users|
    ensures v.satisfactionRate <= 100
    ensures |s.users| == 0 ==> v.satisfactionRate == 0
    ensures |s.users| > 0 ==> v.satisfactionRate == RoundHalfEven(CountActive(s.users) * 100, |s.users|)
    ensures v.resolvedComplaints == 0 && v.serviceAvailability == "24/7"
  {
    ActiveCitizensAreActive(s.users);
    HomeView(CountActiveCitizens(s.users), 0, Satisfaction(CountActive(s.users), |s.users|), "24/7")
  }

  /** With every account active the figure is 100, with none it is 0. */
  lemma SatisfactionExtremes(total: nat)
    requires total > 0
    ensures Satisfaction(total, total) == 100 && Satisfaction(0, total) == 0
  {
    var r := Satisfaction(total, total);
  }
}
