/**
 * The credit account: a map from e-mail address to whole hours of consultation, where every
 * write stores max(0, round(hours)). Hours arrive as JavaScript numbers, modelled as reals.
 */
module Credits {
  import opened Wrappers

  /** JavaScript's Math.round: the nearest integer, halves rounded up. */
  function Round(x: real): (n: int)
    ensures n as real - 0.5 <= x < n as real + 0.5
  {
    (x + 0.5).Floor
  }

  /** The value a write of `hours` stores: max(0, round(hours)). */
  function Stored(hours: real): (n: int)
    ensures n >= 0
    ensures n > 0 ==> n as real - 0.5 <= hours < n as real + 0.5
    ensures n == 0 <==> hours < 0.5
  {
    var r := Round(hours);
    if r < 0 then 0 else r
  }

  /** Every stored balance is non-negative. */
  ghost predicate AllNonNegative(byUser: map<string, int>) {
    forall e :: e in byUser ==> byUser[e] >= 0
  }

  /**
   * The balance read for `email`: 0 for an absent or empty address (both falsy in
   * JavaScript) and for an address with no entry.
   */
  function BalanceIn(byUser: map<string, int>, email: Option<string>): (h: int)
    requires AllNonNegative(byUser)
    ensures h >= 0
    ensures email.None? || email == Some("") ==> h == 0
    ensures email.Some? && email.value !in byUser ==> h == 0
    ensures email.Some? && email.value != "" && email.value in byUser ==> h == byUser[email.value]
  {
    match email
    case None => 0
    case Some(e) => if e == "" || e !in byUser then 0 else byUser[e]
  }

  /** The map after setCredits(email, hours). */
  function AfterSet(byUser: map<string, int>, email: string, hours: real): (m: map<string, int>)
    requires AllNonNegative(byUser)
    ensures AllNonNegative(m)
    ensures m.Keys == byUser.Keys + {email}
    ensures forall e :: e in byUser && e != email ==> m[e] == byUser[e]
  {
    byUser[email := Stored(hours)]
  }

  /** The map after addCredits(email, delta), which writes the read balance plus `delta`. */
  function AfterAdd(byUser: map<string, int>, email: string, delta: real): (m: map<string, int>)
    requires AllNonNegative(byUser)
    ensures AllNonNegative(m)
  {
    AfterSet(byUser, email, BalanceIn(byUser, Some(email)) as real + delta)
  }

  /** Rounding commutes with adding a whole number. */
  lemma RoundShift(n: int, x: real)
    ensures Round(n as real + x) == n + Round(x)
  {
    var r := Round(x);
    assert (n + r) as real - 0.5 <= n as real + x < (n + r) as real + 0.5;
    RoundUnique(n as real + x, n + r);
  }

  lemma RoundUnique(x: real, k: int)
    requires k as real - 0.5 <= x < k as real + 0.5
    ensures Round(x) == k
  {
  }

  /** setCredits then getCredits: the address reads back max(0, round(hours)). */
  lemma SetThenRead(byUser: map<string, int>, email: string, hours: real)
    requires AllNonNegative(byUser) && email != ""
    ensures BalanceIn(AfterSet(byUser, email, hours), Some(email)) == Stored(hours)
    ensures forall e :: e != email ==>
              BalanceIn(AfterSet(byUser, email, hours), Some(e)) == BalanceIn(byUser, Some(e))
  {
  }

  /**
   * addCredits(e, d) leaves max(0, old + round(d)) for `e`, so max(0, old + d) for a whole
   * delta, and every other address unchanged. For the empty address the old balance reads
   * as 0, so the write is max(0, round(d)) whatever was stored.
   */
  lemma AddThenRead(byUser: map<string, int>, email: string, delta: real)
    requires AllNonNegative(byUser)
    ensures var old_ := BalanceIn(byUser, Some(email));
      var m := AfterAdd(byUser, email, delta);
      && (email != "" ==> BalanceIn(m, Some(email)) == (if old_ + Round(delta) < 0 then 0 else old_ + Round(delta)))
      && (email == "" ==> m[""] == Stored(delta))
      && forall e :: e != email ==> BalanceIn(m, Some(e)) == BalanceIn(byUser, Some(e))
  {
    RoundShift(BalanceIn(byUser, Some(email)), delta);
  }

  /** A debit of one hour from a zero balance stays at zero; from a positive one it takes one hour. */
  lemma DebitOneHour(byUser: map<string, int>, email: string)
    requires AllNonNegative(byUser) && email != ""
    ensures var before := BalanceIn(byUser, Some(email));
      BalanceIn(AfterAdd(byUser, email, -1.0), Some(email)) == if before == 0 then 0 else before - 1
  {
    AddThenRead(byUser, email, -1.0);
  }

  /** The hours a plan grants on activation: 12, 60 or 144, and none for an unknown plan. */
  function PlanHours(planId: string): (h: int)
    ensures h >= 0
    ensures h > 0 <==> planId in {"basic", "pro", "elite"}
  {
    if planId == "basic" then 12
    else if planId == "pro" then 60
    else if planId == "elite" then 144
    else 0
  }

  /** Activating a plan adds its hours to the balance rather than setting it. */
  lemma ActivationAdds(byUser: map<string, int>, email: string, planId: string)
    requires AllNonNegative(byUser) && email != ""
    ensures BalanceIn(AfterAdd(byUser, email, PlanHours(planId) as real), Some(email)) ==
            BalanceIn(byUser, Some(email)) + PlanHours(planId)
  {
    AddThenRead(byUser, email, PlanHours(planId) as real);
    RoundUnique(PlanHours(planId) as real, PlanHours(planId));
  }

  /** The stored credit map (the 'credits:byUser' entry of the browser store). */
  class CreditAccount {
    var byUser: map<string, int>

    ghost predicate Valid()
      reads this
    {
      AllNonNegative(byUser)
    }

    constructor ()
      ensures Valid() && byUser == map[]
    {
      byUser := map[];
    }

    /** getCredits(email). */
    function Balance(email: Option<string>): (h: int)
      reads this
      requires Valid()
      ensures h >= 0
    {
      BalanceIn(byUser, email)
    }

    /** setCredits(email, hours). */
    method SetCredits(email: string, hours: real)
      requires Valid()
      modifies this
      ensures Valid()
      ensures byUser == AfterSet(old(byUser), email, hours)
    {
      byUser := byUser[email := Stored(hours)];
    }

    /** addCredits(email, delta). */
    method AddCredits(email: string, delta: real)
      requires Valid()
      modifies this
      ensures Valid()
      ensures byUser == AfterAdd(old(byUser), email, delta)
    {
      SetCredits(email, Balance(Some(email)) as real + delta);
    }

    /** The credit part of a returning plan payment for a signed-in user: add the plan's hours. */
    method ActivatePlan(email: string, planId: string)
      requires Valid()
      modifies this
      ensures Valid()
      ensures byUser == AfterAdd(old(byUser), email, PlanHours(planId) as real)
    {
      AddCredits(email, PlanHours(planId) as real);
    }

    /** The credit part of a returning top-up payment: add the purchased hours to a non-empty address. */
    method TopUp(email: string, hours: real)
      requires Valid()
      modifies this
      ensures Valid()
      ensures email != "" ==> byUser == AfterAdd(old(byUser), email, hours)
      ensures email == "" ==> byUser == old(byUser)
    {
      if email != "" {
        AddCredits(email, hours);
      }
    }
  }
}
