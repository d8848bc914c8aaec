/**
 * The booking ledger: the stored request list and block list, with the member's submission
 * and the administrator's status changes and deletion; completion debits the credit account.
 */
module Ledger {
  import opened Wrappers
  import opened Sequences
  import opened Availability
  import opened Bookings
  import opened Credits
  import opened Accounts

  /** Why a submission is refused, in the order the checks run. */
  datatype SubmitError = NotSignedIn | NoPlan | NoCredits | NoSlotChosen

  /** A plan id that JavaScript treats as present: not null and not empty. */
  predicate HasPlan(plan: Option<string>) {
    plan.Some? && plan.value != ""
  }

  /**
   * The submission guards in source order: signed in, then a plan, then a positive credit
   * balance, then a chosen slot. The slot is not re-checked against availability.
   */
  function SubmitCheck(signedIn: bool, plan: Option<string>, credits: int, slot: Option<Interval>): (e: Option<SubmitError>)
    ensures e.None? <==> signedIn && HasPlan(plan) && credits > 0 && slot.Some?
    ensures !signedIn ==> e == Some(NotSignedIn)
    ensures signedIn && !HasPlan(plan) ==> e == Some(NoPlan)
    ensures signedIn && HasPlan(plan) && credits <= 0 ==> e == Some(NoCredits)
    ensures signedIn && HasPlan(plan) && credits > 0 && slot.None? ==> e == Some(NoSlotChosen)
  {
    if !signedIn then Some(NotSignedIn)
    else if !HasPlan(plan) then Some(NoPlan)
    else if credits <= 0 then Some(NoCredits)
    else if slot.None? then Some(NoSlotChosen)
    else None
  }

  /** The request a successful submission creates, in status 접수. */
  function NewRequest(id: string, email: string, plan: string, createdAt: int, kind: Kind,
                      title: string, details: string, slot: Interval): (r: Request)
    ensures r.status == Submitted && r.start == slot.start && r.end == slot.end
  {
    Request(id, email, plan, createdAt, kind, title, details, slot.start, slot.end, Submitted)
  }

  /** The credit map after an administrator sets request `id` to `status`: 완료 debits its user one hour. */
  function CreditsAfterStatus(byUser: map<string, int>, reqs: seq<Request>, id: string, status: Status): (m: map<string, int>)
    requires AllNonNegative(byUser)
    ensures AllNonNegative(m)
  {
    match FindRequest(reqs, id)
    case None => byUser
    case Some(r) => if status == Completed then AfterAdd(byUser, r.user, -1.0) else byUser
  }

  /** The number of requests that carry id `id`. */
  function RequestsWithId(reqs: seq<Request>, id: string): nat {
    Count(reqs, (r: Request) => r.id == id)
  }

  /** The request list after deleting `id`: every request with that id is gone, and only those. */
  function WithoutRequest(reqs: seq<Request>, id: string): (r: seq<Request>)
    ensures forall x :: x in r <==> x in reqs && x.id != id
    ensures |r| == |reqs| - RequestsWithId(reqs, id)
  {
    RequestCountComplement(reqs, id);
    Filter(reqs, (r: Request) => r.id != id)
  }

  lemma {:induction false} RequestCountComplement(reqs: seq<Request>, id: string)
    ensures |Filter(reqs, (r: Request) => r.id != id)| + RequestsWithId(reqs, id) == |reqs|
  {
    if reqs != [] {
      RequestCountComplement(reqs[1..], id);
    }
  }

  // ---------------------------------------------------------------------------
  // Properties of the ledger updates

  /**
   * Completing a request debits its user exactly one hour, floored at zero, and changes no
   * other balance; any other status, or an unknown id, leaves the credits untouched.
   */
  lemma CompletionDebitsOneHour(byUser: map<string, int>, reqs: seq<Request>, id: string, status: Status)
    requires AllNonNegative(byUser)
    ensures var m := CreditsAfterStatus(byUser, reqs, id, status);
      match FindRequest(reqs, id)
      case None => m == byUser
      case Some(r) =>
        if status != Completed then m == byUser
        else
          && (var before := BalanceIn(byUser, Some(r.user));
              r.user != "" ==> BalanceIn(m, Some(r.user)) == if before == 0 then 0 else before - 1)
          && forall e :: e != r.user ==> BalanceIn(m, Some(e)) == BalanceIn(byUser, Some(e))
  {
    var found := FindRequest(reqs, id);
    if found.Some? && status == Completed {
      AddThenRead(byUser, found.value.user, -1.0);
      if found.value.user != "" {
        DebitOneHour(byUser, found.value.user);
      }
    }
  }

  /**
   * Deletion removes exactly the requests with that id and the blocks with its block id,
   * and keeps every other one, in order and in number.
   */
  lemma DeleteRemovesExactly(reqs: seq<Request>, blocks: seq<Block>, id: string)
    ensures forall r :: r in WithoutRequest(reqs, id) <==> r in reqs && r.id != id
    ensures IsSubsequence(WithoutRequest(reqs, id), reqs)
    ensures |WithoutRequest(reqs, id)| == |reqs| - RequestsWithId(reqs, id)
    ensures forall b :: b in WithoutBlocksOf(blocks, id) <==> b in blocks && b.id != BlockId(id)
    ensures IsSubsequence(WithoutBlocksOf(blocks, id), blocks)
    ensures |WithoutBlocksOf(blocks, id)| == |blocks| - BlocksWithId(blocks, BlockId(id))
  {
    FilterIsSubsequence(reqs, (r: Request) => r.id != id);
    FilterIsSubsequence(blocks, (b: Block) => b.id != BlockId(id));
  }

  /**
   * After confirming a request, no slot overlapping its interval is offered on any day,
   * whether the request is in person, by phone or by text.
   */
  lemma ConfirmedRequestNotOffered(reqs: seq<Request>, blocks: seq<Block>, id: string,
                                   day: int, holidays: seq<Calendar.Ymd>, now: int, s: Interval)
    requires FindRequest(reqs, id).Some?
    requires Overlaps(s, SpanOf(FindRequest(reqs, id).value))
    ensures s !in GenSlots(day, holidays, Busy(BlocksAfterStatus(blocks, reqs, id, Confirmed),
                                                WithStatus(reqs, id, Confirmed)), now)
  {
    var after := BlocksAfterStatus(blocks, reqs, id, Confirmed);
    ConfirmAppendsOneBlock(blocks, reqs, id);
    var b := after[|blocks|];
    assert b in after;
    BlockedIntervalNotOffered(after, WithStatus(reqs, id, Confirmed), b, day, holidays, now, s);
  }

  /**
   * After an in-person or phone submission, no slot overlapping the submitted interval is
   * offered again; a text submission leaves the offered slots exactly as they were.
   */
  lemma SubmissionOccupiesSlot(reqs: seq<Request>, blocks: seq<Block>, r: Request,
                               day: int, holidays: seq<Calendar.Ymd>, now: int, s: Interval)
    requires r.status == Submitted
    ensures r.kind != Text && Overlaps(s, SpanOf(r)) ==>
              s !in GenSlots(day, holidays, Busy(blocks, [r] + reqs), now)
    ensures r.kind == Text ==>
              GenSlots(day, holidays, Busy(blocks, [r] + reqs), now) == GenSlots(day, holidays, Busy(blocks, reqs), now)
  {
    BusyAfterPrepend(blocks, r, reqs);
    if r.kind != Text && Overlaps(s, SpanOf(r)) {
      BusyMembership(blocks, [r] + reqs, SpanOf(r));
      assert r in [r] + reqs;
      GenSlotsMembership(day, holidays, Busy(blocks, [r] + reqs), now, s);
    }
  }

  /** The stored requests (newest first) and blocks, and the credit account they debit. */
  class BookingLedger {
    var reqs: seq<Request>
    var blocks: seq<Block>
    const credits: CreditAccount

    ghost predicate Valid()
      reads this, credits
    {
      credits.Valid()
    }

    constructor (credits: CreditAccount)
      requires credits.Valid()
      ensures Valid() && this.credits == credits && reqs == [] && blocks == []
    {
      this.credits := credits;
      reqs, blocks := [], [];
    }

    /**
     * A member's submission; `id` and `createdAt` come from the caller's clock. The first
     * failing guard is returned and nothing changes; on success exactly one request in
     * status 접수 is prepended. Credits are not touched either way.
     */
    method Submit(user: Option<User>, plan: Option<string>, slot: Option<Interval>, kind: Kind,
                  title: string, details: string, id: string, createdAt: int)
      returns (result: Result<Request, SubmitError>)
      requires Valid()
      modifies this
      ensures Valid() && blocks == old(blocks) && credits.byUser == old(credits.byUser)
      ensures var balance := if user.Some? then credits.Balance(Some(user.value.email)) else 0;
        var check := SubmitCheck(user.Some?, plan, balance, slot);
        && (check.Some? ==> result == Failure(check.value) && reqs == old(reqs))
        && (check.None? ==>
              result == Success(NewRequest(id, user.value.email, plan.value, createdAt, kind, title, details, slot.value)) &&
              reqs == [result.value] + old(reqs))
    {
      var balance := if user.Some? then credits.Balance(Some(user.value.email)) else 0;
      var check := SubmitCheck(user.Some?, plan, balance, slot);
      if check.Some? {
        return Failure(check.value);
      }
      var r := NewRequest(id, user.value.email, plan.value, createdAt, kind, title, details, slot.value);
      reqs := [r] + reqs;
      result := Success(r);
    }

    /**
     * The administrator's status change: every request with this id takes the status; for a
     * known id, 확정 appends its block, 확정취소/취소/접수 remove its blocks, and 완료 debits
     * its user one hour.
     */
    method SetStatus(id: string, status: Status)
      requires Valid()
      modifies this, credits
      ensures Valid()
      ensures reqs == WithStatus(old(reqs), id, status)
      ensures blocks == BlocksAfterStatus(old(blocks), old(reqs), id, status)
      ensures credits.byUser == CreditsAfterStatus(old(credits.byUser), old(reqs), id, status)
    {
      var found := FindRequest(reqs, id);
      reqs := WithStatus(reqs, id, status);
      if found.None? {
        return;
      }
      var r := found.value;
      if status == Confirmed {
        blocks := blocks + [ConfirmationBlock(id, r)];
      } else if status == ConfirmCancelled || status == Cancelled || status == Submitted {
        blocks := WithoutBlocksOf(blocks, id);
      } else if status == Completed {
        credits.AddCredits(r.user, -1.0);
      }
    }

    /** The administrator's deletion: the request and its blocks go, credits stay. */
    method Delete(id: string)
      requires Valid()
      modifies this
      ensures Valid() && credits.byUser == old(credits.byUser)
      ensures reqs == WithoutRequest(old(reqs), id)
      ensures blocks == WithoutBlocksOf(old(blocks), id)
    {
      reqs := WithoutRequest(reqs, id);
      blocks := WithoutBlocksOf(blocks, id);
    }
  }
}
