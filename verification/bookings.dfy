/**
 * Consultation requests and calendar blocks as values, the busy list derived from them,
 * and the pure list updates behind the administrator's actions.
 */
module Bookings {
  import opened Wrappers
  import opened Sequences
  import opened Availability

  /** The consultation kinds: in person (대면), phone (전화) and text (텍스트). */
  datatype Kind = InPerson | Phone | Text

  /** The request states: 접수, 확정, 확정취소, 완료 and 취소. */
  datatype Status = Submitted | Confirmed | ConfirmCancelled | Completed | Cancelled

  /** A consultation request; `user` is the requester's e-mail and `start`/`end` are instants. */
  datatype Request = Request(
    id: string, user: string, plan: string, createdAt: int,
    kind: Kind, title: string, details: string,
    start: int, end: int, status: Status)

  /** A calendar block created when a request is confirmed. */
  datatype Block = Block(id: string, title: string, start: int, end: int)

  function KindLabel(k: Kind): string {
    match k
    case InPerson => "대면"
    case Phone => "전화"
    case Text => "텍스트"
  }

  /** The id of the block belonging to request `requestId`: 'blk_' + requestId. */
  function BlockId(requestId: string): (b: string)
    ensures |b| == |requestId| + 4 && b[..4] == "blk_" && b[4..] == requestId
  {
    "blk_" + requestId
  }

  /** Distinct requests own distinct block ids. */
  lemma BlockIdInjective(a: string, b: string)
    ensures BlockId(a) == BlockId(b) <==> a == b
  {
    if BlockId(a) == BlockId(b) {
      assert a == BlockId(a)[4..] == BlockId(b)[4..] == b;
    }
  }

  /** The block that confirming request `r` (looked up by `id`) appends. */
  function ConfirmationBlock(id: string, r: Request): (b: Block)
    ensures b.id == BlockId(id) && b.start == r.start && b.end == r.end
  {
    Block(BlockId(id), "상담(" + KindLabel(r.kind) + ")", r.start, r.end)
  }

  /** A request takes its time out of the calendar unless cancelled, and only when in person or by phone. */
  predicate Occupies(r: Request): (b: bool)
    ensures b <==> r.status != Cancelled && r.kind != Text
  {
    r.status != Cancelled && (r.kind == InPerson || r.kind == Phone)
  }

  function SpanOf(r: Request): Interval {
    Interval(r.start, r.end)
  }

  function BlockSpans(blocks: seq<Block>): (r: seq<Interval>)
    ensures |r| == |blocks|
    ensures forall i :: 0 <= i < |blocks| ==> r[i] == Interval(blocks[i].start, blocks[i].end)
  {
    seq(|blocks|, i requires 0 <= i < |blocks| => Interval(blocks[i].start, blocks[i].end))
  }

  function RequestSpans(reqs: seq<Request>): (r: seq<Interval>)
    ensures |r| == |reqs|
    ensures forall i :: 0 <= i < |reqs| ==> r[i] == SpanOf(reqs[i])
  {
    seq(|reqs|, i requires 0 <= i < |reqs| => SpanOf(reqs[i]))
  }

  /** The busy list: every block, then every occupying request, in list order. */
  function Busy(blocks: seq<Block>, reqs: seq<Request>): (busy: seq<Interval>)
    ensures |busy| == |blocks| + Count(reqs, Occupies)
    ensures forall i :: 0 <= i < |blocks| ==> busy[i] == Interval(blocks[i].start, blocks[i].end)
  {
    BlockSpans(blocks) + RequestSpans(Filter(reqs, Occupies))
  }

  /**
   * The busy list holds exactly the block intervals and the intervals of requests that are
   * not cancelled and are in person or by phone.
   */
  lemma BusyMembership(blocks: seq<Block>, reqs: seq<Request>, x: Interval)
    ensures x in Busy(blocks, reqs) <==>
              (exists b :: b in blocks && x == Interval(b.start, b.end)) ||
              (exists r :: r in reqs && Occupies(r) && x == SpanOf(r))
  {
    var occ := Filter(reqs, Occupies);
    if x in BlockSpans(blocks) {
      var i :| 0 <= i < |blocks| && BlockSpans(blocks)[i] == x;
      assert blocks[i] in blocks;
    }
    if x in RequestSpans(occ) {
      var i :| 0 <= i < |occ| && RequestSpans(occ)[i] == x;
      assert occ[i] in occ;
    }
    if exists b :: b in blocks && x == Interval(b.start, b.end) {
      var b :| b in blocks && x == Interval(b.start, b.end);
      var i :| 0 <= i < |blocks| && blocks[i] == b;
      assert BlockSpans(blocks)[i] == x;
    }
    if exists r :: r in reqs && Occupies(r) && x == SpanOf(r) {
      var r :| r in reqs && Occupies(r) && x == SpanOf(r);
      assert r in occ;
      var i :| 0 <= i < |occ| && occ[i] == r;
      assert RequestSpans(occ)[i] == x;
    }
  }

  /**
   * Prepending a request (what a submission does) adds its interval right after the blocks
   * when it occupies the calendar, and leaves the busy list as it was otherwise; in
   * particular a text consultation never blocks a slot.
   */
  lemma BusyAfterPrepend(blocks: seq<Block>, r: Request, reqs: seq<Request>)
    ensures Busy(blocks, [r] + reqs) ==
              BlockSpans(blocks) + (if Occupies(r) then [SpanOf(r)] else []) + RequestSpans(Filter(reqs, Occupies))
    ensures r.kind == Text ==> Busy(blocks, [r] + reqs) == Busy(blocks, reqs)
  {
    var s, rest := [r] + reqs, Filter(reqs, Occupies);
    assert s[0] == r && s[1..] == reqs;
    assert Filter(s, Occupies) == (if Occupies(r) then [r] else []) + rest;
    if Occupies(r) {
      RequestSpansCons(r, rest);
      AppendAssoc(BlockSpans(blocks), [SpanOf(r)], RequestSpans(rest));
    } else {
      assert [] + rest == rest;
      assert BlockSpans(blocks) + [] == BlockSpans(blocks);
    }
  }

  lemma RequestSpansCons(r: Request, rest: seq<Request>)
    ensures RequestSpans([r] + rest) == [SpanOf(r)] + RequestSpans(rest)
  {
  }

  /** The first request with this id. */
  function FindRequest(reqs: seq<Request>, id: string): (found: Option<Request>)
    ensures found.None? <==> forall r :: r in reqs ==> r.id != id
    ensures found.Some? ==> found.value in reqs && found.value.id == id
    ensures found.Some? ==> exists i :: 0 <= i < |reqs| && reqs[i] == found.value &&
                              forall j :: 0 <= j < i ==> reqs[j].id != id
  {
    if reqs == [] then None
    else if reqs[0].id == id then Some(reqs[0])
    else
      var rest := FindRequest(reqs[1..], id);
      if rest.Some? then
        var i :| 0 <= i < |reqs[1..]| && reqs[1..][i] == rest.value &&
                 forall j :: 0 <= j < i ==> reqs[1..][j].id != id;
        assert reqs[i + 1] == rest.value;
        rest
      else rest
  }

  /** Every request with this id takes the new status; the others are kept as they are. */
  function WithStatus(reqs: seq<Request>, id: string, status: Status): (r: seq<Request>)
    ensures |r| == |reqs|
    ensures forall i :: 0 <= i < |reqs| ==> r[i].id == reqs[i].id && r[i].start == reqs[i].start && r[i].end == reqs[i].end
    ensures forall i :: 0 <= i < |reqs| ==> (r[i].status == status <==> reqs[i].id == id || reqs[i].status == status)
  {
    seq(|reqs|, i requires 0 <= i < |reqs| => if reqs[i].id == id then reqs[i].(status := status) else reqs[i])
  }

  /** The blocks other than those of request `id`, in their order. */
  function WithoutBlocksOf(blocks: seq<Block>, id: string): (r: seq<Block>)
    ensures forall b :: b in r <==> b in blocks && b.id != BlockId(id)
    ensures |r| == |blocks| - BlocksWithId(blocks, BlockId(id))
  {
    CountComplement(blocks, BlockId(id));
    Filter(blocks, (b: Block) => b.id != BlockId(id))
  }

  /** The block list after an administrator sets request `id` to `status`. */
  function BlocksAfterStatus(blocks: seq<Block>, reqs: seq<Request>, id: string, status: Status): (r: seq<Block>)
    ensures |r| <= |blocks| + 1
    ensures forall b :: b in blocks && b.id != BlockId(id) ==> b in r
    ensures forall b :: b in r && b !in blocks ==>
              FindRequest(reqs, id).Some? && b == ConfirmationBlock(id, FindRequest(reqs, id).value)
  {
    match FindRequest(reqs, id)
    case None => blocks
    case Some(r) =>
      if status == Confirmed then blocks + [ConfirmationBlock(id, r)]
      else if status == ConfirmCancelled || status == Cancelled || status == Submitted then WithoutBlocksOf(blocks, id)
      else blocks
  }

  /** The number of blocks that carry block id `bid`. */
  function BlocksWithId(blocks: seq<Block>, bid: string): nat {
    Count(blocks, (b: Block) => b.id == bid)
  }

  // ---------------------------------------------------------------------------
  // Properties of the administrator's list updates

  /**
   * A status change touches only the status field, and only of the requests with that id;
   * every other request stays exactly as it was, in the same position.
   */
  lemma WithStatusChangesOnlyStatus(reqs: seq<Request>, id: string, status: Status)
    ensures var r := WithStatus(reqs, id, status);
      forall i :: 0 <= i < |reqs| ==>
        && r[i].(status := reqs[i].status) == reqs[i]
        && (reqs[i].id == id ==> r[i].status == status)
        && (reqs[i].id != id ==> r[i] == reqs[i])
  {
  }

  /** A status change for an id not in the ledger changes nothing at all. */
  lemma UnknownIdChangesNothing(reqs: seq<Request>, blocks: seq<Block>, id: string, status: Status)
    requires forall r :: r in reqs ==> r.id != id
    ensures WithStatus(reqs, id, status) == reqs
    ensures BlocksAfterStatus(blocks, reqs, id, status) == blocks
  {
    var r := WithStatus(reqs, id, status);
    forall i | 0 <= i < |reqs| ensures r[i] == reqs[i] {
      assert reqs[i] in reqs;
    }
  }

  /**
   * Confirming a request appends exactly one block, with id 'blk_' + id and the request's
   * interval, after all the existing blocks.
   */
  lemma ConfirmAppendsOneBlock(blocks: seq<Block>, reqs: seq<Request>, id: string)
    requires FindRequest(reqs, id).Some?
    ensures var after := BlocksAfterStatus(blocks, reqs, id, Confirmed);
      var r := FindRequest(reqs, id).value;
      && |after| == |blocks| + 1
      && after[..|blocks|] == blocks
      && after[|blocks|].id == BlockId(id)
      && after[|blocks|].start == r.start && after[|blocks|].end == r.end
      && BlocksWithId(after, BlockId(id)) == BlocksWithId(blocks, BlockId(id)) + 1
  {
    var after := BlocksAfterStatus(blocks, reqs, id, Confirmed);
    assert after[..|blocks|] == blocks;
    CountSnoc(blocks, ConfirmationBlock(id, FindRequest(reqs, id).value), (b: Block) => b.id == BlockId(id));
  }

  /**
   * Confirming the same request twice leaves two blocks with its id: the append does not
   * check for an existing block.
   */
  lemma ConfirmTwiceDuplicates(blocks: seq<Block>, reqs: seq<Request>, id: string)
    requires FindRequest(reqs, id).Some?
    requires BlocksWithId(blocks, BlockId(id)) == 0
    ensures var once := BlocksAfterStatus(blocks, reqs, id, Confirmed);
      BlocksWithId(BlocksAfterStatus(once, WithStatus(reqs, id, Confirmed), id, Confirmed), BlockId(id)) == 2
  {
    var once := BlocksAfterStatus(blocks, reqs, id, Confirmed);
    ConfirmAppendsOneBlock(blocks, reqs, id);
    var reqs' := WithStatus(reqs, id, Confirmed);
    FindAfterWithStatus(reqs, id, Confirmed);
    ConfirmAppendsOneBlock(once, reqs', id);
  }

  /** After a status change the same id is still found, now with the new status. */
  lemma {:induction false} FindAfterWithStatus(reqs: seq<Request>, id: string, status: Status)
    ensures FindRequest(WithStatus(reqs, id, status), id) ==
              match FindRequest(reqs, id)
              case None => None
              case Some(r) => Some(r.(status := status))
  {
    if reqs != [] {
      assert WithStatus(reqs, id, status)[1..] == WithStatus(reqs[1..], id, status);
      FindAfterWithStatus(reqs[1..], id, status);
    }
  }

  /**
   * Setting a found request to 확정취소, 취소 or 접수 removes exactly the blocks whose id is
   * 'blk_' + id: none of them remains, and every other block stays, in order.
   */
  lemma UnconfirmRemovesExactlyItsBlocks(blocks: seq<Block>, reqs: seq<Request>, id: string, status: Status)
    requires FindRequest(reqs, id).Some?
    requires status == ConfirmCancelled || status == Cancelled || status == Submitted
    ensures var after := BlocksAfterStatus(blocks, reqs, id, status);
      && (forall b :: b in after <==> b in blocks && b.id != BlockId(id))
      && IsSubsequence(after, blocks)
      && BlocksWithId(after, BlockId(id)) == 0
      && |after| == |blocks| - BlocksWithId(blocks, BlockId(id))
  {
    var p := (b: Block) => b.id != BlockId(id);
    var after := Filter(blocks, p);
    FilterIsSubsequence(blocks, p);
    FilterIsSubsequence(blocks, (b: Block) => b.id == BlockId(id));
    CountComplement(blocks, BlockId(id));
    assert forall b :: b in after ==> b.id != BlockId(id);
    NoneCounted(after, BlockId(id));
  }

  lemma {:induction false} CountComplement(blocks: seq<Block>, bid: string)
    ensures |Filter(blocks, (b: Block) => b.id != bid)| + BlocksWithId(blocks, bid) == |blocks|
  {
    if blocks != [] {
      CountComplement(blocks[1..], bid);
    }
  }

  lemma {:induction false} NoneCounted(blocks: seq<Block>, bid: string)
    requires forall b :: b in blocks ==> b.id != bid
    ensures BlocksWithId(blocks, bid) == 0
  {
    if blocks != [] {
      assert blocks[0] in blocks;
      NoneCounted(blocks[1..], bid);
    }
  }

  /** Completion, and any other status, leaves the blocks as they are. */
  lemma CompletionKeepsBlocks(blocks: seq<Block>, reqs: seq<Request>, id: string)
    ensures BlocksAfterStatus(blocks, reqs, id, Completed) == blocks
  {
  }

  /**
   * Once a request's block is in the block list, no slot overlapping the request's interval
   * is offered on any day, whatever the request's own status or kind.
   */
  lemma BlockedIntervalNotOffered(blocks: seq<Block>, reqs: seq<Request>, b: Block,
                                   day: int, holidays: seq<Calendar.Ymd>, now: int, s: Interval)
    requires b in blocks
    requires Overlaps(s, Interval(b.start, b.end))
    ensures s !in GenSlots(day, holidays, Busy(blocks, reqs), now)
  {
    BusyMembership(blocks, reqs, Interval(b.start, b.end));
    GenSlotsMembership(day, holidays, Busy(blocks, reqs), now, s);
  }
}
