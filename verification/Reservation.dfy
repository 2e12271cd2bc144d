/** Posting, following and withdrawing flow reservations (cmd/inverterclient/reservation.go).

    Everything runs on one goroutine, so an interleaving is a sequence of method calls. The server's
    answers are parameters: a post's Location, a PUT's error, a read list, a failed acknowledgement. */
module Reservation {
  import opened Common
  import opened Answers
  import opened Encoding
  import opened Dispatch
  import opened PowerSplit
  import FleetTick

  /** What a withdrawal PUT may answer. */
  datatype PutError = NotFound | HrefOffServer | BadRequest | OtherError

  /** permanentRefusal: the failures a retry cannot change. */
  predicate PermanentRefusal(e: PutError) {
    e.NotFound? || e.HrefOffServer?
  }

  const MAX_WITHDRAW_BACKOFF: real := 300.0

  /** currentRequest. The ghost fields record what the server was made to do for this request. */
  class FlowRequest {
    const req: Request
    const href: string
    const facts: Facts
    var kind: Kind
    var terms: Terms
    var withdrawn: bool
    var done: bool
    var acked: set<string>
    var owed: set<string>
    ghost var acceptedPuts: nat          // withdrawal PUTs the server accepted
    ghost var acknowledged: seq<string>  // acknowledgements the server accepted, by response
    ghost var refused: bool              // the server refused the withdrawal for good
    ghost var outlived: bool             // the window and grace passed before it was withdrawn

    constructor (req: Request, href: string)
      ensures this.req == req && this.href == href && facts == FactsOf(req)
      ensures kind == Pending && terms == NO_TERMS && !withdrawn && !done && acked == {} && owed == {}
      ensures Honest() && AcksHonest() && !refused && !outlived
    {
      this.req, this.href, facts := req, href, FactsOf(req);
      kind, terms, withdrawn, done, acked, owed := Pending, NO_TERMS, false, false, {}, {};
      acceptedPuts, acknowledged, refused, outlived := 0, [], false, false;
    }

    /** Withdrawn means one accepted PUT, and a dispatching state rests on terms within the request. */
    ghost predicate Honest()
      reads this`withdrawn, this`kind, this`terms, this`acceptedPuts
    {
      && facts == FactsOf(req)
      && acceptedPuts == (if withdrawn then 1 else 0)
      && (Dispatches(kind) ==> Within(terms, facts))
    }

    /** The server accepted each acknowledgement once, and none of those is still owed. */
    ghost predicate AcksHonest()
      reads this`acked, this`owed, this`acknowledged
    {
      Lists(acknowledged, acked) && acked !! owed
    }

    /** acknowledge: tells the server once that an answer was received, when the answer asks for it. */
    method Acknowledge(resp: Answer, posted: bool)
      requires AcksHonest()
      modifies this`acked, this`owed, this`acknowledged
      ensures AcksHonest()
      ensures var wanted := resp.responseRequired.Some? && resp.responseRequired.value % 2 == 1
                            && resp.replyTo != "" && resp.mrid != "";
              && acked == old(acked) + (if wanted && posted then {resp.mrid} else {})
              && acked + owed == old(acked + owed) + (if wanted then {resp.mrid} else {})
    {
      if !Wanted(resp) || resp.mrid in acked { return; }
      owed := owed + {resp.mrid};
      if posted {
        acked := acked + {resp.mrid};
        acknowledged := acknowledged + [resp.mrid];
        owed := owed - {resp.mrid};
      }
    }

    method AcknowledgeAll(list: seq<Answer>, acks: nat -> bool)
      requires AcksHonest()
      modifies this`acked, this`owed, this`acknowledged
      ensures AcksHonest()
      ensures forall r :: r in list && r.subject == req.mrid && Wanted(r) ==> r.mrid in acked + owed
    {
      for i := 0 to |list|
        invariant AcksHonest()
        invariant forall k :: 0 <= k < i && list[k].subject == req.mrid && Wanted(list[k]) ==>
            list[k].mrid in acked + owed
      {
        if list[i].subject == req.mrid {
          Acknowledge(list[i], acks(i));
        }
      }
    }

    /** Nothing is left to withdraw, or nothing can be. */
    ghost predicate Settled()
      reads this`withdrawn, this`done, this`refused, this`outlived
    {
      withdrawn || done || href == "" || refused || outlived
    }
  }

  datatype Stale = Stale(c: FlowRequest, next: real, wait: real)

  ghost predicate KeptOnce(stale: seq<Stale>) {
    forall i, j :: 0 <= i < j < |stale| ==> stale[i].c != stale[j].c
  }

  ghost predicate Keeps(stale: seq<Stale>, c: FlowRequest) {
    exists s :: s in stale && s.c == c
  }

  /** A read of the answer list: its items, and the total the server says there are. */
  datatype Read = Read(items: seq<Answer>, all: nat)

  class Reserver {
    const disp: Dispatcher
    const pollS: nat
    const graceS: nat
    var cur: FlowRequest?
    var nextPoll: real
    var stale: seq<Stale>
    ghost var known: set<FlowRequest>   // every request ever posted

    constructor (disp: Dispatcher, pollS: nat, graceS: nat)
      requires disp.Abs() == Fresh(disp.minStep)
      ensures Safe() && (disp.minStep >= 0.0 ==> Frugal()) && this.disp == disp && this.pollS == pollS
          && this.graceS == graceS
      ensures cur == null && stale == [] && known == {}
    {
      this.disp, this.pollS, this.graceS := disp, pollS, graceS;
      cur, nextPoll, stale, known := null, 0.0, [], {};
    }

    // -------------------------------------------------------------- the invariant

    ghost predicate Current()
      reads this`cur, this`known, known`withdrawn, known`kind, known`terms, known`acceptedPuts
    {
      (cur != null ==> cur in known) && forall c :: c in known ==> c.Honest()
    }

    ghost predicate Acknowledging()
      reads this`known, known`acked, known`owed, known`acknowledged
    {
      forall c :: c in known ==> c.AcksHonest()
    }

    /** The dispatcher's terms are those of the request being followed, exactly while it dispatches. */
    ghost predicate Granted()
      reads this`cur, this`known, disp`terms, known`withdrawn, known`done, known`kind, known`terms
    {
      disp.terms ==
        if cur != null && cur in known && !cur.withdrawn && !cur.done && Dispatches(cur.kind) then Some(cur.terms)
          else None
    }

    ghost predicate Retrying()
      reads this`stale, this`known
    {
      KeptOnce(stale) && forall s :: s in stale ==> s.c in known && s.c.href != "" && 0.0 < s.wait
    }

    /** No replaced request is forgotten: it is settled or still being retried. */
    ghost predicate Remembers()
      reads this`cur, this`stale, this`known, known`withdrawn, known`done, known`refused, known`outlived
    {
      forall c :: c in known && c != cur ==> c.Settled() || Keeps(stale, c)
    }

    /** The invariant of every method and every tick, at whatever time it comes. */
    ghost predicate Safe()
      reads this`cur, this`stale, this`known, disp`terms, known
    {
      Current() && Acknowledging() && Granted() && Retrying() && Remembers()
    }

    /** The energy counted for the request being followed stays within it. Every method here keeps this;
        a tick keeps it when it comes on time and the fleet obeys. */
    ghost predicate Frugal()
      reads this`cur, disp
    {
      disp.minStep >= 0.0 && (cur != null ==> WithinRequest(disp.Abs(), cur.facts))
    }

    // -------------------------------------------------------------- withdrawing

    /** withdraw: PUTs c as cancelled, and reports whether the server accepted it. */
    method WithdrawRequest(c: FlowRequest, now: real, put: Option<PutError>) returns (ok: bool, permanent: bool)
      requires Current() && c in known
      modifies c`withdrawn, c`refused, c`acceptedPuts
      ensures Current()
      ensures ok == (!old(c.done) && !old(c.withdrawn) && c.href != "" && put.None?)
      ensures permanent == (!old(c.done) && !old(c.withdrawn) && c.href != "" && put.Some?
          && PermanentRefusal(put.value))
      ensures c.withdrawn == (old(c.withdrawn) || ok) && c.refused == (old(c.refused) || permanent)
      ensures c.acceptedPuts == old(c.acceptedPuts) + (if ok then 1 else 0)
    {
      if c.done || c.withdrawn { return false, false; }
      if c.href == "" { return false, false; }
      if put.Some? {
        if PermanentRefusal(put.value) {
          c.refused := true;
          return false, true;
        }
        return false, false;
      }
      c.withdrawn := true;
      c.acceptedPuts := c.acceptedPuts + 1;
      return true, false;
    }

    function PollInterval(): (r: real)
      ensures r >= 1.0
    {
      MaxR(pollS as real, 1.0)
    }

    /** retryLater: keeps c for another attempt, unless there is nothing to withdraw or it is kept. */
    method RetryLater(c: FlowRequest, now: real)
      requires Retrying() && c in known
      modifies this`stale
      ensures Retrying()
      ensures forall d :: Keeps(stale, d) <==>
          Keeps(old(stale), d) || (d == c && !c.done && !c.withdrawn && c.href != "")
      ensures forall s :: s in stale ==>
                s in old(stale) || s == var wait := if pollS >= 1 then pollS as real
                  else 1.0; Stale(c, now + wait, wait)
    {
      if c.done || c.withdrawn || c.href == "" { return; }
      for i := 0 to |stale|
        invariant stale == old(stale)
        invariant forall k :: 0 <= k < i ==> stale[k].c != c
      {
        if stale[i].c == c { return; }
      }
      var wait := PollInterval();
      var entry := Stale(c, now + wait, wait);
      stale := stale + [entry];
      assert entry in stale;
    }

    method Trigger(now: real, settings: Option<Settings>, mrid: Option<string>, post: Option<string>,
                   put: Option<PutError>)
      requires Safe()
      modifies this, disp, known
      ensures Safe() && (old(Frugal()) ==> Frugal())
      ensures var posts := settings.Some? && mrid.Some?
          && BuildFlowRequest(settings.value, now.Floor, mrid.value).Some? && post.Some?;
              && (!posts ==>
                    cur == old(cur) && stale == old(stale) && disp.Abs() == old(disp.Abs()) && known == old(known))
              && (posts ==> cur != null && fresh(cur) && known == old(known) + {cur}
                            && cur.req == BuildFlowRequest(settings.value, now.Floor, mrid.value).value
                              && cur.href == post.value
                            && cur.kind == Pending && disp.Abs() == Fresh(disp.minStep) && nextPoll == now
                            && (disp.minStep >= 0.0 ==> Frugal())
                            && (old(cur) != null && !old(cur.done) && old(cur).href != "" && put.None? ==>
                              old(cur).withdrawn))
    {
      if settings.None? || mrid.None? { return; }
      var req := BuildFlowRequest(settings.value, now.Floor, mrid.value);
      if req.None? || post.None? { return; }
      if cur != null { Drop(cur, now, put); }
      Adopt(req.value, post.value);
      nextPoll := now;
    }

    /** Withdraws the request about to be replaced, or keeps it for a retry. */
    method Drop(c: FlowRequest, now: real, put: Option<PutError>)
      requires Current() && Retrying() && Remembers() && c in known && c == cur
      modifies this`stale, c`withdrawn, c`refused, c`acceptedPuts
      ensures Current() && Retrying()
      ensures forall d :: d in known ==> d.Settled() || Keeps(stale, d)
      ensures !c.done && c.href != "" && put.None? ==> c.withdrawn
    {
      var ok, permanent := WithdrawRequest(c, now, put);
      if !ok && !permanent {
        RetryLater(c, now);
      }
    }

    /** Follows a newly posted request, with nothing granted and nothing delivered. */
    method Adopt(req: Request, href: string)
      requires Current() && Acknowledging() && Retrying()
      requires forall d :: d in known ==> d.Settled() || Keeps(stale, d)
      modifies this`cur, this`known, disp
      ensures Safe() && (disp.minStep >= 0.0 ==> Frugal()) && stale == old(stale)
      ensures cur != null && fresh(cur) && known == old(known) + {cur}
      ensures cur.req == req && cur.href == href && cur.kind == Pending
      ensures disp.Abs() == Fresh(disp.minStep)
    {
      cur := new FlowRequest(req, href);
      known := known + {cur};
      disp.Reset();
      FreshIsWithin(disp.minStep, cur.facts);
    }

    /** The operator's withdrawal. */
    method Withdraw(now: real, put: Option<PutError>)
      requires Safe()
      modifies this`stale, disp`terms, known
      ensures Safe() && (old(Frugal()) ==> Frugal()) && cur == old(cur)
      ensures cur == null || old(cur.done) || old(cur.withdrawn) ==>
          stale == old(stale) && disp.Abs() == old(disp.Abs())
      ensures cur != null && !old(cur.done) && !old(cur.withdrawn) && cur.href != "" && put.None? ==>
          cur.withdrawn && disp.terms == None
      ensures cur != null && !old(cur.done) && !old(cur.withdrawn) && cur.href != ""
              && put.Some? && !PermanentRefusal(put.value) ==>
                !cur.withdrawn && Keeps(stale, cur) && disp.Abs() == old(disp.Abs())
    {
      if cur == null || cur.done || cur.withdrawn { return; }
      ghost var before, frugal := disp.Abs(), Frugal();
      var ok, permanent := WithdrawRequest(cur, now, put);
      if ok {
        disp.SetGrant(None);
      } else if !permanent {
        RetryLater(cur, now);
      }
      if frugal { GrantsAreFrugal(before); }
    }

    /** Whatever changes only the grant, to that of the request being followed, keeps the count in bounds. */
    lemma GrantsAreFrugal(before: State)
      requires Current() && Granted() && disp.minStep >= 0.0
      requires disp.Abs() == before.(terms := disp.terms)
      requires cur != null ==> WithinRequest(before, cur.facts)
      ensures Frugal()
    {
      if cur != null { MoveStaysWithin(before, Revise(disp.terms), cur.facts); }
    }

    /** A kept withdrawal whose next attempt is due while its window lasts. */
    predicate Due(s: Stale, now: real) {
      now < s.c.facts.end + graceS as real && s.next <= now
    }

    function BackedOff(s: Stale, now: real): Stale {
      var wait := MinR(s.wait * 2.0, MAX_WITHDRAW_BACKOFF);
      Stale(s.c, now + wait, wait)
    }

    /** What is worth keeping: not withdrawn, the window not over, and nothing to do before later. */
    ghost predicate Waiting(s: Stale, now: real)
      reads s.c`withdrawn
    {
      !s.c.withdrawn && now < s.c.facts.end + graceS as real && now < s.next
    }

    /** What stays on the list: not withdrawn, inside its window, and not due, or not to be withdrawn for now. */
    ghost predicate StillKept(s: Stale, wasWithdrawn: bool, now: real, put: Option<PutError>)
      reads s.c`done
    {
      && !wasWithdrawn && now < s.c.facts.end + graceS as real
      && (now < s.next || s.c.done || (put.Some? && !put.value.NotFound? && !put.value.HrefOffServer?))
    }

    /** One kept withdrawal. Returns the entry to keep, if any. */
    method RetryOne(s: Stale, now: real, put: Option<PutError>) returns (kept: Option<Stale>)
      requires Current() && Granted() && s.c in known && s.c.href != "" && 0.0 < s.wait
      modifies s.c`withdrawn, s.c`refused, s.c`acceptedPuts, s.c`outlived, disp`terms
      ensures Current() && Granted()
      ensures kept.Some? ==> kept.value.c == s.c && 0.0 < kept.value.wait && Waiting(kept.value, now)
      ensures kept.None? ==> s.c.Settled()
      ensures s.c.withdrawn == (old(s.c.withdrawn) || (Due(s, now) && !s.c.done && put.None?))
      ensures s.c.refused == (old(s.c.refused) || (Due(s, now) && !s.c.done && !old(s.c.withdrawn) && put.Some?
          && PermanentRefusal(put.value)))
      ensures kept.Some? ==> kept.value == if Due(s, now) then BackedOff(s, now) else s
      ensures kept.Some? <==> StillKept(s, old(s.c.withdrawn), now, put)
      ensures s.c.acceptedPuts == old(s.c.acceptedPuts) + (if s.c.withdrawn && !old(s.c.withdrawn) then 1 else 0)
      ensures old(s.c.Settled()) ==> s.c.Settled()
    {
      var c := s.c;
      if c.withdrawn { return None; }
      if c.facts.end + graceS as real <= now {
        c.outlived := true;
        return None;
      }
      if now < s.next { return Some(s); }
      var ok, permanent := WithdrawRequest(c, now, put);
      if ok && c == cur {
        disp.SetGrant(None);
      }
      if ok || permanent { return None; }
      return Some(BackedOff(s, now));
    }

    /** The retry loop after i of the kept withdrawals: `kept` holds those to keep. */
    ghost predicate RetriedUpTo(was: seq<Stale>, i: nat, kept: seq<Stale>, now: real)
      requires i <= |was|
      reads this`cur, this`known, known`withdrawn, known`done, known`refused, known`outlived
    {
      && KeptOnce(kept)
      && (forall s :: s in kept ==>
        s.c in known && s.c.href != "" && 0.0 < s.wait && Keeps(was[..i], s.c) && Waiting(s, now))
      && (forall c :: c in known && c != cur ==> c.Settled() || Keeps(kept, c) || Keeps(was[i..], c))
    }

    method RetryNext(was: seq<Stale>, i: nat, kept: seq<Stale>, now: real, put: Option<PutError>)
      returns (more: seq<Stale>)
      requires Current() && Granted() && KeptOnce(was)
          && (forall s :: s in was ==> s.c in known && s.c.href != "" && 0.0 < s.wait)
      requires i < |was| && RetriedUpTo(was, i, kept, now)
      modifies was[i].c`withdrawn, was[i].c`refused, was[i].c`acceptedPuts, was[i].c`outlived, disp`terms
      ensures Current() && Granted()
      ensures RetriedUpTo(was, i + 1, more, now)
      ensures was[i].c.withdrawn == (old(was[i].c.withdrawn) || (Due(was[i], now) && !was[i].c.done && put.None?))
      ensures forall s :: s in kept ==> s in more
      ensures StillKept(was[i], old(was[i].c.withdrawn), now, put) ==> Postponed(was[i], now) in more
    {
      assert was[i] in was;
      var k := RetryOne(was[i], now, put);
      more := Kept(kept, k);
      KeptNext(was, i, kept, k);
    }

    function Kept(kept: seq<Stale>, k: Option<Stale>): seq<Stale> {
      if k.Some? then kept + [k.value] else kept
    }

    /** The filter's bookkeeping for one entry. */
    lemma KeptNext(was: seq<Stale>, i: nat, kept: seq<Stale>, k: Option<Stale>)
      requires KeptOnce(was) && i < |was| && KeptOnce(kept)
      requires forall s :: s in kept ==> Keeps(was[..i], s.c)
      requires k.Some? ==> k.value.c == was[i].c
      ensures KeptOnce(Kept(kept, k))
      ensures forall s :: s in kept ==> s.c != was[i].c && s in Kept(kept, k)
      ensures k.Some? ==> k.value in Kept(kept, k)
      ensures forall s :: s in Kept(kept, k) ==> (s in kept || k == Some(s)) && Keeps(was[..i + 1], s.c)
      ensures forall c :: Keeps(kept, c) || (k.Some? && c == was[i].c) ==> Keeps(Kept(kept, k), c)
      ensures forall c :: Keeps(was[i..], c) ==> c == was[i].c || Keeps(was[i + 1..], c)
    {
      KeepsLonger(was, i);
      forall s | s in kept ensures s.c != was[i].c {
        var t :| t in was[..i] && t.c == s.c;
      }
      if k.Some? { assert k.value in Kept(kept, k); }
      forall c | Keeps(kept, c) ensures Keeps(Kept(kept, k), c) {
        var s :| s in kept && s.c == c;
        assert s in Kept(kept, k);
      }
    }

    lemma KeepsLonger(was: seq<Stale>, i: nat)
      requires i < |was|
      ensures Keeps(was[..i + 1], was[i].c)
      ensures forall c :: Keeps(was[..i], c) ==> Keeps(was[..i + 1], c)
      ensures forall c :: Keeps(was[i..], c) ==> c == was[i].c || Keeps(was[i + 1..], c)
    {
      assert was[i..] == [was[i]] + was[i + 1..];
      assert was[..i + 1] == was[..i] + [was[i]];
      assert was[i] in was[..i + 1];
    }

    /** A due withdrawal is PUT, and only a due one; one that fails for now is kept, with a longer wait. */
    ghost predicate Retried(s: Stale, wasWithdrawn: bool, kept: seq<Stale>, now: real, put: Option<PutError>)
      reads s.c`withdrawn, s.c`done
    {
      && s.c.withdrawn == (wasWithdrawn ||
                             (s.next <= now < s.c.facts.end + graceS as real && !s.c.done && put.None?))
      && (StillKept(s, wasWithdrawn, now, put) ==> Postponed(s, now) in kept)
    }

    /** A due entry waits twice as long as before, at most five minutes. */
    ghost function Postponed(s: Stale, now: real): Stale {
      var wait := if s.wait * 2.0 <= 300.0 then s.wait * 2.0 else 300.0;
      if s.next <= now then Stale(s.c, now + wait, wait) else s
    }

    method RetryEach(now: real, puts: nat -> Option<PutError>, ghost before: seq<bool>) returns (kept: seq<Stale>)
      requires Current() && Granted() && Retrying() && Remembers() && Progress(stale, before, 0, [], now, puts)
      modifies disp`terms, known`withdrawn, known`refused, known`acceptedPuts, known`outlived
      ensures Current() && Granted()
      ensures RetriedUpTo(stale, |stale|, kept, now) && Progress(stale, before, |stale|, kept, now, puts)
    {
      kept := [];
      assert stale[0..] == stale;
      for i := 0 to |stale|
        invariant Current() && Granted()
        invariant RetriedUpTo(stale, i, kept, now) && Progress(stale, before, i, kept, now, puts)
      {
        kept := RetryTracked(stale, before, i, kept, now, puts);
      }
    }

    /** The first i are retried, the others as they were. */
    ghost predicate Progress(was: seq<Stale>, before: seq<bool>, i: nat, kept: seq<Stale>, now: real,
                             puts: nat -> Option<PutError>)
      requires i <= |was|
      reads this`known, known`withdrawn, known`done
    {
      && |before| == |was|
      && (forall k :: 0 <= k < |was| ==> was[k].c in known)
      && (forall k :: 0 <= k < i ==> was[k].c in known && Retried(was[k], before[k], kept, now, puts(k)))
      && (forall k :: i <= k < |was| ==> was[k].c in known && was[k].c.withdrawn == before[k])
    }

    method RetryTracked(was: seq<Stale>, ghost before: seq<bool>, i: nat, kept: seq<Stale>, now: real,
                        puts: nat -> Option<PutError>) returns (more: seq<Stale>)
      requires Current() && Granted() && KeptOnce(was)
      requires forall s :: s in was ==> s.c in known && s.c.href != "" && 0.0 < s.wait
      requires i < |was| && RetriedUpTo(was, i, kept, now) && Progress(was, before, i, kept, now, puts)
      modifies was[i].c`withdrawn, was[i].c`refused, was[i].c`acceptedPuts, was[i].c`outlived, disp`terms
      ensures Current() && Granted()
      ensures RetriedUpTo(was, i + 1, more, now) && Progress(was, before, i + 1, more, now, puts)
    {
      assert forall k :: 0 <= k < |was| && k != i ==> was[k].c != was[i].c;
      assert was[i] in was;
      more := RetryNext(was, i, kept, now, puts(i));
      assert Retried(was[i], before[i], more, now, puts(i));
    }

    method RetryAll(now: real, puts: nat -> Option<PutError>, ghost before: seq<bool>)
      requires Safe() && Progress(stale, before, 0, [], now, puts)
      modifies this`stale, disp`terms, known`withdrawn, known`refused, known`acceptedPuts, known`outlived
      ensures Safe() && forall s :: s in stale ==> Waiting(s, now)
      ensures Progress(old(stale), before, |old(stale)|, stale, now, puts)
    {
      stale := RetryEach(now, puts, before);
    }

    method RetryWithdrawals(now: real, puts: nat -> Option<PutError>)
      requires Safe()
      modifies this`stale, disp`terms, known`withdrawn, known`refused, known`acceptedPuts, known`outlived
      ensures Safe() && (old(Frugal()) ==> Frugal()) && forall s :: s in stale ==> Waiting(s, now)
      ensures forall k :: 0 <= k < |old(stale)| ==>
                Retried(old(stale[k]), old(stale[k].c.withdrawn), stale, now, puts(k))
    {
      ghost var before, frugal := disp.Abs(), Frugal();
      ghost var was := stale;
      ghost var flags := seq(|was|, k requires 0 <= k < |was|
                                    reads if 0 <= k < |was| then {was[k].c} else {}
                                    => was[k].c.withdrawn);
      assert forall k :: 0 <= k < |was| ==> was[k] in was;
      RetryAll(now, puts, flags);
      if frugal { GrantsAreFrugal(before); }
    }

    // -------------------------------------------------------------- following the answer

    /** finish: the window and grace have passed. */
    method Finish(c: FlowRequest)
      requires Safe() && c == cur
      modifies c`done, disp`terms
      ensures Safe() && c.done && disp.terms == None
    {
      c.done := true;
      disp.SetGrant(None);
    }

    /** Whether the answers are read: a request is being followed, and a read is due. */
    ghost predicate Reads(now: real)
      reads this`cur, this`known, this`nextPoll, known`done
    {
      && cur != null && cur in known && !cur.done
      && now < cur.facts.end + graceS as real && nextPoll <= now
    }

    /** Whether a read list is judged: it was due, and it is complete. */
    ghost predicate Judges(now: real, read: Option<Read>)
      reads this`cur, this`known, this`nextPoll, known`done
    {
      Reads(now) && read.Some? && read.value.all <= |read.value.items|
    }

    /** Every deliverable acknowledgement is posted or owed. */
    ghost predicate Answered(c: FlowRequest, list: seq<Answer>)
      reads c`acked, c`owed
    {
      forall r :: r in list && r.subject == c.req.mrid && Wanted(r) ==> r.mrid in c.acked + c.owed
    }

    /** Poll: the retries, then the request being followed. */
    method Poll(retryAt: real, now: real, puts: nat -> Option<PutError>, read: Option<Read>, acks: nat -> bool)
      requires Safe()
      modifies this`stale, this`nextPoll, disp`terms, known
      ensures Safe() && (old(Frugal()) ==> Frugal()) && cur == old(cur)
      ensures forall s :: s in stale ==> Waiting(s, retryAt)
      ensures nextPoll == if old(Reads(now)) then now + pollS as real else old(nextPoll)
      ensures old(Judges(now, read)) ==>
                (cur.kind, cur.terms) == Judge(read.value.items, cur.req.mrid, cur.facts, graceS as real, now) &&
                Answered(cur, read.value.items)
      ensures old(Judges(now, read)) <==>
                && old(cur != null && !cur.done && now < cur.facts.end + graceS as real && nextPoll <= now)
                && read.Some? && read.value.all <= |read.value.items|
      // A usable answer, on time or late, is what the dispatcher gets; any other answer, or none, drops the grant.
      ensures old(Judges(now, read)) && !cur.withdrawn ==>
                && (forall a :: Taken(read.value.items, cur.req.mrid, a) && Usable(a, cur.facts) ==>
                      disp.terms.Some? && IsIntersection(disp.terms.value, a, cur.facts))
                && (disp.terms.Some? ==> exists a :: Taken(read.value.items, cur.req.mrid, a) && Usable(a, cur.facts))
      ensures cur != null && !old(Judges(now, read)) ==> cur.kind == old(cur.kind) && cur.terms == old(cur.terms)
      ensures cur != null && !old(cur.done) ==> (cur.done <==> cur.facts.end + graceS as real <= now)
    {
      RetryWithdrawals(retryAt, puts);
      PollFrugally(now, read, acks);
      if read.Some? { GrantFollowsAnswer(read.value.items, now); }
    }

    /** What the verdict on a list means for the grant. */
    lemma GrantFollowsAnswer(list: seq<Answer>, now: real)
      requires Safe()
      ensures cur != null && !cur.done && !cur.withdrawn
              && (cur.kind, cur.terms) == Judge(list, cur.req.mrid, cur.facts, graceS as real, now) ==>
                && (forall a :: Taken(list, cur.req.mrid, a) && Usable(a, cur.facts) ==>
                      disp.terms.Some? && IsIntersection(disp.terms.value, a, cur.facts))
                && (disp.terms.Some? ==> exists a :: Taken(list, cur.req.mrid, a) && Usable(a, cur.facts))
    {
      if cur != null {
        VerdictExactly(list, cur.req.mrid, cur.facts, graceS as real, now);
      }
    }

    /** PollCurrent, and that it keeps the count in bounds. */
    method PollFrugally(now: real, read: Option<Read>, acks: nat -> bool)
      requires Safe()
      modifies this`nextPoll, disp`terms, known`done, known`kind, known`terms, known`acked, known`owed,
        known`acknowledged
      ensures Safe() && (old(Frugal()) ==> Frugal())
      ensures nextPoll == if old(Reads(now)) then now + pollS as real else old(nextPoll)
      ensures old(Judges(now, read)) ==>
                (cur.kind, cur.terms) == Judge(read.value.items, cur.req.mrid, cur.facts, graceS as real, now) &&
                Answered(cur, read.value.items)
      ensures cur != null && !old(Judges(now, read)) ==> cur.kind == old(cur.kind) && cur.terms == old(cur.terms)
      ensures cur != null && !old(cur.done) ==> (cur.done <==> cur.facts.end + graceS as real <= now)
    {
      ghost var before, frugal := disp.Abs(), Frugal();
      PollCurrent(now, read, acks);
      if frugal { GrantsAreFrugal(before); }
    }

    /** A failed or truncated read changes nothing. */
    method PollCurrent(now: real, read: Option<Read>, acks: nat -> bool)
      requires Safe()
      modifies this`nextPoll, disp`terms, known`done, known`kind, known`terms, known`acked, known`owed,
        known`acknowledged
      ensures Safe()
      ensures nextPoll == if old(Reads(now)) then now + pollS as real else old(nextPoll)
      ensures old(Judges(now, read)) ==>
                (cur.kind, cur.terms) == Judge(read.value.items, cur.req.mrid, cur.facts, graceS as real, now) &&
                Answered(cur, read.value.items)
      ensures cur != null && !old(Judges(now, read)) ==> cur.kind == old(cur.kind) && cur.terms == old(cur.terms)
      ensures cur != null && !old(cur.done) ==> (cur.done <==> cur.facts.end + graceS as real <= now)
    {
      if cur == null || cur.done { return; }
      if cur.facts.end + graceS as real <= now {
        Finish(cur);
      } else if nextPoll <= now {
        nextPoll := now + pollS as real;
        if read.Some? && read.value.all <= |read.value.items| {
          Follow(cur, read.value.items, now);
          cur.AcknowledgeAll(read.value.items, acks);
        }
      }
    }

    /** Takes over the judged answer, and grants it unless the request is withdrawn. */
    method Follow(c: FlowRequest, list: seq<Answer>, now: real)
      requires Safe() && c == cur && !c.done
      modifies c`kind, c`terms, disp`terms
      ensures Safe()
      ensures (c.kind, c.terms) == Judge(list, c.req.mrid, c.facts, graceS as real, now)
    {
      JudgedTermsAreWithin(list, c.req.mrid, c.facts, graceS as real, now);
      var judged := Judge(list, c.req.mrid, c.facts, graceS as real, now);
      c.kind, c.terms := judged.0, judged.1;
      if Dispatches(c.kind) && !c.withdrawn {
        disp.SetGrant(Some(c.terms));
      } else {
        disp.SetGrant(None);
      }
    }
  }

  /** An answer that asks for an acknowledgement that can be delivered. */
  predicate Wanted(resp: Answer) {
    resp.responseRequired.Some? && resp.responseRequired.value % 2 == 1 && resp.replyTo != "" && resp.mrid != ""
  }

  lemma FreshIsWithin(minStep: real, rq: Facts)
    ensures WithinRequest(Fresh(minStep), rq)
  {
    assert Direction(rq.energyWh) * 0.0 == 0.0;
  }

  /** A power in the direction of the request: charging, unless the request discharges. */
  predicate Along(rq: Facts, chargingW: real) {
    if rq.energyWh < 0.0 then chargingW <= 0.0 else chargingW >= 0.0
  }

  /** Main result: whatever was posted, withdrawn, answered or revised before, late ticks and driven
      batteries included, a plan is only made inside the requested window, orders power in the requested
      direction, and no more in all than the requested power. */
  lemma PlansStayWithinRequest(r: Reserver, now: real, members: seq<Member>)
    requires r.Safe() && Inside(r.disp.Abs(), now) && DistinctKeys(members) && Rated(members)
    ensures r.cur != null && !r.cur.withdrawn && !r.cur.done && Dispatches(r.cur.kind)
    ensures r.cur.facts.start <= now < r.cur.facts.end
    ensures var target := Target(r.disp.Abs(), now);
            && Along(r.cur.facts, PlannedTotal(Shares(target, members), members))
            && AbsR(PlannedTotal(Shares(target, members), members)) <= r.cur.facts.powerW
            && forall i :: 0 <= i < |members| ==> Along(r.cur.facts, Planned(Shares(target, members), members[i].key))
  {
    SharesStayWithin(r.disp.Abs(), r.cur.facts, now, members);
  }

  /** The same of any dispatcher whose grant is within the request. */
  lemma SharesStayWithin(d: State, rq: Facts, now: real, members: seq<Member>)
    requires Inside(d, now) && Within(d.terms.value, rq) && DistinctKeys(members) && Rated(members)
    ensures rq.start <= now < rq.end
    ensures Along(rq, PlannedTotal(Shares(Target(d, now), members), members))
    ensures AbsR(PlannedTotal(Shares(Target(d, now), members), members)) <= rq.powerW
    ensures forall i :: 0 <= i < |members| ==> Along(rq, Planned(Shares(Target(d, now), members), members[i].key))
  {
    var target := Target(d, now);
    TargetWithinRequest(d, rq, now);
    SplitConserves(target, members);
    ClippedAlong(target, members);
    forall i | 0 <= i < |members| ensures Along(rq, Planned(Shares(target, members), members[i].key)) {
      SharesFit(target, members, i);
      assert target == 0.0 ==> Planned(Shares(target, members), members[i].key) == 0.0;
    }
  }

  lemma TargetWithinRequest(d: State, rq: Facts, now: real)
    requires Inside(d, now) && Within(d.terms.value, rq)
    ensures rq.start <= now < rq.end
    ensures Along(rq, Target(d, now)) && AbsR(Target(d, now)) <= rq.powerW
  {
    var t := d.terms.value;
    assert Direction(t.energyWh) == Direction(rq.energyWh) by { assert 0.0 < Direction(rq.energyWh) * t.energyWh; }
    if RemainingWh(t, Delivered(d, now)) >= 0.0 {
      TargetIsAffordable(t, Delivered(d, now), now, StepLength(d));
    }
  }

  lemma ClippedAlong(target: real, members: seq<Member>)
    requires Rated(members)
    ensures var c := Clipped(target, members);
            AbsR(c) <= AbsR(target) && (target >= 0.0 ==> c >= 0.0) && (target <= 0.0 ==> c <= 0.0)
  {
    TotalIsNonNegative(members, target > 0.0);
    CapacityIsHeadroom(members, target > 0.0);
  }

  /** Main result: a fleet tick between the reserver's calls, early or late, whatever the batteries do,
      keeps the reserver safe. One that comes on time, with no battery driven by a control event, also
      keeps the counted energy within the request. */
  method TickUnderReservation(r: Reserver, f: FleetTick.ManagedFleet, now: real, weather: seq<FleetTick.Weather>,
                              root: real -> real)
    requires r.Safe() && f.Valid() && f.dispatch == r.disp && |weather| == |f.devices|
    modifies r.disp
    modifies set d: FleetTick.ManagedDevice | d in f.devices :: d
    modifies set d: FleetTick.ManagedDevice | d in f.devices :: d.dev
    ensures r.Safe() && f.Valid()
    ensures old(r.Frugal()) && f.NoneDriven(weather) && old(InTime(r.disp.Abs(), now)) ==>
              r.Frugal() && (r.cur != null ==>
                Direction(r.cur.facts.energyWh) * r.disp.deliveredWh <= AbsR(r.cur.facts.energyWh))
  {
    ghost var d := r.disp.Abs();
    ghost var onTime := r.Frugal() && f.NoneDriven(weather) && InTime(d, now);
    var achieved;
    ghost var reported;
    ghost var plan, seen;
    achieved, reported, plan, seen := f.Tick(now, weather, root);
    if onTime && r.cur != null {
      FleetTick.AllPlanned(f.devices, weather, reported, |reported|);
      assert reported[..|reported|] == reported;
      TickStaysWithin(d, now, achieved, r.cur.facts);
    }
  }

  lemma TickStaysWithin(d: State, now: real, achieved: real, rq: Facts)
    requires WithinRequest(d, rq) && d.minStep >= 0.0 && InTime(d, now)
    requires Inside(d, now) ==> FleetTick.Follows(achieved, Target(d, now))
    ensures WithinRequest(AfterTick(d, now, achieved), rq)
  {
    TickIsFair(d, now, achieved, rq);
    MoveStaysWithin(d, Run(now, achieved), rq);
  }

  lemma TickIsFair(d: State, now: real, achieved: real, rq: Facts)
    requires WithinRequest(d, rq) && InTime(d, now)
    requires Inside(d, now) ==> FleetTick.Follows(achieved, Target(d, now))
    ensures Fair(d, Run(now, achieved), rq)
  {
    if Inside(d, now) {
      var t := d.terms.value;
      if RemainingWh(t, Delivered(d, now)) >= 0.0 {
        TargetIsAffordable(t, Delivered(d, now), now, StepLength(d));
      }
    }
  }
}
