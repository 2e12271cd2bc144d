/** The sidecar connection (internal/sim/gridlabd/client.go), as a transition system.

    One step is one point at which goroutines can interleave: a caller takes the lock, its request is
    written, a line arrives from the sidecar, a line is read, the caller gives up, the lock holder
    settles the exchange. The environment picks the next step and every outcome. */
module Wire {
  /** A reply line as decodeReply sees it. */
  datatype Reply = Reply(id: int, ok: bool, workerDead: bool) | Garbled

  datatype Result = Line(reply: Reply) | IOFailed

  /** The round trip a call runs in its own goroutine. */
  datatype Trip = Writing | Reading | Done(res: Result)

  /** Who holds the connection lock: a caller waiting for its own trip, or drain finishing the trip of
      a caller that gave up. */
  datatype Lock = Free | Held(id: nat, trip: Trip, detached: bool)

  datatype Delivery = Delivery(caller: nat, reply: Reply)

  datatype State = State(
    lock: Lock,
    nextID: nat,
    broken: bool,
    open: bool,                  // the socket is not closed
    sent: seq<nat>,              // ids of the requests written, in order
    inbox: seq<Reply>,           // lines that arrived and are not read yet
    consumed: nat,               // lines read so far
    delivered: seq<Delivery>)    // replies handed to callers

  const START := State(Free, 0, false, true, [], [], 0, [])

  datatype Action =
    | Enter(ctxDone: bool, encodes: bool, deadlineSet: bool)
    | Write(succeeds: bool)
    | Arrive(reply: Reply)
    | Read
    | ReadFails
    | Cancel
    | Settle
    | Close

  // ---------------------------------------------------------------- the steps

  /** decodeReply: whether a reply to `id` leaves the connection trustworthy. */
  predicate Trusted(id: nat, r: Reply) {
    r.Reply? && r.id == id && (r.ok || !r.workerDead)
  }

  predicate Enabled(s: State, a: Action) {
    match a
    case Enter(_, _, _) => s.lock.Free?
    case Write(ok) => s.lock.Held? && s.lock.trip.Writing? && (ok ==> s.open)
    case Arrive(_) => s.open
    case Read => s.lock.Held? && s.lock.trip.Reading? && s.open && s.inbox != []
    case ReadFails => s.lock.Held? && s.lock.trip.Reading?
    case Cancel => s.lock.Held? && !s.lock.detached
    case Settle => s.lock.Held? && s.lock.trip.Done?
    case Close => s.lock.Free?
  }

  function Break(s: State): State {
    s.(lock := Free, broken := true, open := false)
  }

  function Step(s: State, a: Action): State
    requires Enabled(s, a)
  {
    match a
    case Enter(ctxDone, encodes, deadlineSet) =>
      if s.broken || ctxDone then s
      else if !encodes then s.(nextID := s.nextID + 1)
      else if !deadlineSet then Break(s.(nextID := s.nextID + 1))
      else s.(lock := Held(s.nextID, Writing, false), nextID := s.nextID + 1)
    case Write(ok) =>
      if ok then s.(lock := s.lock.(trip := Reading), sent := s.sent + [s.lock.id])
      else s.(lock := s.lock.(trip := Done(IOFailed)))
    case Arrive(r) => s.(inbox := s.inbox + [r])
    case Read =>
      s.(lock := s.lock.(trip := Done(Line(s.inbox[0]))), inbox := s.inbox[1..], consumed := s.consumed + 1)
    case ReadFails => s.(lock := s.lock.(trip := Done(IOFailed)))
    case Cancel => s.(lock := s.lock.(detached := true))
    case Settle =>
      var res := s.lock.trip.res;
      if res.IOFailed? || !Trusted(s.lock.id, res.reply) then Break(s)
      else if s.lock.detached then s.(lock := Free)
      else s.(lock := Free, delivered := s.delivered + [Delivery(s.lock.id, res.reply)])
    case Close => s.(open := false)
  }

  // ---------------------------------------------------------------- the invariant

  /** How many written requests still await their line. */
  ghost predicate InSync(s: State) {
    match s.lock
    case Free => !s.broken ==> |s.sent| == s.consumed
    case Held(id, trip, _) =>
      && !s.broken && id < s.nextID
      && (match trip
          case Writing => |s.sent| == s.consumed && id !in s.sent
          case Reading => |s.sent| == s.consumed + 1 && s.sent[s.consumed] == id
          case Done(Line(_)) => |s.sent| == s.consumed > 0 && s.sent[s.consumed - 1] == id
          case Done(IOFailed) => s.consumed <= |s.sent| <= s.consumed + 1)
  }

  ghost predicate IDsInOrder(s: State) {
    && (forall i :: 0 <= i < |s.sent| ==> s.sent[i] < s.nextID)
    && (forall i, j :: 0 <= i < j < |s.sent| ==> s.sent[i] < s.sent[j])
    && (s.lock.Held? && s.lock.trip.Writing? ==> forall i :: 0 <= i < |s.sent| ==> s.sent[i] < s.lock.id)
  }

  /** A caller got the reply to its own request, once, and only to a request that was written. */
  ghost predicate DeliveredRight(s: State) {
    && (forall d :: d in s.delivered ==> d.reply.Reply? && d.reply.id == d.caller && d.caller in s.sent)
    && (forall i, j :: 0 <= i < j < |s.delivered| ==> s.delivered[i].caller < s.delivered[j].caller)
    && (s.lock.Held? ==> forall d :: d in s.delivered ==> d.caller < s.lock.id)
  }

  ghost predicate Inv(s: State) {
    && InSync(s) && IDsInOrder(s) && DeliveredRight(s)
    && (s.broken ==> s.lock.Free? && !s.open)
    && (forall d :: d in s.delivered ==> d.caller < s.nextID)
  }

  lemma StepKeepsSync(s: State, a: Action)
    requires Inv(s) && Enabled(s, a)
    ensures InSync(Step(s, a))
  {
  }

  lemma StepKeepsOrder(s: State, a: Action)
    requires Inv(s) && Enabled(s, a)
    ensures IDsInOrder(Step(s, a))
  {
    var t := Step(s, a);
    if a.Write? && a.succeeds {
      forall i, j | 0 <= i < j < |t.sent| ensures t.sent[i] < t.sent[j] {
        if j == |s.sent| { assert t.sent[j] == s.lock.id; }
      }
    }
  }

  lemma StepDeliversRight(s: State, a: Action)
    requires Inv(s) && Enabled(s, a)
    ensures DeliveredRight(Step(s, a)) && forall d :: d in Step(s, a).delivered ==> d.caller < Step(s, a).nextID
  {
    if Step(s, a).delivered != s.delivered {
      assert s.lock.id in s.sent;
    }
  }

  lemma StepKeepsInv(s: State, a: Action)
    requires Inv(s) && Enabled(s, a)
    ensures Inv(Step(s, a))
  {
    StepKeepsSync(s, a);
    StepKeepsOrder(s, a);
    StepDeliversRight(s, a);
  }

  // ---------------------------------------------------------------- runs

  ghost predicate Possible(run: seq<Action>)
    decreases |run|, 0
  {
    run == [] || (Possible(run[..|run| - 1]) && Enabled(After(run[..|run| - 1]), run[|run| - 1]))
  }

  ghost function After(run: seq<Action>): State
    requires Possible(run)
    decreases |run|, 1
  {
    if run == [] then START else Step(After(run[..|run| - 1]), run[|run| - 1])
  }

  /** Main result: after any run a free, unbroken connection has read exactly one line per request it
      wrote, and every delivered reply was a caller's own. */
  lemma {:induction false} RunInSync(run: seq<Action>)
    requires Possible(run)
    ensures Inv(After(run))
    ensures After(run).lock.Free? && !After(run).broken ==> |After(run).sent| == After(run).consumed
    ensures forall d :: d in After(run).delivered ==> d.reply.Reply? && d.reply.id == d.caller
  {
    if run != [] {
      RunInSync(run[..|run| - 1]);
      StepKeepsInv(After(run[..|run| - 1]), run[|run| - 1]);
    }
  }

  /** Main result: a broken connection stays broken, and nothing is written to it or read from it. */
  lemma {:induction false} BrokenIsFinal(run: seq<Action>, more: seq<Action>)
    requires Possible(run + more) && Possible(run) && After(run).broken
    ensures After(run + more).broken && !After(run + more).open
    ensures After(run + more).sent == After(run).sent
    ensures After(run + more).consumed == After(run).consumed && After(run + more).delivered == After(run).delivered
    decreases |more|
  {
    RunInSync(run);
    if more == [] {
      assert run + more == run;
    } else {
      assert (run + more)[..|run + more| - 1] == run + more[..|more| - 1];
      BrokenIsFinal(run, more[..|more| - 1]);
      RunInSync(run + more[..|more| - 1]);
    }
  }

  /** The two ways to lose a connection: a deadline that cannot be set, and an exchange that failed or
      brought back anything but a trusted reply to its own id. */
  predicate Faulty(s: State, a: Action) {
    || (a.Enter? && !s.broken && !a.ctxDone && a.encodes && !a.deadlineSet)
    || (a.Settle? && s.lock.Held? && s.lock.trip.Done?
      && (s.lock.trip.res.IOFailed? || !Trusted(s.lock.id, s.lock.trip.res.reply)))
  }

  lemma StepBreaks(s: State, a: Action)
    requires Inv(s) && Enabled(s, a)
    ensures Step(s, a).broken <==> s.broken || Faulty(s, a)
    ensures s.broken ==> !Faulty(s, a)
  {
  }

  /** How many steps of a run were faults. */
  ghost function Faults(run: seq<Action>): nat
    requires Possible(run)
    decreases |run|
  {
    if run == [] then 0
    else Faults(run[..|run| - 1]) + (if Faulty(After(run[..|run| - 1]), run[|run| - 1]) then 1 else 0)
  }

  /** Main result: after any run the connection is broken exactly when some step of it was a fault, and
      there is never a second one. Giving up, closing and early returns never break it. */
  lemma {:induction false} BreaksExactly(run: seq<Action>)
    requires Possible(run)
    ensures Faults(run) == if After(run).broken then 1 else 0
  {
    if run != [] {
      var before := run[..|run| - 1];
      BreaksExactly(before);
      RunInSync(before);
      StepBreaks(After(before), run[|run| - 1]);
    }
  }

  // ---------------------------------------------------------------- an orderly sidecar

  /** An environment without transport faults: the sidecar answers each request once, in order, in time
      and with its worker alive. Callers may enter and give up whenever they like. */
  ghost predicate Orderly(s: State, a: Action) {
    match a
    case Enter(_, _, deadlineSet) => deadlineSet
    case Write(ok) => ok
    case Arrive(r) => s.consumed + |s.inbox| < |s.sent| && Trusted(s.sent[s.consumed + |s.inbox|], r)
    case ReadFails => false
    case Close => false
    case _ => true
  }

  ghost predicate AllOrderly(run: seq<Action>)
    requires Possible(run)
    decreases |run|
  {
    run == [] || (AllOrderly(run[..|run| - 1]) && Orderly(After(run[..|run| - 1]), run[|run| - 1]))
  }

  ghost predicate Healthy(s: State) {
    && !s.broken && s.open
    && s.consumed + |s.inbox| <= |s.sent|
    && (forall k :: 0 <= k < |s.inbox| ==> Trusted(s.sent[s.consumed + k], s.inbox[k]))
    && (s.lock.Held? && s.lock.trip.Done? ==> s.lock.trip.res.Line? && Trusted(s.lock.id, s.lock.trip.res.reply))
  }

  lemma StepStaysHealthy(s: State, a: Action)
    requires Inv(s) && Healthy(s) && Enabled(s, a) && Orderly(s, a)
    ensures Healthy(Step(s, a))
  {
    var t := Step(s, a);
    match a
    case Read =>
      // In sync, the line read is the only one outstanding.
      assert Trusted(s.sent[s.consumed + 0], s.inbox[0]);
    case _ =>
  }

  /** Main result: with an orderly sidecar no sequence of entries and cancellations ever breaks the
      connection. */
  lemma {:induction false} CancellationNeverBreaks(run: seq<Action>)
    requires Possible(run) && AllOrderly(run)
    ensures Healthy(After(run)) && !After(run).broken
  {
    if run != [] {
      CancellationNeverBreaks(run[..|run| - 1]);
      RunInSync(run[..|run| - 1]);
      StepStaysHealthy(After(run[..|run| - 1]), run[|run| - 1]);
    }
  }

  // ---------------------------------------------------------------- who gets which reply

  /** The lines that arrived. */
  ghost function Arrivals(run: seq<Action>): seq<Reply> {
    if run == [] then []
    else
      var last := run[|run| - 1];
      Arrivals(run[..|run| - 1]) + (if last.Arrive? then [last.reply] else [])
  }

  /** Whether the last caller to enter has given up since. */
  ghost predicate GaveUp(run: seq<Action>) {
    if run == [] then false
    else
      match run[|run| - 1]
      case Cancel => true
      case Enter(_, _, _) => false
      case _ => GaveUp(run[..|run| - 1])
  }

  /** What a run's callers are owed: each settled exchange that read a trusted reply to its own id, unless
      its caller gave up, brings that caller the line it read, the last one consumed. */
  ghost function Owed(run: seq<Action>): seq<Delivery>
    requires Possible(run)
    decreases |run|
  {
    if run == [] then []
    else
      var before := run[..|run| - 1];
      var s := After(before);
      Owed(before) +
      (if run[|run| - 1].Settle? && s.lock.trip.res.Line? && 0 < s.consumed <= |Arrivals(before)|
        && !GaveUp(before) then
         match Arrivals(before)[s.consumed - 1]
         case Garbled => []
         case Reply(id, ok, workerDead) =>
           if id == s.lock.id && (ok || !workerDead)
           then [Delivery(s.lock.id, Arrivals(before)[s.consumed - 1])] else []
       else [])
  }

  /** The inbox is what arrived and was not read, in order; a trip that read a line read the last one
      consumed; and the lock remembers whether its caller gave up. */
  ghost predicate Remembers(run: seq<Action>, s: State) {
    && s.consumed <= |Arrivals(run)| && s.inbox == Arrivals(run)[s.consumed..]
    && (s.lock.Held? ==> (s.lock.detached <==> GaveUp(run)))
    && (s.lock.Held? && s.lock.trip.Done? && s.lock.trip.res.Line? ==>
          s.consumed > 0 && s.lock.trip.res.reply == Arrivals(run)[s.consumed - 1])
  }

  lemma StepRemembers(before: seq<Action>, s: State, a: Action)
    requires Enabled(s, a) && Remembers(before, s)
    ensures Remembers(before + [a], Step(s, a))
  {
    var run := before + [a];
    assert run[..|run| - 1] == before && run[|run| - 1] == a;
    var arrived := Arrivals(before);
    if a.Arrive? {
      assert Arrivals(run)[s.consumed..] == arrived[s.consumed..] + [a.reply];
    } else {
      assert Arrivals(run) == arrived;
      if a.Read? { assert arrived[s.consumed..][1..] == arrived[s.consumed + 1..]; }
    }
  }

  /** Main result: over any run the callers get exactly the replies they are owed: everyone who waits for a
      trusted reply gets it, in order, and no one who gave up does. */
  lemma {:induction false} DeliveredExactly(run: seq<Action>)
    requires Possible(run)
    ensures After(run).delivered == Owed(run)
    ensures Remembers(run, After(run))
  {
    if run != [] {
      var before := run[..|run| - 1];
      DeliveredExactly(before);
      StepRemembers(before, After(before), run[|run| - 1]);
      assert before + [run[|run| - 1]] == run;
    }
  }

  /** Main result: with an orderly sidecar whoever has not given up when the exchange settles gets a
      reply to the request, and whoever has gets nothing. */
  lemma SettledIsDelivered(run: seq<Action>)
    requires Possible(run) && AllOrderly(run) && run != [] && run[|run| - 1].Settle?
    ensures var before := run[..|run| - 1];
            var id := After(before).lock.id;
            && |After(run).delivered| == |After(before).delivered| + (if GaveUp(before) then 0 else 1)
            && (!GaveUp(before) ==>
                  var d := After(run).delivered[|After(before).delivered|];
                  d.caller == id && d.reply.Reply? && d.reply.id == id && (d.reply.ok || !d.reply.workerDead))
  {
    var before := run[..|run| - 1];
    CancellationNeverBreaks(before);
    DeliveredExactly(before);
    DeliveredExactly(run);
  }

  // ---------------------------------------------------------------- reply items

  datatype ObjProp = ObjProp(object_: string, property: string)

  /** validateReplyMatchesRequest: neither short, long, reordered nor substituted. */
  method ValidateReplyMatchesRequest(want: seq<ObjProp>, got: seq<ObjProp>) returns (ok: bool)
    ensures ok <==> want == got
  {
    if |got| != |want| { return false; }
    for i := 0 to |want|
      invariant forall k :: 0 <= k < i ==> got[k] == want[k]
    {
      if got[i] != want[i] { return false; }
    }
    return true;
  }
}
