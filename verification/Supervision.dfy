/** Starting, restarting and stopping one fleet's sidecar (internal/sim/gridlabd/supervisor.go).

    The environment is a script with one entry per turn of a loop. Run is cut off where the
    script ends, so what it ensures holds however long it has been running. */
module Supervision {
  import opened Common

  /** A launched process. Its Wait channel delivers once; a second receive would hang forever. */
  class Process {
    var received: bool

    constructor ()
      ensures !received
    {
      received := false;
    }

    method Wait()
      requires !received
      modifies this
      ensures received
    {
      received := true;
    }
  }

  datatype SupervisorState = Starting | Up | Restarting | Down | Stopped

  /** One look for the socket: whether a dial succeeds, whether the sidecar is who answered it, and
      what ends the pause that follows a failed look. */
  datatype Look = Look(dials: bool, peerIsSidecar: bool, pause: Pause)

  datatype Pause = Deadline | Exited | Ticked

  datatype Awaited = Connected | WrongPeer | TimedOut | ExitedDuringStart

  /** What waiting for the socket comes to; the deadline passes if nothing else ends it. */
  function Await(looks: seq<Look>): Awaited {
    if looks == [] then TimedOut
    else if looks[0].dials then (if looks[0].peerIsSidecar then Connected else WrongPeer)
    else
      match looks[0].pause
      case Deadline => TimedOut
      case Exited => ExitedDuringStart
      case Ticked => Await(looks[1..])
  }

  /** Main result: a dial is used exactly when a look reaches the sidecar itself and nothing ended the wait
      before; the exit is seen exactly when it ends a pause before any dial or deadline. */
  lemma {:induction false} AwaitExactly(looks: seq<Look>)
    ensures Await(looks).Connected? <==>
              exists i :: 0 <= i < |looks| && StillLooking(looks, i) && looks[i].dials && looks[i].peerIsSidecar
    ensures Await(looks).ExitedDuringStart? <==>
              exists i :: 0 <= i < |looks| && StillLooking(looks, i) && !looks[i].dials && looks[i].pause == Exited
    ensures Await(looks).WrongPeer? <==>
              exists i :: 0 <= i < |looks| && StillLooking(looks, i) && looks[i].dials && !looks[i].peerIsSidecar
  {
    if looks != [] && !looks[0].dials && looks[0].pause == Ticked {
      AwaitExactly(looks[1..]);
      forall i | 0 <= i < |looks| - 1 ensures StillLooking(looks, i + 1) == StillLooking(looks[1..], i) {
        assert forall j :: 0 <= j < i ==> looks[1..][j] == looks[j + 1];
        assert forall j :: 0 < j < i + 1 ==> looks[j] == looks[1..][j - 1];
      }
      forall i | 0 <= i < |looks| - 1 && StillLooking(looks[1..], i)
        ensures StillLooking(looks, i + 1) && looks[i + 1] == looks[1..][i]
      {
      }
      forall i | 0 <= i < |looks| && StillLooking(looks, i) && (looks[i].dials || looks[i].pause == Exited)
        ensures i > 0 && StillLooking(looks[1..], i - 1) && looks[1..][i - 1] == looks[i]
      {
        assert StillLooking(looks, (i - 1) + 1) == StillLooking(looks[1..], i - 1);
      }
    } else if looks != [] {
      assert StillLooking(looks, 0);
    }
  }

  /** Nothing before the i-th look ended the wait. */
  ghost predicate StillLooking(looks: seq<Look>, i: nat)
    requires i <= |looks|
  {
    forall j :: 0 <= j < i ==> !looks[j].dials && looks[j].pause == Ticked
  }

  /** The answer to hello. */
  datatype Hello = NoAnswer | WrongProtocol | WrongFleet | Welcome

  /** How one startOnce goes. */
  datatype Start = Start(launches: bool, looks: seq<Look>, hello: Hello)

  predicate Starts(s: Start) {
    s.launches && Await(s.looks).Connected? && s.hello.Welcome?
  }

  /** What wakes Run while the sidecar is up. */
  datatype Wakeup = ContextDone | StopCalled | ProcessExits | ConnectionBroken

  datatype Signal = NoSignal | ContextSignal | StopSignal

  /** One turn of the restart loop: a signal pending at its head, two clock readings, the signal that
      may end the wait, and the start that follows it. */
  datatype Attempt = Attempt(pending: Signal, pruneAt: int, attemptAt: int, interrupt: Signal, start: Start)

  /** The two grace periods of a shutdown. */
  datatype Graces = Graces(exitsOnRequest: bool, exitsOnTerm: bool)

  datatype Exit = StillRunning | Cancelled | StoppedCleanly | Refused | BudgetExhausted

  function SignalExit(s: Signal): Exit
    requires s != NoSignal
  {
    if s == ContextSignal then Cancelled else StoppedCleanly
  }

  /** The state an exit is reported in; a cut-off restart loop is still restarting. */
  function StateAfter(exit: Exit): SupervisorState {
    match exit
    case StillRunning => Restarting
    case Cancelled => Stopped
    case StoppedCleanly => Stopped
    case Refused => Down
    case BudgetExhausted => Down
  }

  datatype FirstStart = Succeeded | FirstRefused | FirstCancelled

  // ---------------------------------------------------------------- the restart budget

  function KeptAfter(times: seq<int>, cutoff: int): seq<int> {
    if times == [] then []
    else
      var n := |times| - 1;
      KeptAfter(times[..n], cutoff) + (if times[n] > cutoff then [times[n]] else [])
  }

  /** pruneRestarts, on the first n slots of the slice's own memory. */
  method PruneRestarts(a: array<int>, n: nat, cutoff: int) returns (m: nat)
    requires n <= a.Length
    modifies a
    ensures m <= n && a[..m] == KeptAfter(old(a[..n]), cutoff)
  {
    m := 0;
    for i := 0 to n
      invariant m <= i && a[..m] == KeptAfter(old(a[..i]), cutoff)
      invariant forall k :: i <= k < a.Length ==> a[k] == old(a[k])
    {
      assert old(a[..i + 1])[..i] == old(a[..i]);
      if a[i] > cutoff {
        ghost var before := a[..m];
        a[m] := a[i];
        m := m + 1;
        assert a[..m] == before + [old(a[i])];
      }
    }
  }

  ghost predicate Ascending(times: seq<int>) {
    forall i, j :: 0 <= i < j < |times| ==> times[i] <= times[j]
  }

  /** Of ascending times a cutoff keeps a suffix. */
  lemma {:induction false} KeptIsSuffix(times: seq<int>, cutoff: int)
    requires Ascending(times)
    ensures var k := |times| - |KeptAfter(times, cutoff)|;
            0 <= k && KeptAfter(times, cutoff) == times[k..] && (forall i :: 0 <= i < k ==> times[i] <= cutoff)
  {
    if times != [] {
      var n := |times| - 1;
      KeptIsSuffix(times[..n], cutoff);
      var k := n - |KeptAfter(times[..n], cutoff)|;
      if times[n] > cutoff {
        assert times[k..] == times[..n][k..] + [times[n]];
      } else {
        NoneKept(times[..n], cutoff);
      }
    }
  }

  lemma {:induction false} NoneKept(times: seq<int>, cutoff: int)
    requires forall i :: 0 <= i < |times| ==> times[i] <= cutoff
    ensures KeptAfter(times, cutoff) == []
  {
    if times != [] { NoneKept(times[..|times| - 1], cutoff); }
  }

  /** The remembered times are the latest attempts, and every forgotten one is a window or more old. */
  ghost predicate Remembered(attempts: seq<int>, kept: seq<int>, window: int, now: int) {
    && Ascending(attempts)
    && |kept| <= |attempts| && kept == attempts[|attempts| - |kept|..]
    && (forall i :: 0 <= i < |attempts| ==> attempts[i] <= now)
    && (forall i :: 0 <= i < |attempts| - |kept| ==> attempts[i] <= now - window)
  }

  /** No attempt comes within a window of the one `limit` before it. */
  ghost predicate Spaced(attempts: seq<int>, window: int, limit: nat) {
    forall i :: 0 <= i && i + limit < |attempts| ==> attempts[i + limit] - attempts[i] >= window
  }

  lemma PruneRemembers(attempts: seq<int>, kept: seq<int>, window: int, before: int, now: int)
    requires Remembered(attempts, kept, window, before) && before <= now
    ensures Remembered(attempts, KeptAfter(kept, now - window), window, now)
  {
    PruneKeepsSuffix(attempts, |attempts| - |kept|, now - window);
  }

  lemma PruneKeepsSuffix(times: seq<int>, skipped: nat, cutoff: int)
    requires Ascending(times) && skipped <= |times|
    requires forall i :: 0 <= i < skipped ==> times[i] <= cutoff
    ensures var left := KeptAfter(times[skipped..], cutoff);
            && |left| <= |times| - skipped && left == times[|times| - |left|..]
            && forall i :: 0 <= i < |times| - |left| ==> times[i] <= cutoff
  {
    SuffixAscends(times, skipped);
    KeptIsSuffix(times[skipped..], cutoff);
    var left := KeptAfter(times[skipped..], cutoff);
    DropMore(times, skipped, |times| - skipped - |left|, cutoff);
  }

  lemma SuffixAscends(times: seq<int>, k: nat)
    requires Ascending(times) && k <= |times|
    ensures Ascending(times[k..])
  {
  }

  lemma DropMore(times: seq<int>, skipped: nat, k: nat, cutoff: int)
    requires skipped + k <= |times|
    requires forall i :: 0 <= i < skipped ==> times[i] <= cutoff
    requires forall i :: 0 <= i < k ==> times[skipped..][i] <= cutoff
    ensures times[skipped..][k..] == times[skipped + k..]
    ensures forall i :: 0 <= i < skipped + k ==> times[i] <= cutoff
  {
    forall i | skipped <= i < skipped + k ensures times[i] <= cutoff {
      assert times[skipped..][i - skipped] == times[i];
    }
  }

  lemma AttemptKeepsSpacing(attempts: seq<int>, kept: seq<int>, window: int, limit: nat, pruned: int, at: int)
    requires Remembered(attempts, kept, window, pruned) && Spaced(attempts, window, limit)
    requires |kept| < limit && pruned <= at && window >= 0
    ensures Remembered(attempts + [at], kept + [at], window, at)
    ensures Spaced(attempts + [at], window, limit)
  {
    assert attempts[|attempts| - |kept|..] + [at] == (attempts + [at])[|attempts| - |kept|..];
  }

  /** How many attempts were made before a point in time. */
  function Before(attempts: seq<int>, time: int): nat {
    if attempts == [] then 0
    else Before(attempts[..|attempts| - 1], time) + (if attempts[|attempts| - 1] < time then 1 else 0)
  }

  lemma {:induction false} BeforeIsIndex(attempts: seq<int>, time: int)
    requires Ascending(attempts)
    ensures Before(attempts, time) <= |attempts|
    ensures forall i :: 0 <= i < |attempts| ==> (i < Before(attempts, time) <==> attempts[i] < time)
  {
    if attempts != [] {
      var n := |attempts| - 1;
      BeforeIsIndex(attempts[..n], time);
      if n > 0 { assert attempts[..n][n - 1] == attempts[n - 1]; }
    }
  }

  /** Main result: the budget is a true sliding window. No stretch of time as long as the window,
      wherever it starts, holds more than the allowed number of attempts. */
  lemma SlidingWindow(attempts: seq<int>, window: int, limit: nat, from: int)
    requires Ascending(attempts) && Spaced(attempts, window, limit) && window >= 0
    ensures 0 <= Before(attempts, from + window) - Before(attempts, from) <= limit
  {
    var l, u := Before(attempts, from), Before(attempts, from + window);
    BeforeIsIndex(attempts, from);
    BeforeIsIndex(attempts, from + window);
    if u < |attempts| { assert attempts[u] >= from + window; }
    if l + limit < |attempts| { assert attempts[l + limit] - attempts[l] >= window && attempts[l] >= from; }
  }

  /** The budget is spent: as many attempts as it allows lie within the last window. */
  predicate Spent(attempts: seq<int>, window: int, limit: nat, now: int)
    requires limit > 0
  {
    |attempts| >= limit && attempts[|attempts| - limit] > now - window
  }

  /** Giving up is justified and prompt: the pruned list is full exactly when, of all attempts ever
      made, the budget's worth of latest ones lie within the last window. */
  lemma FullExactlyWhenSpent(attempts: seq<int>, kept: seq<int>, window: int, limit: nat, before: int, now: int)
    requires Remembered(attempts, kept, window, before) && before <= now && limit > 0
    ensures Remembered(attempts, KeptAfter(kept, now - window), window, now)
    ensures |KeptAfter(kept, now - window)| >= limit <==> Spent(attempts, window, limit, now)
  {
    PruneRemembers(attempts, kept, window, before, now);
    KeptAreRecent(kept, now - window);
    var left := KeptAfter(kept, now - window);
    if |left| >= limit {
      assert left[|left| - limit] == attempts[|attempts| - limit];
    }
  }

  lemma {:induction false} KeptAreRecent(times: seq<int>, cutoff: int)
    ensures forall i :: 0 <= i < |KeptAfter(times, cutoff)| ==> KeptAfter(times, cutoff)[i] > cutoff
  {
    if times != [] { KeptAreRecent(times[..|times| - 1], cutoff); }
  }

  // ---------------------------------------------------------------- how a run goes

  /** The clock never runs backwards. */
  ghost predicate Monotonic(script: seq<Attempt>) {
    && (forall k :: 0 <= k < |script| ==> script[k].pruneAt <= script[k].attemptAt)
    && (forall k :: 0 < k < |script| ==> script[k - 1].attemptAt <= script[k].pruneAt)
  }

  /** `now` is no later than the clock readings from the i-th attempt on. */
  ghost predicate NotAfter(now: int, script: seq<Attempt>, i: nat) {
    i < |script| ==> now <= script[i].pruneAt
  }

  /** How a turn of the restart loop ends it: a pending signal wins over the budget, and the budget
      over another attempt, whose wait a signal may end. */
  function TurnExit(t: Attempt, attempts: seq<int>, window: int, limit: nat): Option<Exit>
    requires limit > 0
  {
    if t.pending != NoSignal then Some(SignalExit(t.pending))
    else if Spent(attempts, window, limit, t.pruneAt) then Some(BudgetExhausted)
    else if t.interrupt != NoSignal then Some(SignalExit(t.interrupt))
    else None
  }

  predicate Attempts(t: Attempt, attempts: seq<int>, window: int, limit: nat)
    requires limit > 0
  {
    t.pending == NoSignal && !Spent(attempts, window, limit, t.pruneAt)
  }

  /** All attempts ever made, after a turn. */
  function Noted(t: Attempt, attempts: seq<int>, window: int, limit: nat): seq<int>
    requires limit > 0
  {
    if Attempts(t, attempts, window, limit) then attempts + [t.attemptAt] else attempts
  }

  /** Where a restart loop, or a run, ends: by which exit, after which turn, with which attempts made. */
  datatype End = End(exit: Option<Exit>, turn: nat, attempts: seq<int>)

  function RestartEnd(script: seq<Attempt>, i: nat, attempts: seq<int>, window: int, limit: nat): End
    requires limit > 0 && i <= |script|
    ensures i <= RestartEnd(script, i, attempts, window, limit).turn <= |script|
    decreases |script| - i
  {
    if i == |script| then End(Some(StillRunning), i, attempts)
    else
      var t, noted := script[i], Noted(script[i], attempts, window, limit);
      var exit := TurnExit(t, attempts, window, limit);
      if exit.Some? || Starts(t.start) then End(exit, i + 1, noted)
      else RestartEnd(script, i + 1, noted, window, limit)
  }

  function WakeExit(w: Wakeup): Option<Exit> {
    match w
    case ContextDone => Some(Cancelled)
    case StopCalled => Some(StoppedCleanly)
    case ProcessExits => None
    case ConnectionBroken => None
  }

  /** From one spell of being up to the next, or to the end. */
  function SpellEnd(w: Wakeup, script: seq<Attempt>, i: nat, attempts: seq<int>, window: int, limit: nat): End
    requires limit > 0 && i <= |script|
    ensures SpellEnd(w, script, i, attempts, window, limit).turn <= |script|
  {
    if WakeExit(w).Some? then End(WakeExit(w), i, attempts) else RestartEnd(script, i, attempts, window, limit)
  }

  /** How a run ends, with which attempts made, and after how many starts. */
  datatype RunResult = RunResult(exit: Exit, attempts: seq<int>, gen: nat)

  /** A run from its k-th spell of being up: the whole history of attempts, never pruned, decides. */
  function RunEnd(wakeups: seq<Wakeup>, k: nat, script: seq<Attempt>, i: nat, attempts: seq<int>, window: int,
                  limit: nat): RunResult
    requires limit > 0 && k <= |wakeups| && i <= |script|
    decreases |wakeups| - k
  {
    if k == |wakeups| then RunResult(StillRunning, attempts, k + 1)
    else
      var spell := SpellEnd(wakeups[k], script, i, attempts, window, limit);
      if spell.exit.Some? then RunResult(spell.exit.value, spell.attempts, k + 1)
      else RunEnd(wakeups, k + 1, script, spell.turn, spell.attempts, window, limit)
  }

  // ---------------------------------------------------------------- the chronicle of a run

  /** What happened in a run once the first start had succeeded: the sidecar was lost or the run was asked
      to end, or the restart loop took a turn. */
  datatype Moment = Woken(w: Wakeup) | Tried(t: Attempt)

  ghost function WakeupsOf(log: seq<Moment>): seq<Wakeup> {
    if log == [] then []
    else
      var last := log[|log| - 1];
      WakeupsOf(log[..|log| - 1]) + (if last.Woken? then [last.w] else [])
  }

  ghost function TriesOf(log: seq<Moment>): seq<Attempt> {
    if log == [] then []
    else
      var last := log[|log| - 1];
      TriesOf(log[..|log| - 1]) + (if last.Tried? then [last.t] else [])
  }

  /** An attempt is made when no signal is pending and fewer than `limit` were made in the last window. */
  ghost predicate Makes(m: Moment, made: seq<int>, window: int, limit: nat)
    requires limit > 0
  {
    && m.Tried? && m.t.pending == NoSignal
    && (|made| < limit || made[|made| - limit] <= m.t.pruneAt - window)
  }

  /** When attempts were made. */
  ghost function AttemptsOf(log: seq<Moment>, window: int, limit: nat): seq<int>
    requires limit > 0
  {
    if log == [] then []
    else
      var before := AttemptsOf(log[..|log| - 1], window, limit);
      if Makes(log[|log| - 1], before, window, limit) then before + [log[|log| - 1].t.attemptAt] else before
  }

  /** A turn that brings the sidecar up again: the attempt is made, not interrupted, and it starts. */
  ghost predicate Revives(m: Moment, made: seq<int>, window: int, limit: nat)
    requires limit > 0
  {
    Makes(m, made, window, limit) && m.t.interrupt == NoSignal && Starts(m.t.start)
  }

  ghost function RevivalsOf(log: seq<Moment>, window: int, limit: nat): nat
    requires limit > 0
  {
    if log == [] then 0
    else
      var before := log[..|log| - 1];
      RevivalsOf(before, window, limit)
      + (if Revives(log[|log| - 1], AttemptsOf(before, window, limit), window, limit) then 1 else 0)
  }

  /** `next` may follow the last moment of `log`: a loss is followed by a turn, a turn that starts the
      sidecar by the next loss or request, one that fails to by another turn, and nothing else goes on. */
  ghost predicate GoesOn(log: seq<Moment>, next: Moment, window: int, limit: nat)
    requires limit > 0
  {
    if log == [] then next.Woken?
    else
      var before := AttemptsOf(log[..|log| - 1], window, limit);
      match log[|log| - 1]
      case Woken(w) => w in {ProcessExits, ConnectionBroken} && next.Tried?
      case Tried(t) =>
        && Makes(Tried(t), before, window, limit) && t.interrupt == NoSignal
        && (if Starts(t.start) then next.Woken? else next.Tried?)
  }

  ghost predicate Lawful(log: seq<Moment>, window: int, limit: nat)
    requires limit > 0
  {
    log == [] ||
    (Lawful(log[..|log| - 1], window, limit) && GoesOn(log[..|log| - 1], log[|log| - 1], window, limit))
  }

  /** How a run that went as `log` says has ended. It is still running only where its script ends. */
  ghost predicate EndsAs(log: seq<Moment>, wakeups: seq<Wakeup>, script: seq<Attempt>, window: int, limit: nat,
                         exit: Exit)
    requires limit > 0
  {
    if log == [] then exit == StillRunning && wakeups == []
    else
      var made := AttemptsOf(log[..|log| - 1], window, limit);
      match log[|log| - 1]
      case Woken(ContextDone) => exit == Cancelled
      case Woken(StopCalled) => exit == StoppedCleanly
      case Woken(ProcessExits) => exit == StillRunning && TriesOf(log) == script
      case Woken(ConnectionBroken) => exit == StillRunning && TriesOf(log) == script
      case Tried(t) =>
        if t.pending == ContextSignal then exit == Cancelled
        else if t.pending == StopSignal then exit == StoppedCleanly
        else if !Makes(Tried(t), made, window, limit) then exit == BudgetExhausted
        else if t.interrupt == ContextSignal then exit == Cancelled
        else if t.interrupt == StopSignal then exit == StoppedCleanly
        else exit == StillRunning && (if Starts(t.start) then WakeupsOf(log) == wakeups else TriesOf(log) == script)
  }

  /** `log` tells the whole run: what happened is what the script had in store, in order and by the rules,
      and it accounts for the exit, the attempts and the generation. */
  ghost predicate Tells(log: seq<Moment>, wakeups: seq<Wakeup>, script: seq<Attempt>, window: int, limit: nat,
                        result: RunResult)
    requires limit > 0
  {
    && WakeupsOf(log) <= wakeups && TriesOf(log) <= script && Lawful(log, window, limit)
    && EndsAs(log, wakeups, script, window, limit, result.exit)
    && result.attempts == AttemptsOf(log, window, limit)
    && result.gen == 1 + RevivalsOf(log, window, limit)
  }

  lemma OneMoment(log: seq<Moment>, m: Moment, window: int, limit: nat)
    requires limit > 0
    ensures WakeupsOf(log + [m]) == WakeupsOf(log) + (if m.Woken? then [m.w] else [])
    ensures TriesOf(log + [m]) == TriesOf(log) + (if m.Tried? then [m.t] else [])
    ensures var made := AttemptsOf(log, window, limit);
            && AttemptsOf(log + [m], window, limit) == (if Makes(m, made, window, limit) then made + [m.t.attemptAt]
              else made)
            && RevivalsOf(log + [m], window, limit)
               == RevivalsOf(log, window, limit) + (if Revives(m, made, window, limit) then 1 else 0)
    ensures Lawful(log + [m], window, limit) <==> Lawful(log, window, limit) && GoesOn(log, m, window, limit)
  {
    assert (log + [m])[..|log + [m]| - 1] == log;
  }

  /** Where a run stands after `log`: k spells of being up are over, i turns are taken. */
  ghost predicate Stands(log: seq<Moment>, wakeups: seq<Wakeup>, k: nat, script: seq<Attempt>, i: nat,
                         attempts: seq<int>, window: int, limit: nat)
    requires limit > 0
  {
    && k <= |wakeups| && i <= |script|
    && WakeupsOf(log) == wakeups[..k] && TriesOf(log) == script[..i]
    && Lawful(log, window, limit) && AttemptsOf(log, window, limit) == attempts
  }

  ghost predicate StandsUp(log: seq<Moment>, window: int, limit: nat)
    requires limit > 0
  {
    log == [] ||
    Revives(log[|log| - 1], AttemptsOf(log[..|log| - 1], window, limit), window, limit)
  }

  ghost predicate StandsDown(log: seq<Moment>, window: int, limit: nat)
    requires limit > 0
  {
    && log != []
    && var m := log[|log| - 1];
       if m.Woken? then m.w in {ProcessExits, ConnectionBroken}
       else Makes(m, AttemptsOf(log[..|log| - 1], window, limit), window, limit)
            && m.t.interrupt == NoSignal && !Starts(m.t.start)
  }

  lemma TurnStands(log: seq<Moment>, wakeups: seq<Wakeup>, k: nat, script: seq<Attempt>, i: nat, attempts: seq<int>,
                   window: int, limit: nat)
    requires limit > 0 && k < |wakeups| && i < |script|
        && Stands(log, wakeups, k + 1, script, i, attempts, window, limit)
    requires StandsDown(log, window, limit) && RevivalsOf(log, window, limit) == k
    ensures var t, next := script[i], log + [Tried(script[i])];
            var exit := TurnExit(t, attempts, window, limit);
            && Stands(next, wakeups, k + 1, script, i + 1, Noted(t, attempts, window, limit), window, limit)
            && (exit.Some? ==>
                  EndsAs(next, wakeups, script, window, limit, exit.value) && RevivalsOf(next, window, limit) == k)
            && (exit.None? ==>
                  if Starts(t.start) then StandsUp(next, window, limit) && RevivalsOf(next, window, limit) == k + 1
                  else StandsDown(next, window, limit) && RevivalsOf(next, window, limit) == k)
  {
    OneMoment(log, Tried(script[i]), window, limit);
    assert script[..i + 1] == script[..i] + [script[i]];
    assert (log + [Tried(script[i])])[..|log + [Tried(script[i])]| - 1] == log;
  }

  lemma {:induction false} TellFromUp(log: seq<Moment>, wakeups: seq<Wakeup>, k: nat, script: seq<Attempt>, i: nat,
                                      attempts: seq<int>, window: int, limit: nat) returns (whole: seq<Moment>)
    requires limit > 0 && Stands(log, wakeups, k, script, i, attempts, window, limit)
    requires StandsUp(log, window, limit) && RevivalsOf(log, window, limit) == k
    ensures Tells(whole, wakeups, script, window, limit, RunEnd(wakeups, k, script, i, attempts, window, limit))
    decreases |wakeups| - k, |script| - i + 1
  {
    if k == |wakeups| {
      whole := log;
    } else {
      var m := Woken(wakeups[k]);
      OneMoment(log, m, window, limit);
      assert wakeups[..k + 1] == wakeups[..k] + [wakeups[k]];
      assert (log + [m])[..|log + [m]| - 1] == log;
      if wakeups[k] in {ContextDone, StopCalled} {
        whole := log + [m];
      } else {
        assert wakeups[k].ProcessExits? || wakeups[k].ConnectionBroken?;
        whole := TellFromDown(log + [m], wakeups, k, script, i, attempts, window, limit);
      }
    }
  }

  lemma {:induction false} TellFromDown(log: seq<Moment>, wakeups: seq<Wakeup>, k: nat, script: seq<Attempt>, i: nat,
                                        attempts: seq<int>, window: int, limit: nat) returns (whole: seq<Moment>)
    requires limit > 0 && k < |wakeups| && Stands(log, wakeups, k + 1, script, i, attempts, window, limit)
    requires StandsDown(log, window, limit) && RevivalsOf(log, window, limit) == k
    ensures var end := RestartEnd(script, i, attempts, window, limit);
            Tells(whole, wakeups, script, window, limit,
                  if end.exit.Some? then RunResult(end.exit.value, end.attempts, k + 1)
                  else RunEnd(wakeups, k + 1, script, end.turn, end.attempts, window, limit))
    decreases |wakeups| - k, |script| - i
  {
    if i == |script| {
      whole := log;
    } else {
      var t := script[i];
      TurnStands(log, wakeups, k, script, i, attempts, window, limit);
      var noted := Noted(t, attempts, window, limit);
      if TurnExit(t, attempts, window, limit).Some? {
        whole := log + [Tried(t)];
      } else if Starts(t.start) {
        whole := TellFromUp(log + [Tried(t)], wakeups, k + 1, script, i + 1, noted, window, limit);
      } else {
        whole := TellFromDown(log + [Tried(t)], wakeups, k, script, i + 1, noted, window, limit);
      }
    }
  }

  /** Main result: every run has a chronicle, so its exit is what the last moment calls for: Cancelled by the
      context, StoppedCleanly by a Stop, BudgetExhausted by a full window, and a lost sidecar is always
      followed by a turn of the restart loop. */
  lemma RunIsTold(wakeups: seq<Wakeup>, script: seq<Attempt>, window: int, limit: nat) returns (log: seq<Moment>)
    requires limit > 0
    ensures Tells(log, wakeups, script, window, limit, RunEnd(wakeups, 0, script, 0, [], window, limit))
  {
    log := TellFromUp([], wakeups, 0, script, 0, [], window, limit);
  }

  // ---------------------------------------------------------------- the backoff

  function Pow2(n: nat): (p: nat)
    ensures p >= 1
  {
    if n == 0 then 1 else 2 * Pow2(n - 1)
  }

  /** backoffDelay doubles from min and stops at max. That is min(max, min * 2^attempt) exactly unless
      a first attempt meets a minimum above the maximum. */
  method BackoffDelay(attempt: nat, min: int, max: int) returns (d: int)
    requires min > 0
    ensures d == Min(max, min * Pow2(attempt)) <==> min <= max || attempt > 0
  {
    d := min;
    for i := 0 to attempt
      invariant d == min * Pow2(i)
      invariant i > 0 ==> d < max
    {
      d := d * 2;
      Twice(min, Pow2(i));
      if d >= max {
        DoublingGrows(min, i + 1, attempt);
        return max;
      }
    }
  }

  lemma Twice(a: int, b: int)
    requires a > 0 && b > 0
    ensures a * (2 * b) == 2 * (a * b) && a * b > 0
  {
  }

  lemma {:induction false} DoublingGrows(min: int, i: nat, n: nat)
    requires min > 0 && i <= n
    ensures min * Pow2(i) <= min * Pow2(n)
    decreases n
  {
    if i < n {
      DoublingGrows(min, i, n - 1);
      Twice(min, Pow2(n - 1));
    }
  }

  // ---------------------------------------------------------------- the supervisor

  class Supervisor {
    const backoffMin: int
    const backoffMax: int
    const maxRestarts: nat
    const window: int
    var state: SupervisorState
    var healthy: bool
    var gen: nat
    var proc: Process?
    var started: bool
    var stopped: bool
    var firstStart: Option<FirstStart>
    ghost var launched: set<Process>   // every process ever launched
    ghost var unreaped: set<Process>   // those whose exit has not been received
    ghost var starts: nat              // successful starts
    ghost var attempts: seq<int>       // when each restart was attempted

    /** After withDefaults every setting is positive. */
    constructor (backoffMin: int, backoffMax: int, maxRestarts: nat, window: int)
      requires backoffMin > 0 && backoffMax > 0 && maxRestarts > 0 && window > 0
      ensures Books() && !started && !stopped && firstStart == None && state == Starting && gen == 0
      ensures launched == {} && attempts == []
      ensures this.backoffMin == backoffMin && this.maxRestarts == maxRestarts && this.window == window
    {
      this.backoffMin, this.backoffMax, this.maxRestarts, this.window := backoffMin, backoffMax, maxRestarts, window;
      state, healthy, gen, proc, started, stopped, firstStart := Starting, false, 0, null, false, false, None;
      launched, unreaped, starts, attempts := {}, {}, 0, [];
    }

    /** The books: an exit was received exactly for the reaped processes; healthy means Up with the one
        live process; the generation counts the successful starts. */
    ghost predicate Books()
      reads this, launched
    {
      && backoffMin > 0 && maxRestarts > 0 && window > 0
      && unreaped <= launched
      && (forall p :: p in launched ==> (p.received <==> p !in unreaped))
      && (healthy <==> state == Up)
      && (healthy ==> proc != null && unreaped == {proc})
      && (!healthy ==> proc == null)
      && gen == starts
    }

    ghost predicate Idle()
      reads this, launched
    {
      Books() && !healthy && unreaped == {}
    }

    method MarkStarted(outcome: FirstStart)
      modifies this`firstStart
      ensures firstStart == if old(firstStart).None? then Some(outcome) else old(firstStart)
    {
      if firstStart.None? { firstStart := Some(outcome); }
    }

    method SetUp(p: Process)
      requires Books() && !healthy && unreaped == {p}
      modifies this`proc, this`healthy, this`gen, this`state, this`starts
      ensures Books() && healthy && proc == p && gen == old(gen) + 1
    {
      proc, healthy, gen, state := p, true, gen + 1, Up;
      starts := starts + 1;
    }

    /** setRestarting, setDown and setStopped differ in the state they enter. */
    method SetNotUp(next: SupervisorState)
      requires next != Up
      modifies this`proc, this`healthy, this`state
      ensures state == next && !healthy && proc == null
    {
      proc, healthy, state := null, false, next;
    }

    /** The same with no sidecar left to lose. */
    method EndIdle(next: SupervisorState)
      requires Idle() && next != Up
      modifies this`proc, this`healthy, this`state
      ensures Idle() && state == next
    {
      SetNotUp(next);
    }

    /** Receives a process's exit: in killAndReap, in a select, or while waiting for the socket. */
    method Reap(p: Process)
      requires p in unreaped && unreaped <= launched && forall q :: q in launched ==> (q.received <==> q !in unreaped)
      modifies this`unreaped, p
      ensures unreaped == old(unreaped) - {p}
      ensures forall q :: q in launched ==> (q.received <==> q !in unreaped)
    {
      p.Wait();
      unreaped := unreaped - {p};
    }

    /** launch: only ever with no other sidecar alive. */
    method Launch() returns (p: Process)
      requires Idle()
      modifies this`launched, this`unreaped
      ensures fresh(p) && launched == old(launched) + {p} && unreaped == {p} && Books()
    {
      p := new Process();
      launched := launched + {p};
      unreaped := {p};
    }

    /** waitForSocket polls until it can dial, the deadline passes, or the process is seen to exit: then
        it has itself taken the one delivery of the process's channel. */
    method WaitForSocket(p: Process, looks: seq<Look>) returns (w: Awaited)
      requires Books() && !healthy && unreaped == {p}
      modifies this`unreaped, p
      ensures Books() && w == Await(looks)
      ensures unreaped == if w.ExitedDuringStart? then {} else {p}
    {
      for i := 0 to |looks|
        invariant Books() && unreaped == {p}
        invariant Await(looks) == Await(looks[i..])
      {
        assert looks[i..][1..] == looks[i + 1..];
        if looks[i].dials {
          return if looks[i].peerIsSidecar then Connected else WrongPeer;
        }
        if looks[i].pause == Deadline { return TimedOut; }
        if looks[i].pause == Exited {
          Reap(p);
          return ExitedDuringStart;
        }
      }
      w := TimedOut;
    }

    /** killAndReap would hang on a process whose exit was already received. */
    method KillAndReap(p: Process)
      requires Books() && !healthy && unreaped == {p}
      modifies this`unreaped, p
      ensures Idle()
    {
      Reap(p);
    }

    /** startOnce: on any failure nothing is left running, and no exit is waited for twice. */
    method StartOnce(s: Start) returns (p: Process?)
      requires Idle()
      modifies this`launched, this`unreaped
      ensures Books() && !healthy
      ensures p != null <==> Starts(s)
      ensures p != null ==> fresh(p) && unreaped == {p}
      ensures p == null ==> unreaped == {}
      ensures old(launched) <= launched && fresh(launched - old(launched))
          && (s.launches <==> launched != old(launched))
    {
      if !s.launches { return null; }
      var q := Launch();
      var w := WaitForSocket(q, s.looks);
      if w != Connected {
        if w != ExitedDuringStart { KillAndReap(q); }
        return null;
      }
      if s.hello != Welcome {
        KillAndReap(q);   // abortStart
        return null;
      }
      p := q;
    }

    /** shutdown: request, SIGTERM, SIGKILL, until the exit is received. */
    method Shutdown(p: Process, graces: Graces)
      requires Books() && healthy && p == proc
      modifies this`proc, this`healthy, this`state, this`unreaped, p
      ensures Idle() && state == Stopped
    {
      SetNotUp(Stopped);
      if graces.exitsOnRequest {
        Reap(p);
        return;
      }
      if graces.exitsOnTerm {
        Reap(p);
        return;
      }
      Reap(p);
    }

    /** What the budget has seen: the slots in use are the remembered attempts. */
    ghost predicate Budget(a: array<int>, n: nat, now: int)
      reads this`attempts, a
    {
      && a.Length == maxRestarts && n <= a.Length
      && Remembered(attempts, a[..n], window, now)
      && Spaced(attempts, window, maxRestarts)
    }

    /** The restart loop: attempts until one succeeds, a signal comes, or the budget is spent. */
    method RestartLoop(a: array<int>, n0: nat, script: seq<Attempt>, i0: nat, ghost now0: int)
      returns (exit: Option<Exit>, p: Process?, n: nat, i: nat, ghost now: int)
      requires Idle() && state == Restarting && Budget(a, n0, now0)
      requires Monotonic(script) && i0 <= |script| && NotAfter(now0, script, i0)
      modifies this`launched, this`unreaped, this`proc, this`healthy, this`gen, this`state, this`starts,
               this`attempts, a
      ensures Books() && Budget(a, n, now) && i <= |script| && NotAfter(now, script, i)
      ensures old(launched) <= launched && fresh(launched - old(launched))
      ensures exit.None? ==> healthy && p == proc && p != null && fresh(p) && gen == old(gen) + 1
      ensures exit.Some? ==> Idle() && gen == old(gen)
      ensures End(exit, i, attempts) == RestartEnd(script, i0, old(attempts), window, maxRestarts)
      ensures exit.Some? ==> state == StateAfter(exit.value)
      ensures exit != Some(Refused)
    {
      n, i, now, p := n0, i0, now0, null;
      ghost var end := RestartEnd(script, i, attempts, window, maxRestarts);
      while i < |script|
        invariant Idle() && state == Restarting && gen == old(gen)
        invariant Budget(a, n, now) && i <= |script| && NotAfter(now, script, i)
        invariant RestartEnd(script, i, attempts, window, maxRestarts) == end
        invariant old(launched) <= launched && fresh(launched - old(launched))
      {
        exit, p, n, now := RestartTurn(a, n, script[i], now);
        i := i + 1;
        if exit.Some? || p != null { return; }
      }
      exit := Some(StillRunning);
    }

    /** One turn of it: ended by a signal or the budget, or an attempt that succeeded or failed. */
    method RestartTurn(a: array<int>, n0: nat, t: Attempt, ghost now0: int)
      returns (exit: Option<Exit>, p: Process?, n: nat, ghost now: int)
      requires Idle() && state == Restarting && Budget(a, n0, now0) && now0 <= t.pruneAt <= t.attemptAt
      modifies this`launched, this`unreaped, this`proc, this`healthy, this`gen, this`state, this`starts,
               this`attempts, a
      ensures Books() && Budget(a, n, now) && now0 <= now <= t.attemptAt
      ensures old(launched) <= launched && fresh(launched - old(launched))
      ensures p != null ==> exit.None? && healthy && p == proc && fresh(p) && gen == old(gen) + 1
      ensures p == null ==> Idle() && gen == old(gen) && (exit.None? ==> state == Restarting)
      ensures exit == TurnExit(t, old(attempts), window, maxRestarts)
      ensures attempts == Noted(t, old(attempts), window, maxRestarts)
      ensures p != null <==> exit.None? && Starts(t.start)
      ensures exit.Some? ==> state == StateAfter(exit.value)
      ensures exit != Some(Refused) && exit != Some(StillRunning)
    {
      n, now, p := n0, now0, null;
      if t.pending != NoSignal {
        EndIdle(Stopped);
        exit := Some(SignalExit(t.pending));
        return;
      }
      n := Prune(a, n, t.pruneAt, now);
      exit, p, n, now := WithinBudget(a, n, t);
    }

    /** The rest of a turn, once the times are pruned. */
    method WithinBudget(a: array<int>, n0: nat, t: Attempt)
      returns (exit: Option<Exit>, p: Process?, n: nat, ghost now: int)
      requires Idle() && state == Restarting && Budget(a, n0, t.pruneAt) && t.pruneAt <= t.attemptAt
      requires n0 >= maxRestarts <==> Spent(attempts, window, maxRestarts, t.pruneAt)
      modifies this`launched, this`unreaped, this`proc, this`healthy, this`gen, this`state, this`starts,
               this`attempts, a
      ensures Books() && Budget(a, n, now) && t.pruneAt <= now <= t.attemptAt
      ensures old(launched) <= launched && fresh(launched - old(launched))
      ensures exit == if n0 >= maxRestarts then Some(BudgetExhausted)
                      else if t.interrupt != NoSignal then Some(SignalExit(t.interrupt)) else None
      ensures attempts == if n0 >= maxRestarts then old(attempts) else old(attempts) + [t.attemptAt]
      ensures p != null <==> exit.None? && Starts(t.start)
      ensures p != null ==> healthy && p == proc && fresh(p) && gen == old(gen) + 1
      ensures p == null ==>
                && Idle() && gen == old(gen)
                && state == (if exit.None? then Restarting else StateAfter(exit.value))
    {
      if n0 >= maxRestarts {
        n, now, p := n0, t.pruneAt, null;
        EndIdle(Down);
        exit := Some(BudgetExhausted);
      } else {
        var wait;
        exit, p, wait := AttemptRestart(a, n0, t);
        n, now := n0 + 1, t.attemptAt;
      }
    }

    /** One restart attempt, within the budget: wait out the backoff, then start. */
    method AttemptRestart(a: array<int>, n: nat, t: Attempt) returns (exit: Option<Exit>, p: Process?, delay: int)
      requires Idle() && state == Restarting && Budget(a, n, t.pruneAt) && n < maxRestarts && t.pruneAt <= t.attemptAt
      modifies this`launched, this`unreaped, this`proc, this`healthy, this`gen, this`state, this`starts,
               this`attempts, a
      ensures Books() && Budget(a, n + 1, t.attemptAt) && attempts == old(attempts) + [t.attemptAt]
      ensures old(launched) <= launched && fresh(launched - old(launched))
      ensures exit == if t.interrupt == NoSignal then None else Some(SignalExit(t.interrupt))
      ensures backoffMin <= backoffMax ==> delay == Min(backoffMax, backoffMin * Pow2(n))
      ensures p != null <==> exit.None? && Starts(t.start)
      ensures p != null ==> healthy && p == proc && fresh(p) && gen == old(gen) + 1
      ensures p == null ==> Idle() && gen == old(gen) && state == (if exit.None? then Restarting else Stopped)
    {
      delay := BackoffDelay(n, backoffMin, backoffMax);
      NoteAttempt(a, n, t.pruneAt, t.attemptAt);
      exit, p := None, null;
      if t.interrupt != NoSignal {
        EndIdle(Stopped);
        exit := Some(SignalExit(t.interrupt));
        return;
      }
      p := StartOnce(t.start);
      if p != null { SetUp(p); }
    }

    method Prune(a: array<int>, n: nat, at: int, ghost now: int) returns (m: nat)
      requires Budget(a, n, now) && now <= at && maxRestarts > 0
      modifies a
      ensures Budget(a, m, at) && (m >= maxRestarts <==> Spent(attempts, window, maxRestarts, at))
    {
      FullExactlyWhenSpent(attempts, a[..n], window, maxRestarts, now, at);
      m := PruneRestarts(a, n, at - window);
    }

    /** Appends the attempt to the kept times. */
    method NoteAttempt(a: array<int>, n: nat, pruned: int, at: int)
      requires Budget(a, n, pruned) && n < maxRestarts && pruned <= at && window > 0
      modifies a, this`attempts
      ensures Budget(a, n + 1, at) && attempts == old(attempts) + [at]
    {
      AttemptKeepsSpacing(attempts, a[..n], window, maxRestarts, pruned, at);
      ghost var kept := a[..n];
      a[n] := at;
      assert a[..n + 1] == kept + [at];
      attempts := attempts + [at];
    }

    /** Run. `first` and `ctxDoneAtFirst` decide the first start; `wakeups` what ends each spell of being
        up; `script` the restart attempts; `graces` the shutdown. */
    method Run(first: Start, ctxDoneAtFirst: Signal, wakeups: seq<Wakeup>, script: seq<Attempt>, graces: Graces)
      returns (exit: Exit)
      requires Idle() && !started && firstStart == None && launched == {} && attempts == [] && state == Starting
          && gen == 0
      requires Monotonic(script)
      modifies this
      ensures Books()
      // Whatever ends the run, nothing is left behind and every exit was received.
      ensures exit != StillRunning ==> unreaped == {} && !healthy && forall p :: p in launched ==> p.received
      ensures exit == Cancelled || exit == StoppedCleanly ==> state == Stopped
      ensures exit == Refused || exit == BudgetExhausted ==> state == Down
      // The first start is decided once, by the first attempt alone.
      ensures firstStart == if old(stopped) then Some(FirstCancelled)
                            else if Starts(first) then Some(Succeeded)
                            else if ctxDoneAtFirst == ContextSignal then Some(FirstCancelled) else Some(FirstRefused)
      ensures old(stopped) ==> launched == {} && exit == StoppedCleanly
      ensures !old(stopped) && !Starts(first) ==> attempts == [] && gen == 0
      ensures Ascending(attempts) && Spaced(attempts, window, maxRestarts)
      ensures !old(stopped) && !Starts(first) ==> exit == if ctxDoneAtFirst == ContextSignal then Cancelled else Refused
      // What follows a first start that succeeds is told by a chronicle, and by a run that never prunes.
      ensures !old(stopped) && Starts(first) ==>
                && RunResult(exit, attempts, gen) == RunEnd(wakeups, 0, script, 0, [], window, maxRestarts)
                && exists log :: Tells(log, wakeups, script, window, maxRestarts, RunResult(exit, attempts, gen))
    {
      if stopped {
        state := Stopped;
        MarkStarted(FirstCancelled);
        return StoppedCleanly;
      }
      started := true;
      var p := StartOnce(first);
      if p == null {
        if ctxDoneAtFirst == ContextSignal {
          SetNotUp(Stopped);
          MarkStarted(FirstCancelled);
          return Cancelled;
        }
        SetNotUp(Down);
        MarkStarted(FirstRefused);
        return Refused;
      }
      SetUp(p);
      MarkStarted(Succeeded);
      exit := Supervise(p, wakeups, script, graces);
      ghost var log := RunIsTold(wakeups, script, window, maxRestarts);
    }

    /** Stop before Run has begun: a later Run starts nothing. Once Run has begun, Stop shows there as
        StopCalled or a StopSignal. */
    method Stop()
      modifies this`stopped
      ensures stopped == (old(stopped) || !started)
    {
      if !started { stopped := true; }
    }

    /** What ends a spell of being up: an orderly shutdown, or the loss of the sidecar. */
    method Wake(w: Wakeup, p: Process, graces: Graces) returns (exit: Option<Exit>)
      requires Books() && healthy && p == proc
      modifies this`proc, this`healthy, this`state, this`unreaped, p
      ensures Idle() && exit == WakeExit(w)
      ensures state == if exit.Some? then Stopped else Restarting
    {
      exit := None;
      match w {
        case ContextDone =>
          Shutdown(p, graces);
          exit := Some(Cancelled);
        case StopCalled =>
          Shutdown(p, graces);
          exit := Some(StoppedCleanly);
        case ProcessExits =>
          SetNotUp(Restarting);
          Reap(p);                 // received in the select
        case ConnectionBroken =>
          SetNotUp(Restarting);
          KillAndReap(p);
      }
    }

    /** One turn of Run's loop: the end of a spell of being up, and the restart that may follow. */
    method Spell(w: Wakeup, p0: Process, graces: Graces, a: array<int>, n0: nat, script: seq<Attempt>, i0: nat,
                 ghost now0: int)
      returns (exit: Option<Exit>, p: Process?, n: nat, i: nat, ghost now: int)
      requires Books() && healthy && p0 == proc && Budget(a, n0, now0)
      requires Monotonic(script) && i0 <= |script| && NotAfter(now0, script, i0)
      modifies this`launched, this`unreaped, this`proc, this`healthy, this`gen, this`state, this`starts,
               this`attempts, p0, a
      ensures Books() && Budget(a, n, now) && i <= |script| && NotAfter(now, script, i)
      ensures old(launched) <= launched && fresh(launched - old(launched))
      ensures exit.None? ==> healthy && p == proc && p != null && fresh(p)
      ensures exit.Some? ==> Idle() && state == StateAfter(exit.value)
      ensures gen == if exit.None? then old(gen) + 1 else old(gen)
      ensures End(exit, i, attempts) == SpellEnd(w, script, i0, old(attempts), window, maxRestarts)
      ensures exit != Some(Refused)
    {
      n, i, now, p := n0, i0, now0, null;
      exit := Wake(w, p0, graces);
      if exit.Some? { return; }
      exit, p, n, i, now := RestartLoop(a, n, script, i, now);
    }

    /** The loop of Run, once the first start has succeeded. */
    method Supervise(p0: Process, wakeups: seq<Wakeup>, script: seq<Attempt>, graces: Graces) returns (exit: Exit)
      requires Books() && healthy && p0 == proc && attempts == [] && gen == 1 && Monotonic(script)
      modifies this`launched, this`unreaped, this`proc, this`healthy, this`gen, this`state, this`starts,
               this`attempts, p0
      ensures Books()
      ensures exit != StillRunning ==> Idle()
      ensures exit != StillRunning ==> state == StateAfter(exit)
      ensures exit != Refused
      ensures Ascending(attempts) && Spaced(attempts, window, maxRestarts)
      ensures RunResult(exit, attempts, gen) == RunEnd(wakeups, 0, script, 0, [], window, maxRestarts)
    {
      var a := new int[maxRestarts];
      var n: nat, i: nat, p := 0, 0, p0;
      ghost var now := if script == [] then 0 else script[0].pruneAt;
      assert a[..0] == [];
      ghost var end := RunEnd(wakeups, 0, script, 0, [], window, maxRestarts);
      for turn := 0 to |wakeups|
        invariant Books() && healthy && p == proc && (p == p0 || fresh(p))
        invariant Budget(a, n, now) && i <= |script| && NotAfter(now, script, i)
        invariant RunEnd(wakeups, turn, script, i, attempts, window, maxRestarts) == end && gen == turn + 1
        invariant fresh(launched - old(launched)) && old(launched) <= launched
      {
        var ended, q;
        ended, q, n, i, now := Spell(wakeups[turn], p, graces, a, n, script, i, now);
        if ended.Some? { return ended.value; }
        p := q;
      }
      return StillRunning;
    }
  }
}
