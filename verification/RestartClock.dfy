/** Which clocks keep the rolling-hour cap: the cap against every sequence of clock readings, those
    that go back included. */
module RestartClock {
  import opened Options
  import opened Modules
  import opened Lifecycle
  import opened LifecycleRuns
  import opened RestartBudget

  // ---- the list of restarts alone ---------------------------------------------------

  /** Book holds the pruned list of a record and the times of all restarts ever recorded. */
  datatype Book = Book(kept: seq<real>, all: seq<real>)

  /** The two lists after restarts were tried at these times. */
  function Booked(cap: int, attempts: seq<real>): Book {
    if attempts == [] then Book([], []) else
      var n := |attempts| - 1;
      var book := Booked(cap, attempts[..n]);
      var kept := Recent(book.kept, attempts[n]);
      var more := if |kept| < cap then [attempts[n]] else [];
      Book(kept + more, book.all + more)
  }

  predicate IsNear(x: real, t: real) {
    -3600.0 < t - x < 3600.0
  }

  /** How many of the times are less than an hour from `t`, before or after. */
  function Near(times: seq<real>, t: real): nat {
    if times == [] then 0 else
      Near(times[..|times| - 1], t) + (if IsNear(times[|times| - 1], t) then 1 else 0)
  }

  /** The readings went an hour or more past one of them and are now within an hour of it again. */
  ghost predicate HasGone(times: seq<real>, t: real) {
    exists i, j :: 0 <= i < j < |times| && times[j] >= times[i] + 3600.0 && IsNear(times[i], t)
  }

  ghost predicate Returns(times: seq<real>) {
    exists k :: 0 <= k < |times| && HasGone(times[..k], times[k])
  }

  lemma NearSnoc(times: seq<real>, x: real, t: real)
    ensures Near(times + [x], t) == Near(times, t) + (if IsNear(x, t) then 1 else 0)
  {
    assert (times + [x])[..|times|] == times;
  }

  lemma {:induction false} WindowIsNear(times: seq<real>, start: real, t: real)
    requires start <= t < start + 3600.0
    ensures Within(times, start) <= Near(times, t) <= |times|
  {
    if times != [] {
      WindowIsNear(times[..|times| - 1], start, t);
    }
  }

  lemma {:induction false} NearIsRecent(times: seq<real>, t: real)
    ensures Near(times, t) <= |Recent(times, t)|
  {
    if times != [] {
      NearIsRecent(times[..|times| - 1], t);
    }
  }

  lemma {:induction false} PruningKeepsNear(times: seq<real>, now: real, t: real)
    requires forall x :: x in times && IsNear(x, t) ==> now - x < 3600.0
    ensures Near(Recent(times, now), t) == Near(times, t)
  {
    if times != [] {
      var n := |times| - 1;
      PruningKeepsNear(times[..n], now, t);
      NearSnoc(Recent(times[..n], now), times[n], t);
      assert Recent(times[..n], now) + [] == Recent(times[..n], now);
    }
  }

  lemma {:induction false} RecentIsAmong(times: seq<real>, now: real)
    ensures forall x :: x in Recent(times, now) ==> x in times
  {
    if times != [] {
      RecentIsAmong(times[..|times| - 1], now);
    }
  }

  lemma {:induction false} KeptAreAttempts(cap: int, attempts: seq<real>)
    ensures forall x :: x in Booked(cap, attempts).kept ==> x in attempts
  {
    if attempts != [] {
      var n := |attempts| - 1;
      KeptAreAttempts(cap, attempts[..n]);
      RecentIsAmong(Booked(cap, attempts[..n]).kept, attempts[n]);
    }
  }

  lemma NotGoneSnoc(times: seq<real>, now: real, t: real)
    requires !HasGone(times + [now], t)
    ensures !HasGone(times, t)
    ensures forall x :: x in times && IsNear(x, t) ==> now - x < 3600.0
  {
    var later := times + [now];
    assert later[|times|] == now;
    forall x | x in times && IsNear(x, t) ensures now - x < 3600.0 {
      var i :| 0 <= i < |times| && times[i] == x;
      assert later[i] == x;
    }
    assert forall i :: 0 <= i < |times| ==> later[i] == times[i];
  }

  /** One attempt leaves as many times near `t` in the pruned list as in the whole one. */
  lemma BookingKeepsNear(book: Book, now: real, more: seq<real>, t: real)
    requires Near(book.kept, t) == Near(book.all, t) && (more == [] || more == [now])
    requires forall x :: x in book.kept && IsNear(x, t) ==> now - x < 3600.0
    ensures Near(Recent(book.kept, now) + more, t) == Near(book.all + more, t)
  {
    var kept := Recent(book.kept, now);
    PruningKeepsNear(book.kept, now, t);
    if more == [] {
      assert kept + more == kept && book.all + more == book.all;
    } else {
      NearSnoc(kept, now, t);
      NearSnoc(book.all, now, t);
    }
  }

  /** What was pruned is nowhere near `t`, unless the attempts went past it and came back. */
  lemma {:induction false} NearIsKept(cap: int, attempts: seq<real>, t: real)
    requires !HasGone(attempts, t)
    ensures Near(Booked(cap, attempts).kept, t) == Near(Booked(cap, attempts).all, t)
  {
    if attempts != [] {
      var n := |attempts| - 1;
      var before, now := attempts[..n], attempts[n];
      var book := Booked(cap, before);
      assert attempts == before + [now];
      NotGoneSnoc(before, now, t);
      NearIsKept(cap, before, t);
      KeptAreAttempts(cap, before);
      BookingKeepsNear(book, now, if |Recent(book.kept, now)| < cap then [now] else [], t);
    }
  }

  lemma {:induction false} SteadyCap(cap: nat, attempts: seq<real>, start: real)
    requires !Returns(attempts)
    ensures Within(Booked(cap, attempts).all, start) <= cap
  {
    if attempts != [] {
      var n := |attempts| - 1;
      var before, now := attempts[..n], attempts[n];
      var book := Booked(cap, before);
      assert forall k :: 0 <= k < n ==> before[..k] == attempts[..k];
      SteadyCap(cap, before, start);
      NearIsKept(cap, before, now);
      NearIsRecent(book.kept, now);
      WithinSnoc(book.all, now, start);
      assert book.all + [] == book.all;
      if start <= now < start + 3600.0 {
        WindowIsNear(book.all, start, now);
      }
    }
  }

  /** With one restart an hour, restarts are an hour apart whatever the clock does. */
  lemma {:induction false} SingleCap(attempts: seq<real>, start: real)
    ensures var book := Booked(1, attempts);
      && book.kept == (if book.all == [] then [] else [book.all[|book.all| - 1]])
      && Within(book.all, start) <= 1
      && (Within(book.all, start) == 1 ==> book.all != [] && book.all[|book.all| - 1] >= start)
  {
    if attempts != [] {
      var n := |attempts| - 1;
      var book := Booked(1, attempts[..n]);
      SingleCap(attempts[..n], start);
      WithinSnoc(book.all, attempts[n], start);
      assert book.all + [] == book.all;
      if book.all != [] {
        var last := book.all[|book.all| - 1];
        RecentSnoc([], last, attempts[n]);
        assert [] + [last] == [last];
      }
    }
  }

  lemma {:induction false} NoCap(cap: int, attempts: seq<real>)
    requires cap <= 0
    ensures Booked(cap, attempts).all == []
  {
    if attempts != [] {
      NoCap(cap, attempts[..|attempts| - 1]);
    }
  }

  lemma CapOfAttempts(cap: int, attempts: seq<real>, start: real)
    requires cap <= 1 || !Returns(attempts)
    ensures Within(Booked(cap, attempts).all, start) <= if cap < 0 then 0 else cap
  {
    if cap <= 0 {
      NoCap(cap, attempts);
    } else if cap == 1 {
      SingleCap(attempts, start);
    } else {
      SteadyCap(cap, attempts, start);
    }
  }

  // ---- runs -------------------------------------------------------------------------

  /** When the restarts of a module were tried, granted or not. */
  ghost function Attempts(t: Setting, ops: seq<Op>, name: string): seq<real>
    requires t.config.heartbeatIntervalS != 0
  {
    if ops == [] then [] else
      var before, op := ops[..|ops| - 1], ops[|ops| - 1];
      Attempts(t, before, name) + (if Tries(t, Run(t, before).core.life, op, name) then [op.now] else [])
  }

  lemma BookedSnoc(cap: int, attempts: seq<real>, now: real)
    ensures var book := Booked(cap, attempts);
      var kept := Recent(book.kept, now);
      var more := if |kept| < cap then [now] else [];
      Booked(cap, attempts + [now]) == Book(kept + more, book.all + more)
  {
    assert (attempts + [now])[..|attempts|] == attempts;
  }

  /** The two lists of a module in any run are those of its attempts alone. */
  lemma {:induction false} RunIsBooked(t: Setting, ops: seq<Op>, name: string)
    requires t.config.heartbeatIntervalS != 0
    ensures Book(KeptOf(Run(t, ops).core.life, name), RestartsOf(Run(t, ops), name)) ==
            Booked(t.config.restartMaxPerHour, Attempts(t, ops, name))
  {
    if ops != [] {
      var before, op := ops[..|ops| - 1], ops[|ops| - 1];
      var p := Run(t, before);
      RunIsBooked(t, before, name);
      if Tries(t, p.core.life, op, name) {
        StepPrunes(t, p, op, name);
        BookedSnoc(t.config.restartMaxPerHour, Attempts(t, before, name), op.now);
      } else {
        StepKeeps(t, p, op, name);
        assert Attempts(t, before, name) + [] == Attempts(t, before, name);
      }
    }
  }

  /** The operations read the clock in order: the i-th at its reading `at[i]`. Readings may be
      used by several operations, or by none. */
  ghost predicate Reads(ops: seq<Op>, clock: seq<real>, at: seq<nat>) {
    && |at| == |ops|
    && (forall i :: 0 <= i < |at| ==> at[i] < |clock|)
    && (forall i, j :: 0 <= i < j < |at| ==> at[i] <= at[j])
    && (forall i :: 0 <= i < |ops| && TimeOf(ops[i]).Some? ==> TimeOf(ops[i]).value == clock[at[i]])
  }

  ghost predicate OnClock(ops: seq<Op>, clock: seq<real>) {
    exists at :: Reads(ops, clock, at)
  }

  /** The same for times alone. */
  ghost predicate Chosen(times: seq<real>, clock: seq<real>, at: seq<nat>) {
    && |at| == |times|
    && (forall i :: 0 <= i < |at| ==> at[i] < |clock| && times[i] == clock[at[i]])
    && (forall i, j :: 0 <= i < j < |at| ==> at[i] <= at[j])
  }

  lemma {:induction false} AttemptsAreRead(t: Setting, ops: seq<Op>, clock: seq<real>, at: seq<nat>, name: string)
    returns (of: seq<nat>)
    requires t.config.heartbeatIntervalS != 0 && Reads(ops, clock, at)
    ensures Chosen(Attempts(t, ops, name), clock, of)
    ensures forall i :: 0 <= i < |of| ==> at != [] && of[i] <= at[|at| - 1]
  {
    of := [];
    if ops != [] {
      var n := |ops| - 1;
      of := AttemptsAreRead(t, ops[..n], clock, at[..n], name);
      if Tries(t, Run(t, ops[..n]).core.life, ops[n], name) {
        assert TimeOf(ops[n]) == Some(ops[n].now);
        of := of + [at[n]];
      }
    }
  }

  lemma GoneAndBack(times: seq<real>, i: nat, j: nat, k: nat)
    requires i < j < k < |times| && times[j] >= times[i] + 3600.0 && IsNear(times[i], times[k])
    ensures Returns(times)
  {
    var before := times[..k];
    assert before[i] == times[i] && before[j] == times[j];
    assert HasGone(before, times[k]);
  }

  lemma ReturnsAt(times: seq<real>) returns (i: nat, j: nat, k: nat)
    requires Returns(times)
    ensures i < j < k < |times| && times[j] >= times[i] + 3600.0 && IsNear(times[i], times[k])
  {
    k :| 0 <= k < |times| && HasGone(times[..k], times[k]);
    var before := times[..k];
    i, j :| 0 <= i < j < |before| && before[j] >= before[i] + 3600.0 && IsNear(before[i], times[k]);
  }

  lemma ChosenReturns(times: seq<real>, clock: seq<real>, at: seq<nat>)
    requires Chosen(times, clock, at) && Returns(times)
    ensures Returns(clock)
  {
    var i, j, k := ReturnsAt(times);
    GoneAndBack(clock, at[i], at[j], at[k]);
  }

  /** No hour of the run holds more restarts of the module than are allowed. */
  ghost predicate KeepsCap(t: Setting, ops: seq<Op>, name: string)
    requires t.config.heartbeatIntervalS != 0
  {
    var cap := t.config.restartMaxPerHour;
    forall start :: Within(RestartsOf(Run(t, ops), name), start) <= if cap < 0 then 0 else cap
  }

  lemma ClockKeepsCap(t: Setting, ops: seq<Op>, clock: seq<real>, name: string)
    requires t.config.heartbeatIntervalS != 0 && OnClock(ops, clock)
    requires t.config.restartMaxPerHour <= 1 || !Returns(clock)
    ensures KeepsCap(t, ops, name)
  {
    var at :| Reads(ops, clock, at);
    var of := AttemptsAreRead(t, ops, clock, at, name);
    var attempts := Attempts(t, ops, name);
    if Returns(attempts) {
      ChosenReturns(attempts, clock, of);
    }
    RunIsBooked(t, ops, name);
    forall start: real
      ensures Within(RestartsOf(Run(t, ops), name), start) <=
              if t.config.restartMaxPerHour < 0 then 0 else t.config.restartMaxPerHour
    {
      CapOfAttempts(t.config.restartMaxPerHour, attempts, start);
    }
  }

  // ---- the witness ------------------------------------------------------------------

  /** Every restart of the run is of a module that has failed, as the state machine asks. */
  ghost predicate OnlyFailedRestart(t: Setting, ops: seq<Op>)
    requires t.config.heartbeatIntervalS != 0
  {
    if ops == [] then true else
      var before, op := ops[..|ops| - 1], ops[|ops| - 1];
      && OnlyFailedRestart(t, before)
      && (op.Restart? ==> StateOf(Run(t, before).core.life, op.name) == Failed)
  }

  lemma OnlyFailedSnoc(t: Setting, ops: seq<Op>, op: Op)
    requires t.config.heartbeatIntervalS != 0 && OnlyFailedRestart(t, ops)
    requires op.Restart? ==> StateOf(Run(t, ops).core.life, op.name) == Failed
    ensures OnlyFailedRestart(t, ops + [op])
  {
    assert (ops + [op])[..|ops|] == ops;
  }

  lemma AttemptsSnoc(t: Setting, ops: seq<Op>, op: Op, name: string)
    requires t.config.heartbeatIntervalS != 0
    ensures Attempts(t, ops + [op], name) ==
      Attempts(t, ops, name) + (if Tries(t, Run(t, ops).core.life, op, name) then [op.now] else [])
  {
    assert (ops + [op])[..|ops|] == ops;
  }

  lemma ReadsSnoc(ops: seq<Op>, clock: seq<real>, at: seq<nat>, op: Op, k: nat)
    requires Reads(ops, clock, at) && k < |clock| && (at == [] || at[|at| - 1] <= k)
    requires TimeOf(op).Some? ==> TimeOf(op).value == clock[k]
    ensures Reads(ops + [op], clock, at + [k])
  {
  }

  /** The module is in a state, these restarts of it were tried, all on a failed module, and the run
      has read the clock up to its reading `k`. */
  ghost predicate Stands(
    t: Setting, ops: seq<Op>, name: string, state: ModuleState, attempts: seq<real>,
    clock: seq<real>, at: seq<nat>, k: nat)
    requires t.config.heartbeatIntervalS != 0
  {
    && name in Run(t, ops).core.life.records && StateOf(Run(t, ops).core.life, name) == state
    && Attempts(t, ops, name) == attempts && OnlyFailedRestart(t, ops)
    && Reads(ops, clock, at) && at != [] && at[|at| - 1] <= k < |clock|
  }

  lemma StandsTracked(t: Setting, name: string, clock: seq<real>, k: nat)
    requires t.config.heartbeatIntervalS != 0 && name != "" && k < |clock|
    ensures Stands(t, [Op.Track(name)], name, Unregistered, [], clock, [k], k)
  {
    RunSnoc(t, [], Op.Track(name));
    AttemptsSnoc(t, [], Op.Track(name), name);
    OnlyFailedSnoc(t, [], Op.Track(name));
    assert [] + [Op.Track(name)] == [Op.Track(name)];
  }

  /** The state after a transition that is asked for and allowed. */
  lemma StandsMoved(
    t: Setting, ops: seq<Op>, name: string, src: ModuleState, dst: ModuleState, attempts: seq<real>,
    clock: seq<real>, at: seq<nat>, k: nat)
    requires t.config.heartbeatIntervalS != 0 && Stands(t, ops, name, src, attempts, clock, at, k)
    requires Allowed(src, dst)
    ensures Stands(t, ops + [Op.Move(name, dst)], name, dst, attempts, clock, at + [k], k)
  {
    RunSnoc(t, ops, Op.Move(name, dst));
    AttemptsSnoc(t, ops, Op.Move(name, dst), name);
    OnlyFailedSnoc(t, ops, Op.Move(name, dst));
    ReadsSnoc(ops, clock, at, Op.Move(name, dst), k);
    assert attempts + [] == attempts;
  }

  lemma StandsRestarted(
    t: Setting, ops: seq<Op>, name: string, attempts: seq<real>, clock: seq<real>, at: seq<nat>, k: nat)
    requires t.config.heartbeatIntervalS != 0 && Stands(t, ops, name, Failed, attempts, clock, at, k)
    requires |Recent(KeptOf(Run(t, ops).core.life, name), clock[k])| < t.config.restartMaxPerHour
    ensures var op := Op.Restart(name, clock[k]);
      Stands(t, ops + [op], name, Starting, attempts + [clock[k]], clock, at + [k], k)
  {
    RunSnoc(t, ops, Op.Restart(name, clock[k]));
    AttemptsSnoc(t, ops, Op.Restart(name, clock[k]), name);
    OnlyFailedSnoc(t, ops, Op.Restart(name, clock[k]));
    ReadsSnoc(ops, clock, at, Op.Restart(name, clock[k]), k);
  }

  /** A failed module is restarted on reading `k` of the clock and fails again. */
  lemma TryAgain(
    t: Setting, ops: seq<Op>, name: string, attempts: seq<real>, clock: seq<real>, at: seq<nat>, k: nat)
    returns (ops': seq<Op>, at': seq<nat>)
    requires t.config.heartbeatIntervalS != 0 && Stands(t, ops, name, Failed, attempts, clock, at, k)
    requires |Recent(Booked(t.config.restartMaxPerHour, attempts).kept, clock[k])| < t.config.restartMaxPerHour
    ensures Stands(t, ops', name, Failed, attempts + [clock[k]], clock, at', k)
  {
    RunIsBooked(t, ops, name);
    StandsRestarted(t, ops, name, attempts, clock, at, k);
    ops', at' := ops + [Op.Restart(name, clock[k])], at + [k];
    StandsMoved(t, ops', name, Starting, Failed, attempts + [clock[k]], clock, at', k);
    ops', at' := ops' + [Op.Move(name, Failed)], at' + [k];
  }

  /** A module that has failed before any restart. */
  lemma FailedAnew(t: Setting, name: string, clock: seq<real>, k: nat) returns (ops: seq<Op>, at: seq<nat>)
    requires t.config.heartbeatIntervalS != 0 && name != "" && k < |clock|
    ensures Stands(t, ops, name, Failed, [], clock, at, k)
  {
    ops, at := [Op.Track(name)], [k];
    StandsTracked(t, name, clock, k);
    StandsMoved(t, ops, name, Unregistered, Starting, [], clock, at, k);
    ops, at := ops + [Op.Move(name, Starting)], at + [k];
    StandsMoved(t, ops, name, Starting, Failed, [], clock, at, k);
    ops, at := ops + [Op.Move(name, Failed)], at + [k];
  }

  function Repeat(x: real, n: nat): (times: seq<real>)
    ensures |times| == n
  {
    if n == 0 then [] else Repeat(x, n - 1) + [x]
  }

  lemma {:induction false} RepeatIs(x: real, n: nat, now: real, start: real)
    ensures Recent(Repeat(x, n), now) == if now - x < 3600.0 then Repeat(x, n) else []
    ensures start <= x < start + 3600.0 ==> Within(Repeat(x, n), start) == n
  {
    if n != 0 {
      RepeatIs(x, n - 1, now, start);
      RecentSnoc(Repeat(x, n - 1), x, now);
      WithinSnoc(Repeat(x, n - 1), x, start);
      assert Repeat(x, n - 1) + [] == Repeat(x, n - 1);
    }
  }

  lemma {:induction false} RepeatIsBooked(cap: int, x: real, n: nat)
    requires n <= cap
    ensures Booked(cap, Repeat(x, n)) == Book(Repeat(x, n), Repeat(x, n))
  {
    if n != 0 {
      RepeatIsBooked(cap, x, n - 1);
      RepeatIs(x, n - 1, x, x);
      BookedSnoc(cap, Repeat(x, n - 1), x);
    }
  }

  /** As many restarts on one reading as the cap allows. */
  lemma {:induction false} TryOften(t: Setting, name: string, clock: seq<real>, i: nat, n: nat)
    returns (ops: seq<Op>, at: seq<nat>)
    requires t.config.heartbeatIntervalS != 0 && name != "" && i < |clock| && n <= t.config.restartMaxPerHour
    ensures Stands(t, ops, name, Failed, Repeat(clock[i], n), clock, at, i)
  {
    if n == 0 {
      ops, at := FailedAnew(t, name, clock, i);
    } else {
      ops, at := TryOften(t, name, clock, i, n - 1);
      RepeatIsBooked(t.config.restartMaxPerHour, clock[i], n - 1);
      RepeatIs(clock[i], n - 1, clock[i], clock[i]);
      ops, at := TryAgain(t, ops, name, Repeat(clock[i], n - 1), clock, at, i);
    }
  }

  /** The restarts of the witness: as many as allowed, one that makes the record forget them, and
      one more. */
  lemma ForgetfulBook(cap: int, x: real, y: real, z: real)
    requires 2 <= cap && y >= x + 3600.0 && IsNear(x, z)
    ensures var book := Booked(cap, Repeat(x, cap) + [y]);
      && |Recent(Booked(cap, Repeat(x, cap)).kept, y)| < cap && book.kept == [y] && |Recent(book.kept, z)| < cap
      && book.all == Repeat(x, cap) + [y]
    ensures var all := Booked(cap, Repeat(x, cap) + [y] + [z]).all;
      all == Repeat(x, cap) + [y] + [z] && Within(all, if x < z then x else z) > cap
  {
    var start := if x < z then x else z;
    RepeatIsBooked(cap, x, cap);
    RepeatIs(x, cap, y, start);
    BookedSnoc(cap, Repeat(x, cap), y);
    assert [] + [y] == [y];
    RecentSnoc([], y, z);
    BookedSnoc(cap, Repeat(x, cap) + [y], z);
    WithinSnoc(Repeat(x, cap) + [y], z, start);
    WithinSnoc(Repeat(x, cap), y, start);
  }

  /** On a clock that returns, a run that only ever restarts a failed module breaks every cap of
      two or more. */
  lemma ClockBreaksCap(t: Setting, clock: seq<real>, name: string) returns (ops: seq<Op>)
    requires t.config.heartbeatIntervalS != 0 && name != ""
    requires 2 <= t.config.restartMaxPerHour && Returns(clock)
    ensures OnClock(ops, clock) && OnlyFailedRestart(t, ops) && !KeepsCap(t, ops, name)
  {
    var cap := t.config.restartMaxPerHour;
    var i, j, k := ReturnsAt(clock);
    var x, y, z := clock[i], clock[j], clock[k];
    var at: seq<nat>;
    ops, at := TryOften(t, name, clock, i, cap);
    ForgetfulBook(cap, x, y, z);
    ops, at := TryAgain(t, ops, name, Repeat(x, cap), clock, at, j);
    ops, at := TryAgain(t, ops, name, Repeat(x, cap) + [y], clock, at, k);
    RunIsBooked(t, ops, name);
    assert Within(RestartsOf(Run(t, ops), name), if x < z then x else z) > cap;
  }

  /** Every run on a clock keeps the cap exactly if the cap is at most one restart an hour or the
      clock never goes an hour past one of its readings and then back to within an hour of it. */
  lemma CapIffClock(t: Setting, clock: seq<real>, name: string)
    requires t.config.heartbeatIntervalS != 0 && name != ""
    ensures (forall ops :: OnClock(ops, clock) ==> KeepsCap(t, ops, name)) <==>
            t.config.restartMaxPerHour <= 1 || !Returns(clock)
  {
    if t.config.restartMaxPerHour <= 1 || !Returns(clock) {
      forall ops | OnClock(ops, clock) ensures KeepsCap(t, ops, name) {
        ClockKeepsCap(t, ops, clock, name);
      }
    } else {
      var ops := ClockBreaksCap(t, clock, name);
    }
  }
}
