/** The failed-attempt counter of a local credential, its window and its lock. */
module Lockout {
  import opened Prelude

  type Time = int

  datatype Settings = Settings(threshold: nat, window: Time, duration: Time)

  /** `updatedAt` is the start of the counting window. */
  datatype Row = Row(failedAttempts: nat, updatedAt: Time, lockedUntil: Option<Time>)

  /** What checking a password or a code comes to; only a full login resets the counter. */
  datatype Check = Wrong | Right | Login

  datatype Error = AccountLocked | Invalid

  datatype Attempt = Attempt(now: Time, check: Check)

  ghost predicate Locked(r: Row, now: Time) {
    r.lockedUntil.Some? && r.lockedUntil.value > now
  }

  /** The row as the command sees it once it may go on: an expired lock is taken off. */
  ghost function Loaded(r: Row): Row {
    if r.lockedUntil.Some? then Row(0, r.updatedAt, None) else r
  }

  /** A failure opens a new window when there is none or the last one is over. */
  ghost predicate Opens(r: Row, settings: Settings, now: Time) {
    r.failedAttempts == 0 || now - r.updatedAt > settings.window
  }

  ghost function Failure(r: Row, settings: Settings, now: Time): Row {
    var counted := if Opens(r, settings, now) then Row(1, now, r.lockedUntil) else r.(failedAttempts := r.failedAttempts + 1);
    if counted.failedAttempts >= settings.threshold then counted.(lockedUntil := Some(now + settings.duration)) else counted
  }

  /** The row after an attempt. A locked account checks nothing and changes nothing. */
  ghost function After(r: Row, settings: Settings, a: Attempt): Row {
    if Locked(r, a.now) then r
    else
      match a.check
      case Wrong => Failure(Loaded(r), settings, a.now)
      case Right => Loaded(r)
      case Login => Row(0, r.updatedAt, None)
  }

  /** The attempt is a wrong one that got as far as being checked. */
  ghost predicate Counts(r: Row, a: Attempt) {
    !Locked(r, a.now) && a.check == Wrong
  }

  ghost predicate Valid(r: Row, settings: Settings) {
    r.failedAttempts <= settings.threshold && (r.failedAttempts < settings.threshold || r.lockedUntil.Some?)
  }

  class Credential {
    var failedAttempts: nat
    var updatedAt: Time
    var lockedUntil: Option<Time>

    ghost function View(): Row
      reads this
    {
      Row(failedAttempts, updatedAt, lockedUntil)
    }

    constructor (now: Time)
      ensures View() == Row(0, now, None)
    {
      failedAttempts, updatedAt, lockedUntil := 0, now, None;
    }

    method LoadCheckingLockout(now: Time) returns (locked: bool)
      modifies this
      ensures locked == Locked(old(View()), now)
      ensures View() == if locked then old(View()) else Loaded(old(View()))
      ensures locked <==> old(lockedUntil).Some? && now < old(lockedUntil).value
      ensures locked ==> failedAttempts == old(failedAttempts) && lockedUntil == old(lockedUntil)
      ensures !locked ==> failedAttempts == (if old(lockedUntil).Some? then 0 else old(failedAttempts)) && lockedUntil == None
      ensures updatedAt == old(updatedAt)
    {
      if lockedUntil.Some? && lockedUntil.value > now { return true; }
      if lockedUntil.Some? && lockedUntil.value <= now {
        failedAttempts := 0;
        lockedUntil := None;
      }
      locked := false;
    }

    method RegisterFailedAttempt(settings: Settings, now: Time) returns (error: Error)
      requires lockedUntil == None
      modifies this
      ensures View() == Failure(old(View()), settings, now)
      ensures error.AccountLocked? <==> lockedUntil.Some?
      ensures if old(failedAttempts) == 0 || now - old(updatedAt) > settings.window
              then failedAttempts == 1 && updatedAt == now
              else failedAttempts == old(failedAttempts) + 1 && updatedAt == old(updatedAt)
      ensures lockedUntil == if failedAttempts >= settings.threshold then Some(now + settings.duration) else None
    {
      var expired := failedAttempts > 0 && now - updatedAt > settings.window;
      if failedAttempts == 0 || expired {
        failedAttempts := 1;
        updatedAt := now;
      } else {
        failedAttempts := failedAttempts + 1;
      }
      if failedAttempts >= settings.threshold {
        lockedUntil := Some(now + settings.duration);
        return AccountLocked;
      }
      error := Invalid;
    }

    /** A login or a step-up attempt, up to what it does to the counter. */
    method Try(settings: Settings, now: Time, check: Check) returns (r: Outcome<(), Error>)
      modifies this
      ensures View() == After(old(View()), settings, Attempt(now, check))
      ensures r.Ok? <==> !Locked(old(View()), now) && check != Wrong
      ensures Locked(old(View()), now) ==> r == Failed(AccountLocked)
      ensures old(lockedUntil).Some? && now < old(lockedUntil).value ==>
                failedAttempts == old(failedAttempts) && updatedAt == old(updatedAt) && lockedUntil == old(lockedUntil)
      ensures r.Ok? ==>
                && failedAttempts == (if check == Login || old(lockedUntil).Some? then 0 else old(failedAttempts))
                && lockedUntil == None && updatedAt == old(updatedAt)
      ensures !(old(lockedUntil).Some? && now < old(lockedUntil).value) && check == Wrong ==>
                && (if old(failedAttempts) == 0 || old(lockedUntil).Some? || now - old(updatedAt) > settings.window
                    then failedAttempts == 1 && updatedAt == now
                    else failedAttempts == old(failedAttempts) + 1 && updatedAt == old(updatedAt))
                && lockedUntil == (if failedAttempts >= settings.threshold then Some(now + settings.duration) else None)
                && r == Failed(if lockedUntil.Some? then AccountLocked else Invalid)
    {
      var locked := LoadCheckingLockout(now);
      if locked { return Failed(AccountLocked); }
      match check
      case Wrong =>
        var error := RegisterFailedAttempt(settings, now);
        r := Failed(error);
      case Right =>
        r := Ok(());
      case Login =>
        failedAttempts := 0;
        lockedUntil := None;
        r := Ok(());
    }
  }

  // ---- runs -------------------------------------------------------------------------------------

  /** Attempts in the order in which they got the credential's row lock. */
  ghost predicate Run(settings: Settings, rows: seq<Row>, attempts: seq<Attempt>) {
    && |rows| == |attempts| + 1 && Valid(rows[0], settings)
    && forall i, j :: 0 <= i < |attempts| && j == i + 1 ==> rows[j] == After(rows[i], settings, attempts[i])
  }

  /**
   Each attempt reads the clock before it waits for the row lock. A reading may therefore be older than one that
   was served before it, but by no more than `skew`.
   */
  ghost predicate Within(attempts: seq<Attempt>, skew: Time) {
    forall i, j :: 0 <= i <= j < |attempts| ==> attempts[i].now <= attempts[j].now + skew
  }

  /** How many of attempts[lo..hi] were wrong and checked. */
  ghost function Checked(rows: seq<Row>, attempts: seq<Attempt>, lo: nat, hi: nat): nat
    requires lo <= hi <= |attempts| < |rows|
    decreases hi
  {
    if lo == hi then 0
    else Checked(rows, attempts, lo, hi - 1) + if Counts(rows[hi - 1], attempts[hi - 1]) then 1 else 0
  }

  lemma {:induction false} CounterBelowThresholdOrLocked(settings: Settings, rows: seq<Row>, attempts: seq<Attempt>, i: nat)
    requires Run(settings, rows, attempts) && i < |rows| && settings.threshold >= 1
    ensures Valid(rows[i], settings)
  {
    if i > 0 {
      CounterBelowThresholdOrLocked(settings, rows, attempts, i - 1);
      assert rows[i] == After(rows[i - 1], settings, attempts[i - 1]);
    }
  }

  ghost function Min(a: int, b: int): int { if a < b then a else b }

  /**
   `windows` windows have been opened since `start`, `checked` attempts checked. The last window is at least
   the earlier openings' spacing after `start`, and a lock or its removal comes a full lock time after it.
   */
  ghost predicate Tally(settings: Settings, r: Row, start: Time, clock: Time, windows: nat, checked: nat) {
    && Valid(r, settings)
    && checked <= settings.threshold * windows + (if r.failedAttempts == 0 then settings.threshold else r.failedAttempts)
    && (windows > 0 ==>
          && start + (windows - 1) * Min(settings.window, settings.duration) <= r.updatedAt <= clock
          && (r.lockedUntil.Some? ==> r.updatedAt + settings.duration <= r.lockedUntil.value)
          && (r.failedAttempts == 0 ==> r.updatedAt + settings.duration <= clock))
  }

  lemma Opening(settings: Settings, r: Row, start: Time, clock: Time, windows: nat, now: Time)
    requires settings.threshold >= 1 && settings.window > 0 && settings.duration > 0 && start <= now && clock <= now
    requires windows > 0 ==>
               && start + (windows - 1) * Min(settings.window, settings.duration) <= r.updatedAt
               && (r.failedAttempts == 0 ==> r.updatedAt + settings.duration <= now)
    requires Opens(r, settings, now)
    ensures start + windows * Min(settings.window, settings.duration) <= now
  {
    var m := Min(settings.window, settings.duration);
    assert windows * m == (windows - 1) * m + m;
  }

  lemma OneMoreTimes(n: nat, k: nat)
    ensures n * (k + 1) == n * k + n
  {
  }

  lemma OneAttempt(settings: Settings, r: Row, start: Time, clock: Time, windows: nat, checked: nat, a: Attempt)
    returns (windows': nat)
    requires settings.threshold >= 1 && settings.window > 0 && settings.duration > 0
    requires Tally(settings, r, start, clock, windows, checked) && start <= a.now && clock <= a.now && a.check != Login
    ensures Tally(settings, After(r, settings, a), start, a.now, windows', checked + if Counts(r, a) then 1 else 0)
  {
    windows' := windows;
    if Counts(r, a) && Opens(Loaded(r), settings, a.now) {
      Opening(settings, Loaded(r), start, clock, windows, a.now);
      windows' := windows + 1;
      OneMoreTimes(settings.threshold, windows);
    }
  }

  lemma {:induction false} TallyOf(settings: Settings, rows: seq<Row>, attempts: seq<Attempt>, lo: nat, hi: nat)
    returns (windows: nat)
    requires settings.threshold >= 1 && settings.window > 0 && settings.duration > 0
    requires Run(settings, rows, attempts) && Within(attempts, 0) && lo < hi <= |attempts|
    requires forall i :: lo <= i < hi ==> attempts[i].check != Login
    ensures Tally(settings, rows[hi], attempts[lo].now, attempts[hi - 1].now, windows, Checked(rows, attempts, lo, hi))
    decreases hi
  {
    windows := 0;
    var start := attempts[lo].now;
    if hi - 1 == lo {
      CounterBelowThresholdOrLocked(settings, rows, attempts, lo);
      assert Checked(rows, attempts, lo, lo) == 0;
      windows := OneAttempt(settings, rows[lo], start, start, 0, 0, attempts[lo]);
    } else {
      windows := TallyOf(settings, rows, attempts, lo, hi - 1);
      windows := OneAttempt(settings, rows[hi - 1], start, attempts[hi - 2].now, windows, Checked(rows, attempts, lo, hi - 1), attempts[hi - 1]);
    }
  }

  lemma ProductsOrder(a: int, b: int, m: int)
    requires m > 0 && a <= b
    ensures a * m <= b * m
  {
  }

  lemma Divided(windows: nat, m: int, period: int)
    requires m > 0 && (windows - 1) * m <= period
    ensures windows <= period / m + 1
  {
    var q := period / m;
    assert (q + 1) * m == q * m + m && period == q * m + period % m;
    if q + 1 <= windows - 1 {
      ProductsOrder(q + 1, windows - 1, m);
      assert false;
    }
  }

  lemma Bounded(threshold: nat, windows: nat, quotient: int, checked: nat, last: nat)
    requires checked <= threshold * windows + last && last <= threshold && windows <= quotient + 1
    ensures checked <= threshold * (quotient + 2)
  {
    assert threshold * windows <= threshold * (quotient + 1);
    assert threshold * (quotient + 2) == threshold * (quotient + 1) + threshold;
  }

  /**
   With attempts served in the order of their clock readings: in any stretch of time `period` long without a
   successful login, at most threshold * (period / min(window, lock time) + 2) wrong attempts are checked.
   */
  lemma FewWrongAttempts(settings: Settings, rows: seq<Row>, attempts: seq<Attempt>, lo: nat, hi: nat, period: Time)
    requires settings.threshold >= 1 && settings.window > 0 && settings.duration > 0
    requires Run(settings, rows, attempts) && Within(attempts, 0) && lo < hi <= |attempts|
    requires forall i :: lo <= i < hi ==> attempts[i].check != Login
    requires attempts[hi - 1].now - attempts[lo].now <= period
    ensures Checked(rows, attempts, lo, hi) <= settings.threshold * (period / Min(settings.window, settings.duration) + 2)
  {
    var m := Min(settings.window, settings.duration);
    var windows := TallyOf(settings, rows, attempts, lo, hi);
    assert attempts[lo].now <= attempts[hi - 1].now;
    if windows > 0 {
      Divided(windows, m, period);
    }
    var r := rows[hi];
    Bounded(settings.threshold, windows, period / m, Checked(rows, attempts, lo, hi),
            if r.failedAttempts == 0 then settings.threshold else r.failedAttempts);
  }

  /** While an account is locked nothing is checked, and the lock that a failure set is measured from that failure. */
  lemma LockHolds(settings: Settings, r: Row, now: Time, later: Time, check: Check)
    requires Valid(r, settings) && !Locked(r, now) && Failure(Loaded(r), settings, now).lockedUntil.Some?
    ensures var r' := After(r, settings, Attempt(now, Wrong));
            later < now + settings.duration ==> After(r', settings, Attempt(later, check)) == r' && !Counts(r', Attempt(later, check))
  {
  }
}
