/**
 The failed-attempt bound when attempts are not served in the order of their clock readings: each reads the
 clock before it waits for the credential's row lock. There is a bound exactly when no reading is older than
 one served before it by the lock time or more.
 */
module LockoutSkew {
  import opened Prelude
  import opened Lockout

  /** Lock removals, windows opened on a zero counter, and windows opened because the last one was over. */
  datatype Tallies = Tallies(resets: nat, onZero: nat, onExpiry: nat)

  /**
   What a stretch of attempts has used up: each reset moves the latest reading on by the lock time less the skew,
   each expiry moves the window's start on by the window, each window on a zero counter moves it back by at most the skew.
   */
  ghost predicate Spent(settings: Settings, skew: Time, r: Row, start: Time, clock: Time, t: Tallies, checked: nat) {
    && Valid(r, settings) && start <= clock
    && checked <= settings.threshold * (t.onZero + t.onExpiry) + (if r.failedAttempts == 0 then settings.threshold else r.failedAttempts)
    && t.onZero + (if r.failedAttempts == 0 then 1 else 0) <= t.resets + 1
    && (t.resets > 0 ==> start + (t.resets - 1) * (settings.duration - skew) <= clock)
    && (t.resets > 0 && r.lockedUntil.Some? ==> start + t.resets * (settings.duration - skew) <= r.lockedUntil.value)
    && (t.onZero + t.onExpiry > 0 ==>
          start + (t.onExpiry - 1) * settings.window - t.onZero * skew <= r.updatedAt <= clock)
  }

  ghost predicate Sane(settings: Settings, skew: Time) {
    settings.threshold >= 1 && settings.window > 0 && 0 <= skew < settings.duration
  }

  ghost function Max(a: int, b: int): int { if a < b then b else a }

  lemma OneMoreTimes(n: int, k: int)
    ensures n * (k + 1) == n * k + n && (k + 1) * n == k * n + n && (k - 1) * n == k * n - n
  {
  }

  /** The removal of a lock that has run out. */
  lemma Unlock(settings: Settings, skew: Time, r: Row, start: Time, clock: Time, t: Tallies, checked: nat, now: Time) returns (t': Tallies)
    requires Sane(settings, skew) && Spent(settings, skew, r, start, clock, t, checked) && start <= now && clock <= now + skew
    requires !Locked(r, now)
    ensures Spent(settings, skew, Loaded(r), start, Max(clock, now), t', checked)
    ensures t'.onZero == t.onZero && t'.onExpiry == t.onExpiry
  {
    t' := t;
    if r.lockedUntil.Some? {
      t' := t.(resets := t.resets + 1);
    }
  }

  /** A failure that stays within the open window. */
  lemma Count(settings: Settings, skew: Time, r: Row, start: Time, clock: Time, t: Tallies, checked: nat, now: Time)
    requires Sane(settings, skew) && Spent(settings, skew, r, start, clock, t, checked) && now <= clock && clock <= now + skew
    requires r.lockedUntil == None && !Opens(r, settings, now)
    ensures Spent(settings, skew, Failure(r, settings, now), start, clock, t, checked + 1)
  {
    OneMoreTimes(settings.duration - skew, t.resets);
  }

  /** A failure that opens a window. */
  lemma Open(settings: Settings, skew: Time, r: Row, start: Time, clock: Time, t: Tallies, checked: nat, now: Time) returns (t': Tallies)
    requires Sane(settings, skew) && Spent(settings, skew, r, start, clock, t, checked)
    requires start <= now <= clock && clock <= now + skew && r.lockedUntil == None && Opens(r, settings, now)
    ensures Spent(settings, skew, Failure(r, settings, now), start, clock, t', checked + 1)
  {
    t' := if r.failedAttempts == 0 then t.(onZero := t.onZero + 1) else t.(onExpiry := t.onExpiry + 1);
    OneMoreTimes(settings.threshold, t.onZero + t.onExpiry);
    OneMoreTimes(skew, t.onZero);
    OneMoreTimes(settings.window, t.onExpiry);
    OneMoreTimes(settings.duration - skew, t.resets);
    OpenedAt(settings, skew, r, start, clock, t, now);
  }

  lemma OpenedAt(settings: Settings, skew: Time, r: Row, start: Time, clock: Time, t: Tallies, now: Time)
    requires Sane(settings, skew) && start <= now <= clock && clock <= now + skew && Opens(r, settings, now)
    requires t.onZero + t.onExpiry > 0 ==>
               start + (t.onExpiry - 1) * settings.window - t.onZero * skew <= r.updatedAt <= clock
    ensures r.failedAttempts == 0 ==> start + (t.onExpiry - 1) * settings.window - (t.onZero + 1) * skew <= now
    ensures r.failedAttempts > 0 ==> start + t.onExpiry * settings.window - t.onZero * skew <= now
  {
    OneMoreTimes(skew, t.onZero);
    OneMoreTimes(settings.window, t.onExpiry);
    if t.onZero + t.onExpiry == 0 {
      assert (t.onExpiry - 1) * settings.window == -settings.window && t.onExpiry * settings.window == 0;
    }
  }

  lemma OneAttempt(settings: Settings, skew: Time, r: Row, start: Time, clock: Time, t: Tallies, checked: nat, a: Attempt)
    returns (t': Tallies)
    requires Sane(settings, skew) && Spent(settings, skew, r, start, clock, t, checked)
    requires start <= a.now && clock <= a.now + skew && a.check != Login
    ensures Spent(settings, skew, After(r, settings, a), start, Max(clock, a.now), t', checked + if Counts(r, a) then 1 else 0)
  {
    t' := t;
    if !Locked(r, a.now) {
      t' := Unlock(settings, skew, r, start, clock, t, checked, a.now);
      if a.check == Wrong {
        if Opens(Loaded(r), settings, a.now) {
          t' := Open(settings, skew, Loaded(r), start, Max(clock, a.now), t', checked, a.now);
        } else {
          Count(settings, skew, Loaded(r), start, Max(clock, a.now), t', checked, a.now);
        }
      }
    }
  }

  /** The latest reading of attempts[lo..hi]. */
  ghost function Latest(attempts: seq<Attempt>, lo: nat, hi: nat): Time
    requires lo < hi <= |attempts|
    decreases hi
  {
    if hi == lo + 1 then attempts[lo].now else Max(Latest(attempts, lo, hi - 1), attempts[hi - 1].now)
  }

  lemma {:induction false} LatestIsOne(attempts: seq<Attempt>, lo: nat, hi: nat)
    requires lo < hi <= |attempts|
    ensures exists i :: lo <= i < hi && attempts[i].now == Latest(attempts, lo, hi)
    decreases hi
  {
    var i := lo;
    if hi > lo + 1 {
      LatestIsOne(attempts, lo, hi - 1);
      i :| lo <= i < hi - 1 && attempts[i].now == Latest(attempts, lo, hi - 1);
    }
    assert attempts[i].now == Latest(attempts, lo, hi) || attempts[hi - 1].now == Latest(attempts, lo, hi);
  }

  lemma {:induction false} SpentOf(settings: Settings, skew: Time, rows: seq<Row>, attempts: seq<Attempt>, lo: nat, hi: nat, start: Time)
    returns (t: Tallies)
    requires Sane(settings, skew) && Run(settings, rows, attempts) && Within(attempts, skew) && lo < hi <= |attempts|
    requires forall i :: lo <= i < hi ==> attempts[i].check != Login && start <= attempts[i].now
    ensures Spent(settings, skew, rows[hi], start, Latest(attempts, lo, hi), t, Checked(rows, attempts, lo, hi))
    decreases hi
  {
    if hi - 1 == lo {
      CounterBelowThresholdOrLocked(settings, rows, attempts, lo);
      assert Checked(rows, attempts, lo, lo) == 0;
      t := OneAttempt(settings, skew, rows[lo], start, attempts[lo].now, Tallies(0, 0, 0), 0, attempts[lo]);
    } else {
      t := SpentOf(settings, skew, rows, attempts, lo, hi - 1, start);
      LatestIsOne(attempts, lo, hi - 1);
      t := OneAttempt(settings, skew, rows[hi - 1], start, Latest(attempts, lo, hi - 1), t, Checked(rows, attempts, lo, hi - 1), attempts[hi - 1]);
    }
  }

  // ---- the bound --------------------------------------------------------------------------------

  /** How many windows can open on a zero counter, and on expiry, in a stretch of time. */
  ghost function OnZero(settings: Settings, skew: Time, period: Time): int
    requires skew < settings.duration
  {
    period / (settings.duration - skew) + 2
  }

  ghost function OnExpiry(settings: Settings, skew: Time, period: Time): int
    requires skew < settings.duration && settings.window > 0
  {
    (period + OnZero(settings, skew, period) * skew) / settings.window + 1
  }

  /** The bound for readings out of order by at most `skew`. */
  ghost function MostChecked(settings: Settings, skew: Time, period: Time): int
    requires skew < settings.duration && settings.window > 0
  {
    settings.threshold * (OnZero(settings, skew, period) + OnExpiry(settings, skew, period) + 1)
  }

  lemma TalliesBounded(settings: Settings, skew: Time, r: Row, start: Time, clock: Time, t: Tallies, checked: nat, period: Time)
    requires Sane(settings, skew) && Spent(settings, skew, r, start, clock, t, checked) && clock <= start + period
    ensures t.onZero <= OnZero(settings, skew, period) && t.onExpiry <= OnExpiry(settings, skew, period)
  {
    var gap := settings.duration - skew;
    Divided(t.resets, gap, period) by {
      if t.resets == 0 {
        assert (t.resets - 1) * gap == -gap;
      }
    }
    var z := OnZero(settings, skew, period);
    assert t.onZero * skew <= z * skew by {
      if skew > 0 {
        ProductsOrder(t.onZero, z, skew);
      }
    }
    Divided(t.onExpiry, settings.window, period + z * skew) by {
      if t.onZero + t.onExpiry == 0 {
        assert (t.onExpiry - 1) * settings.window == -settings.window;
        assert z * skew >= 0;
      }
    }
  }

  lemma InTotal(threshold: nat, a: nat, b: nat, c: int, d: int, checked: nat, last: nat)
    requires checked <= threshold * (a + b) + last && last <= threshold && a <= c && b <= d
    ensures checked <= threshold * (c + d + 1)
  {
    assert threshold * (a + b) <= threshold * (c + d);
    assert threshold * (c + d + 1) == threshold * (c + d) + threshold;
  }

  /**
   With readings at most `skew` out of order, and `skew` less than the lock time, any stretch of time without a
   successful login has only so many wrong attempts checked, whatever is sent.
   */
  lemma FewWrongAttemptsOutOfOrder(settings: Settings, skew: Time, rows: seq<Row>, attempts: seq<Attempt>, lo: nat, hi: nat,
                                   start: Time, period: Time)
    requires Sane(settings, skew) && Run(settings, rows, attempts) && Within(attempts, skew) && lo < hi <= |attempts|
    requires forall i :: lo <= i < hi ==> attempts[i].check != Login && start <= attempts[i].now <= start + period
    ensures Checked(rows, attempts, lo, hi) <= MostChecked(settings, skew, period)
  {
    var t := SpentOf(settings, skew, rows, attempts, lo, hi, start);
    LatestIsOne(attempts, lo, hi);
    var r, checked := rows[hi], Checked(rows, attempts, lo, hi);
    TalliesBounded(settings, skew, r, start, Latest(attempts, lo, hi), t, checked, period);
    InTotal(settings.threshold, t.onZero, t.onExpiry, OnZero(settings, skew, period), OnExpiry(settings, skew, period), checked,
            if r.failedAttempts == 0 then settings.threshold else r.failedAttempts);
  }

  // ---- any stretch of readings ------------------------------------------------------------------

  ghost predicate During(a: Attempt, start: Time, period: Time) {
    start <= a.now <= start + period
  }

  /** Wrong attempts of attempts[lo..hi] that were checked and have their reading in the period. */
  ghost function CheckedDuring(rows: seq<Row>, attempts: seq<Attempt>, lo: nat, hi: nat, start: Time, period: Time): nat
    requires lo <= hi <= |attempts| < |rows|
    decreases hi
  {
    if lo == hi then 0
    else CheckedDuring(rows, attempts, lo, hi - 1, start, period)
         + if Counts(rows[hi - 1], attempts[hi - 1]) && During(attempts[hi - 1], start, period) then 1 else 0
  }

  lemma {:induction false} DuringAreChecked(rows: seq<Row>, attempts: seq<Attempt>, lo: nat, hi: nat, start: Time, period: Time)
    requires lo <= hi <= |attempts| < |rows|
    ensures CheckedDuring(rows, attempts, lo, hi, start, period) <= Checked(rows, attempts, lo, hi)
    decreases hi
  {
    if lo < hi {
      DuringAreChecked(rows, attempts, lo, hi - 1, start, period);
    }
  }

  lemma {:induction false} FirstIsOutside(rows: seq<Row>, attempts: seq<Attempt>, lo: nat, hi: nat, start: Time, period: Time)
    requires lo < hi <= |attempts| < |rows| && !During(attempts[lo], start, period)
    ensures CheckedDuring(rows, attempts, lo, hi, start, period) == CheckedDuring(rows, attempts, lo + 1, hi, start, period)
    decreases hi
  {
    if lo + 1 < hi {
      FirstIsOutside(rows, attempts, lo, hi - 1, start, period);
    } else {
      assert CheckedDuring(rows, attempts, lo, lo, start, period) == 0;
    }
  }

  lemma SomeMayBe(settings: Settings, skew: Time, period: Time)
    requires Sane(settings, skew) && period >= 0
    ensures MostChecked(settings, skew, period) >= 0
  {
    var z := OnZero(settings, skew, period);
    assert z >= 0;
    assert z * skew >= 0;
    assert OnExpiry(settings, skew, period) >= 0;
    InTotal(settings.threshold, 0, 0, z, OnExpiry(settings, skew, period), 0, 0);
  }

  lemma NearTheFirstOrLast(attempts: seq<Attempt>, skew: Time, lo: nat, i: nat, hi: nat, start: Time, period: Time)
    requires Within(attempts, skew) && skew >= 0 && lo <= i < hi <= |attempts|
    requires During(attempts[lo], start, period) && During(attempts[hi - 1], start, period)
    ensures During(attempts[i], start - skew, period + 2 * skew)
  {
    assert attempts[lo].now <= attempts[i].now + skew;
    assert attempts[i].now <= attempts[hi - 1].now + skew;
  }

  /** Between two attempts with readings in the period every reading is at most `skew` outside it. */
  lemma BetweenTwo(settings: Settings, skew: Time, rows: seq<Row>, attempts: seq<Attempt>, lo: nat, hi: nat, start: Time, period: Time)
    requires Sane(settings, skew) && Run(settings, rows, attempts) && Within(attempts, skew) && lo < hi <= |attempts|
    requires During(attempts[lo], start, period) && During(attempts[hi - 1], start, period)
    requires forall i :: lo <= i < hi && During(attempts[i], start - skew, period + 2 * skew) ==> attempts[i].check != Login
    ensures CheckedDuring(rows, attempts, lo, hi, start, period) <= MostChecked(settings, skew, period + 2 * skew)
  {
    forall i | lo <= i < hi
      ensures During(attempts[i], start - skew, period + 2 * skew)
    {
      NearTheFirstOrLast(attempts, skew, lo, i, hi, start, period);
    }
    FewWrongAttemptsOutOfOrder(settings, skew, rows, attempts, lo, hi, start - skew, period + 2 * skew);
    DuringAreChecked(rows, attempts, lo, hi, start, period);
  }

  /**
   Any period: of all attempts ever served, in whatever order, only so many wrong ones with a reading in the period
   are checked, if no reading within `skew` of the period logs in.
   */
  lemma {:induction false} FewWrongReadings(settings: Settings, skew: Time, rows: seq<Row>, attempts: seq<Attempt>, lo: nat, hi: nat,
                                            start: Time, period: Time)
    requires Sane(settings, skew) && Run(settings, rows, attempts) && Within(attempts, skew) && lo <= hi <= |attempts| && period >= 0
    requires forall i :: lo <= i < hi && During(attempts[i], start - skew, period + 2 * skew) ==> attempts[i].check != Login
    ensures CheckedDuring(rows, attempts, lo, hi, start, period) <= MostChecked(settings, skew, period + 2 * skew)
    decreases hi - lo
  {
    if lo == hi {
      SomeMayBe(settings, skew, period + 2 * skew);
    } else if !During(attempts[hi - 1], start, period) {
      FewWrongReadings(settings, skew, rows, attempts, lo, hi - 1, start, period);
    } else if !During(attempts[lo], start, period) {
      FirstIsOutside(rows, attempts, lo, hi, start, period);
      FewWrongReadings(settings, skew, rows, attempts, lo + 1, hi, start, period);
    } else {
      BetweenTwo(settings, skew, rows, attempts, lo, hi, start, period);
    }
  }

  // ---- where there is no bound ------------------------------------------------------------------

  /** A stretch of readings that are all 0 or the lock time, ending in this row. */
  ghost predicate Stretch(settings: Settings, rows: seq<Row>, attempts: seq<Attempt>, last: Row) {
    && Run(settings, rows, attempts) && rows[|rows| - 1] == last && rows[0] == Row(0, 0, None)
    && forall i :: 0 <= i < |attempts| ==> attempts[i].check != Login && (attempts[i].now == 0 || attempts[i].now == settings.duration)
  }

  lemma {:induction false} CheckedBefore(rows: seq<Row>, attempts: seq<Attempt>, r: Row, a: Attempt, hi: nat)
    requires hi <= |attempts| && |rows| == |attempts| + 1
    ensures Checked(rows + [r], attempts + [a], 0, hi) == Checked(rows, attempts, 0, hi)
    decreases hi
  {
    if hi > 0 {
      CheckedBefore(rows, attempts, r, a, hi - 1);
    }
  }

  lemma OneMore(settings: Settings, rows: seq<Row>, attempts: seq<Attempt>, last: Row, a: Attempt)
    requires Stretch(settings, rows, attempts, last) && a.check != Login && (a.now == 0 || a.now == settings.duration)
    ensures Stretch(settings, rows + [After(last, settings, a)], attempts + [a], After(last, settings, a))
    ensures Checked(rows + [After(last, settings, a)], attempts + [a], 0, |attempts| + 1)
            == Checked(rows, attempts, 0, |attempts|) + if Counts(last, a) then 1 else 0
  {
    CheckedBefore(rows, attempts, After(last, settings, a), a, |attempts|);
  }

  /** Failures at reading 0 until the account locks, each of them checked. */
  lemma {:induction false} Fill(settings: Settings, rows: seq<Row>, attempts: seq<Attempt>, n: nat)
    returns (rows': seq<Row>, attempts': seq<Attempt>)
    requires settings.window > 0 && settings.duration > 0 && 1 <= n <= settings.threshold
    requires Stretch(settings, rows, attempts, Row(0, 0, None))
    ensures Stretch(settings, rows', attempts', Row(n, 0, if n == settings.threshold then Some(settings.duration) else None))
    ensures Checked(rows', attempts', 0, |attempts'|) == Checked(rows, attempts, 0, |attempts|) + n
  {
    var before := Row(0, 0, None);
    rows', attempts' := rows, attempts;
    if n > 1 {
      rows', attempts' := Fill(settings, rows, attempts, n - 1);
      before := Row(n - 1, 0, None);
    }
    var after := After(before, settings, Attempt(0, Wrong));
    assert after == Row(n, 0, if n == settings.threshold then Some(settings.duration) else None);
    OneMore(settings, rows', attempts', before, Attempt(0, Wrong));
    rows', attempts' := rows' + [after], attempts' + [Attempt(0, Wrong)];
  }

  /**
   With readings out of order by the lock time there is no bound at all: for every k there is a run whose
   readings are all 0 or the lock time in which k wrong attempts are checked. Late attempts read at 0 lock the
   account only until the lock time, at which a right password (without the second factor) takes the lock off.
   */
  lemma {:induction false} NoBoundOutOfOrder(settings: Settings, k: nat) returns (rows: seq<Row>, attempts: seq<Attempt>)
    requires settings.threshold >= 1 && settings.window > 0 && settings.duration > 0
    ensures Stretch(settings, rows, attempts, Row(0, 0, None)) && Within(attempts, settings.duration)
    ensures Checked(rows, attempts, 0, |attempts|) >= k
  {
    rows, attempts := [Row(0, 0, None)], [];
    if k > 0 {
      rows, attempts := NoBoundOutOfOrder(settings, k - 1);
      rows, attempts := Fill(settings, rows, attempts, settings.threshold);
      var full, a := Row(settings.threshold, 0, Some(settings.duration)), Attempt(settings.duration, Right);
      assert After(full, settings, a) == Row(0, 0, None);
      OneMore(settings, rows, attempts, full, a);
      rows, attempts := rows + [Row(0, 0, None)], attempts + [a];
    }
  }
}
