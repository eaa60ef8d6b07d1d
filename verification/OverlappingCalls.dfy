/** The rate check when calls of one key overlap. The key's map entry is locked while a check
    reads the clock a second time and decides, so decisions are ordered; the first reading may
    be older than decisions already taken, by at most `lag`. */
module OverlappingCalls {
  import opened Basics
  import opened RequestLimiter

  datatype Reading = Reading(now: nat, later: nat)

  predicate InLockOrder(readings: seq<Reading>, lag: nat) {
    && (forall i :: 0 <= i < |readings| ==> readings[i].now <= readings[i].later <= readings[i].now + lag)
    && (forall i, j :: 0 <= i < j < |readings| ==> readings[i].later <= readings[j].later)
  }

  function Back(readings: seq<Reading>): seq<Reading>
    requires readings != []
  {
    readings[..|readings| - 1]
  }

  function End(readings: seq<Reading>): Reading
    requires readings != []
  {
    readings[|readings| - 1]
  }

  /** The limiter's state in which only this key's window matters. */
  function StateOf(config: Config, key: string, readings: seq<Reading>): State {
    if readings == [] then State(map[], map[])
    else
      var s := StateOf(config, key, Back(readings));
      s.(counts := Counted(config, s, key, End(readings).now, End(readings).later))
  }

  predicate LastPasses(config: Config, key: string, readings: seq<Reading>)
    requires readings != []
  {
    WithinRate(config, StateOf(config, key, Back(readings)), key, End(readings).now, End(readings).later)
  }

  /** Checks decided within [from, to] that passed. */
  function Passing(config: Config, key: string, readings: seq<Reading>, from: nat, to: nat): nat {
    if readings == [] then 0
    else if from <= End(readings).later <= to && LastPasses(config, key, readings) then
      1 + Passing(config, key, Back(readings), from, to)
    else Passing(config, key, Back(readings), from, to)
  }

  /** Checks decided within [from, to]. */
  function Deciding(readings: seq<Reading>, from: nat, to: nat): nat {
    if readings == [] then 0
    else if from <= End(readings).later <= to then 1 + Deciding(Back(readings), from, to)
    else Deciding(Back(readings), from, to)
  }

  lemma {:induction false} FewerPassing(config: Config, key: string, readings: seq<Reading>, from: nat, to: nat, from': nat, to': nat)
    requires forall i :: 0 <= i < |readings| && from <= readings[i].later <= to ==> from' <= readings[i].later <= to'
    ensures Passing(config, key, readings, from, to) <= Passing(config, key, readings, from', to')
  {
    if readings != [] {
      FewerPassing(config, key, Back(readings), from, to, from', to');
    }
  }

  lemma {:induction false} NonePassing(config: Config, key: string, readings: seq<Reading>, from: nat, to: nat)
    requires forall i :: 0 <= i < |readings| ==> readings[i].later < from
    ensures Passing(config, key, readings, from, to) == 0
  {
    if readings != [] {
      NonePassing(config, key, Back(readings), from, to);
    }
  }

  // --- When twice the limit holds -----------------------------------------

  /** The last check starts the window anew, and dates it before the decision of an earlier
      check that passed. */
  predicate Backdates(config: Config, key: string, readings: seq<Reading>)
    requires readings != []
  {
    var r := End(readings);
    Expired(StateOf(config, key, Back(readings)), key, r.now, r.later)
    && Passing(config, key, Back(readings), r.now + 1, r.later) > 0
  }

  /** None of the checks after the first `n` does so. */
  predicate NoneBackdates(config: Config, key: string, readings: seq<Reading>, n: nat) {
    |readings| <= n || (!Backdates(config, key, readings) && NoneBackdates(config, key, Back(readings), n))
  }

  /** The window bounds what passed in [from, from + WINDOW]: alone if it began before `from`,
      together with one full earlier window otherwise. */
  ghost predicate Bounded(config: Config, key: string, readings: seq<Reading>, from: nat) {
    var s := StateOf(config, key, readings);
    var n := Passing(config, key, readings, from, from + WINDOW);
    var p := PerWindow(config);
    if key !in s.counts then n == 0
    else
      var w := s.counts[key];
      && w.count <= p && n <= 2 * p
      && (readings != [] && End(readings).later <= from + WINDOW ==>
            n <= w.count + p && (w.start < from ==> n <= w.count))
  }

  lemma StaysBounded(config: Config, key: string, readings: seq<Reading>, from: nat, lag: nat)
    requires InLockOrder(readings, lag) && readings != [] && Bounded(config, key, Back(readings), from)
    requires var r := End(readings);
      Expired(StateOf(config, key, Back(readings)), key, r.now, r.later) && r.now < from ==>
        Passing(config, key, Back(readings), from, from + WINDOW) == 0
    ensures Bounded(config, key, readings, from)
  {
  }

  lemma {:induction false} AlwaysBounded(config: Config, key: string, readings: seq<Reading>, from: nat, lag: nat)
    requires InLockOrder(readings, lag) && NoneBackdates(config, key, readings, 0)
    ensures Bounded(config, key, readings, from)
    decreases |readings|
  {
    if readings != [] {
      AlwaysBounded(config, key, Back(readings), from, lag);
      var r := End(readings);
      if r.later < from {
        NonePassing(config, key, Back(readings), from, from + WINDOW);
      } else if r.now < from {
        FewerPassing(config, key, Back(readings), from, from + WINDOW, r.now + 1, r.later);
      }
      StaysBounded(config, key, readings, from, lag);
    }
  }

  /** As long as no restart is dated before an earlier pass, twice the limit bounds every closed
      interval of 60 seconds, however long a check takes. */
  lemma AtMostTwice(config: Config, key: string, readings: seq<Reading>, from: nat, lag: nat)
    requires InLockOrder(readings, lag) && NoneBackdates(config, key, readings, 0)
    ensures Passing(config, key, readings, from, from + WINDOW) <= 2 * PerWindow(config)
  {
    AlwaysBounded(config, key, readings, from, lag);
  }

  /** `more` continues `readings` without such a restart, and more than twice the limit pass
      within 60 seconds. */
  ghost predicate Exceeds(config: Config, key: string, readings: seq<Reading>, lag: nat, more: seq<Reading>, from: nat) {
    && InLockOrder(readings + more, lag) && NoneBackdates(config, key, readings + more, |readings|)
    && Passing(config, key, readings + more, from, from + WINDOW) > 2 * config.maxRequestsPerMinute
  }

  /** The first check that may be so dated decides: the checks up to it can be continued beyond
      twice the limit if and only if it is. */
  lemma BackdatingExceedsExactly(config: Config, key: string, readings: seq<Reading>, lag: nat)
    requires config.maxRequestsPerMinute > 0 && lag <= WINDOW
    requires InLockOrder(readings, lag) && readings != [] && NoneBackdates(config, key, Back(readings), 0)
    ensures (exists more, from: nat :: Exceeds(config, key, readings, lag, more, from)) <==> Backdates(config, key, readings)
  {
    if Backdates(config, key, readings) {
      BackdatingExceeds(config, key, readings, lag);
    } else {
      forall more, from: nat | Exceeds(config, key, readings, lag, more, from) ensures false {
        NoneBackdatesJoins(config, key, readings, more);
        AtMostTwice(config, key, readings + more, from, lag);
      }
    }
  }

  lemma {:induction false} NoneBackdatesJoins(config: Config, key: string, readings: seq<Reading>, more: seq<Reading>)
    requires NoneBackdates(config, key, readings, 0) && NoneBackdates(config, key, readings + more, |readings|)
    ensures NoneBackdates(config, key, readings + more, 0)
    decreases |more|
  {
    if more == [] {
      assert readings + more == readings;
    } else {
      assert Back(readings + more) == readings + Back(more);
      NoneBackdatesJoins(config, key, readings, Back(more));
    }
  }

  // --- Three times the limit, less one ------------------------------------

  /** Two windows can begin within 60 seconds but not three, and the check that opened the window
      before them was decided too early to count. */
  ghost predicate Phased(config: Config, key: string, readings: seq<Reading>, from: nat, lag: nat) {
    var s := StateOf(config, key, readings);
    var n := Passing(config, key, readings, from, from + WINDOW);
    var p := PerWindow(config);
    if key !in s.counts then n == 0
    else
      var w := s.counts[key];
      && w.count <= p && n <= 3 * p - 1
      && (readings != [] && End(readings).later <= from + WINDOW ==>
            && (w.start + lag < from ==> n == 0 || n < w.count)
            && (w.start < from ==> n < p + w.count || n == 0)
            && (from <= w.start ==> n < 2 * p + w.count))
  }

  lemma {:induction false} AlwaysPhased(config: Config, key: string, readings: seq<Reading>, from: nat, lag: nat)
    requires InLockOrder(readings, lag) && 2 * lag <= WINDOW
    ensures Phased(config, key, readings, from, lag)
    decreases |readings|
  {
    if readings != [] {
      AlwaysPhased(config, key, Back(readings), from, lag);
      if End(readings).later < from {
        NonePassing(config, key, Back(readings), from, from + WINDOW);
      }
    }
  }

  /** When the two readings of a check lie at most 30 seconds apart, every closed interval of
      60 seconds sees fewer than three times the limit pass, overlap or not. */
  lemma FewerThanThreeTimes(config: Config, key: string, readings: seq<Reading>, from: nat, lag: nat)
    requires InLockOrder(readings, lag) && 2 * lag <= WINDOW
    ensures Passing(config, key, readings, from, from + WINDOW) <= 3 * PerWindow(config) - 1
  {
    AlwaysPhased(config, key, readings, from, lag);
  }

  // --- Continuing a window ------------------------------------------------

  ghost predicate Stands(config: Config, key: string, readings: seq<Reading>, window: Window, from: nat, passed: nat) {
    var s := StateOf(config, key, readings);
    key in s.counts && s.counts[key] == window && Passing(config, key, readings, from, from + WINDOW) == passed
  }

  /** `readings`, then `n` checks made at the instant `t`. */
  function Burst(readings: seq<Reading>, t: nat, n: nat): seq<Reading> {
    if n == 0 then readings else Burst(readings, t, n - 1) + [Reading(t, t)]
  }

  lemma {:induction false} BurstChecks(readings: seq<Reading>, t: nat, n: nat)
    ensures Burst(readings, t, n) == readings + seq(n, _ => Reading(t, t))
  {
    if n > 0 {
      BurstChecks(readings, t, n - 1);
      assert seq(n, _ => Reading(t, t)) == seq(n - 1, _ => Reading(t, t)) + [Reading(t, t)];
    }
  }

  predicate DecidedBy(readings: seq<Reading>, t: nat) {
    forall i :: 0 <= i < |readings| ==> readings[i].later <= t
  }

  lemma BurstDecided(readings: seq<Reading>, t: nat, n: nat, end: nat)
    requires DecidedBy(readings, t) && t <= end
    ensures DecidedBy(Burst(readings, t, n), end)
  {
    BurstChecks(readings, t, n);
  }

  lemma BurstInLockOrder(readings: seq<Reading>, t: nat, n: nat, lag: nat)
    requires InLockOrder(readings, lag) && DecidedBy(readings, t)
    ensures InLockOrder(Burst(readings, t, n), lag) && DecidedBy(Burst(readings, t, n), t)
  {
    BurstChecks(readings, t, n);
  }

  lemma OneInLockOrder(readings: seq<Reading>, r: Reading, lag: nat)
    requires InLockOrder(readings, lag) && DecidedBy(readings, r.later) && r.now <= r.later <= r.now + lag
    ensures InLockOrder(readings + [r], lag) && DecidedBy(readings + [r], r.later)
  {
  }

  lemma Opens(config: Config, key: string, from: nat)
    requires config.maxRequestsPerMinute > 0 && from > 0
    ensures Stands(config, key, [Reading(0, 0)], Window(1, 0), from, 0)
  {
    assert Back([Reading(0, 0)]) == [];
  }

  lemma Continues(config: Config, key: string, readings: seq<Reading>, t: nat, w: Window, from: nat, passed: nat)
    requires Stands(config, key, readings, w, from, passed) && from <= t <= from + WINDOW
    requires w.count < config.maxRequestsPerMinute && t <= w.start + WINDOW
    ensures Stands(config, key, readings + [Reading(t, t)], Window(w.count + 1, w.start), from, passed + 1)
    ensures !Backdates(config, key, readings + [Reading(t, t)])
  {
    assert Back(readings + [Reading(t, t)]) == readings;
  }

  lemma Reopens(config: Config, key: string, readings: seq<Reading>, r: Reading, w: Window, from: nat, passed: nat)
    requires Stands(config, key, readings, w, from, passed) && from <= r.later <= from + WINDOW
    requires r.later > w.start + WINDOW
    ensures Stands(config, key, readings + [r], Window(1, r.now), from, passed + 1)
  {
    assert Back(readings + [r]) == readings;
  }

  /** A window can be filled within one instant. */
  lemma {:induction false} BurstContinues(config: Config, key: string, readings: seq<Reading>, t: nat, n: nat, w: Window,
                                          from: nat, passed: nat, m: nat)
    requires Stands(config, key, readings, w, from, passed) && from <= t <= from + WINDOW
    requires w.count + n <= config.maxRequestsPerMinute && t <= w.start + WINDOW
    requires NoneBackdates(config, key, readings, m)
    ensures Stands(config, key, Burst(readings, t, n), Window(w.count + n, w.start), from, passed + n)
    ensures NoneBackdates(config, key, Burst(readings, t, n), m)
    decreases n
  {
    if n > 0 {
      var before := Burst(readings, t, n - 1);
      BurstContinues(config, key, readings, t, n - 1, w, from, passed, m);
      Continues(config, key, before, t, Window(w.count + n - 1, w.start), from, passed + n - 1);
      assert Back(before + [Reading(t, t)]) == before;
    }
  }

  /** Once the window has run out it is begun anew at `t` and filled. */
  function NextWindow(config: Config, readings: seq<Reading>, t: nat): seq<Reading>
    requires config.maxRequestsPerMinute > 0
  {
    Burst(readings + [Reading(t, t)], t, config.maxRequestsPerMinute - 1)
  }

  lemma NextWindowStands(config: Config, key: string, readings: seq<Reading>, w: Window, from: nat, passed: nat, t: nat, m: nat)
    requires config.maxRequestsPerMinute > 0 && Stands(config, key, readings, w, from, passed)
    requires from <= t <= from + WINDOW && t > w.start + WINDOW && NoneBackdates(config, key, readings, m) && DecidedBy(readings, t)
    ensures var max, all := config.maxRequestsPerMinute, NextWindow(config, readings, t);
      Stands(config, key, all, Window(max, t), from, passed + max) && NoneBackdates(config, key, all, m)
  {
    var n, restarted := config.maxRequestsPerMinute - 1, readings + [Reading(t, t)];
    assert Back(restarted) == readings;
    Reopens(config, key, readings, Reading(t, t), w, from, passed);
    NonePassing(config, key, readings, t + 1, t);
    BurstContinues(config, key, restarted, t, n, Window(1, t), from, passed + 1, m);
  }

  /** The window just begun is filled at once, and another one at the end of the 60 seconds. */
  function TwoWindows(config: Config, readings: seq<Reading>, t: nat, end: nat): seq<Reading>
    requires config.maxRequestsPerMinute > 0
  {
    NextWindow(config, Burst(readings, t, config.maxRequestsPerMinute - 1), end)
  }

  lemma TwoWindowsStand(config: Config, key: string, readings: seq<Reading>, t: nat, start: nat, from: nat, passed: nat)
    requires config.maxRequestsPerMinute > 0 && Stands(config, key, readings, Window(1, start), from, passed)
    requires from == start + 1 && from <= t < from + WINDOW && DecidedBy(readings, t)
    ensures var max, all := config.maxRequestsPerMinute, TwoWindows(config, readings, t, from + WINDOW);
      && NoneBackdates(config, key, all, |readings|)
      && Stands(config, key, all, Window(max, from + WINDOW), from, passed + 2 * max - 1)
  {
    var n := config.maxRequestsPerMinute - 1;
    BurstContinues(config, key, readings, t, n, Window(1, start), from, passed, |readings|);
    BurstDecided(readings, t, n, from + WINDOW);
    NextWindowStands(config, key, Burst(readings, t, n), Window(1 + n, start), from, passed + n, from + WINDOW, |readings|);
  }

  lemma TwoWindowsInOrder(config: Config, readings: seq<Reading>, t: nat, end: nat, lag: nat)
    requires config.maxRequestsPerMinute > 0 && InLockOrder(readings, lag)
    requires DecidedBy(readings, t) && t <= end
    ensures InLockOrder(TwoWindows(config, readings, t, end), lag)
  {
    var n := config.maxRequestsPerMinute - 1;
    var full := Burst(readings, t, n);
    BurstInLockOrder(readings, t, n, lag);
    OneInLockOrder(full, Reading(end, end), lag);
    BurstInLockOrder(full + [Reading(end, end)], end, n, lag);
  }

  lemma TwoWindowsContinue(config: Config, readings: seq<Reading>, t: nat, end: nat) returns (more: seq<Reading>)
    requires config.maxRequestsPerMinute > 0
    ensures TwoWindows(config, readings, t, end) == readings + more
  {
    var n := config.maxRequestsPerMinute - 1;
    BurstChecks(readings, t, n);
    BurstChecks(Burst(readings, t, n) + [Reading(end, end)], end, n);
    more := seq(n, _ => Reading(t, t)) + [Reading(end, end)] + seq(n, _ => Reading(end, end));
  }

  lemma BackdatedStands(config: Config, key: string, readings: seq<Reading>, lag: nat) returns (passed: nat)
    requires InLockOrder(readings, lag) && lag <= WINDOW && readings != [] && Backdates(config, key, readings)
    ensures var r := End(readings);
      r.now < r.later && passed > 1 && Stands(config, key, readings, Window(1, r.now), r.now + 1, passed)
  {
    var r := End(readings);
    var from := r.now + 1;
    if r.later < from {
      NonePassing(config, key, Back(readings), from, r.later);
    }
    FewerPassing(config, key, Back(readings), from, r.later, from, from + WINDOW);
    passed := 1 + Passing(config, key, Back(readings), from, from + WINDOW);
  }

  lemma BackdatingExceeds(config: Config, key: string, readings: seq<Reading>, lag: nat)
    requires config.maxRequestsPerMinute > 0 && lag <= WINDOW
    requires InLockOrder(readings, lag) && readings != [] && Backdates(config, key, readings)
    ensures exists more, from: nat :: Exceeds(config, key, readings, lag, more, from)
  {
    var r := End(readings);
    var passed := BackdatedStands(config, key, readings, lag);
    TwoWindowsExceed(config, key, readings, r.later, r.now, passed, lag);
  }

  lemma TwoWindowsExceed(config: Config, key: string, readings: seq<Reading>, t: nat, start: nat, passed: nat, lag: nat)
    requires config.maxRequestsPerMinute > 0 && InLockOrder(readings, lag) && DecidedBy(readings, t)
    requires start < t <= start + WINDOW && passed > 1 && Stands(config, key, readings, Window(1, start), start + 1, passed)
    ensures exists more, from: nat :: Exceeds(config, key, readings, lag, more, from)
  {
    var end := start + 1 + WINDOW;
    TwoWindowsStand(config, key, readings, t, start, start + 1, passed);
    TwoWindowsInOrder(config, readings, t, end, lag);
    var more := TwoWindowsContinue(config, readings, t, end);
    assert Exceeds(config, key, readings, lag, more, start + 1);
  }

  /** A window opened at 0 and filled at its very end, then a restart that reads the clock one
      nanosecond before and is decided one after. */
  function FirstWindow(config: Config): seq<Reading>
    requires config.maxRequestsPerMinute > 0
  {
    Burst([Reading(0, 0)], WINDOW, config.maxRequestsPerMinute - 1) + [Reading(WINDOW - 1, WINDOW + 1)]
  }

  function WorstCase(config: Config): seq<Reading>
    requires config.maxRequestsPerMinute > 0
  {
    TwoWindows(config, FirstWindow(config), WINDOW + 1, WINDOW + WINDOW)
  }

  lemma FirstWindowStands(config: Config, key: string)
    requires config.maxRequestsPerMinute > 0
    ensures Stands(config, key, FirstWindow(config), Window(1, WINDOW - 1), WINDOW, config.maxRequestsPerMinute)
  {
    var n := config.maxRequestsPerMinute - 1;
    Opens(config, key, WINDOW);
    BurstContinues(config, key, [Reading(0, 0)], WINDOW, n, Window(1, 0), WINDOW, 0, 1);
    Reopens(config, key, Burst([Reading(0, 0)], WINDOW, n), Reading(WINDOW - 1, WINDOW + 1), Window(1 + n, 0), WINDOW, n);
  }

  lemma FirstWindowInOrder(config: Config)
    requires config.maxRequestsPerMinute > 0
    ensures InLockOrder(FirstWindow(config), 2) && DecidedBy(FirstWindow(config), WINDOW + 1)
  {
    BurstInLockOrder([Reading(0, 0)], WINDOW, config.maxRequestsPerMinute - 1, 2);
    OneInLockOrder(Burst([Reading(0, 0)], WINDOW, config.maxRequestsPerMinute - 1), Reading(WINDOW - 1, WINDOW + 1), 2);
  }

  /** The bound is reached for every limit, by readings at most two nanoseconds apart. */
  lemma ThreeTimesLessOneIsReached(config: Config, key: string)
    requires config.maxRequestsPerMinute > 0
    ensures InLockOrder(WorstCase(config), 2)
    ensures Passing(config, key, WorstCase(config), WINDOW, WINDOW + WINDOW) == 3 * config.maxRequestsPerMinute - 1
  {
    FirstWindowStands(config, key);
    FirstWindowInOrder(config);
    TwoWindowsStand(config, key, FirstWindow(config), WINDOW + 1, WINDOW - 1, WINDOW, config.maxRequestsPerMinute);
    TwoWindowsInOrder(config, FirstWindow(config), WINDOW + 1, WINDOW + WINDOW, 2);
  }

  // --- Rejections ---------------------------------------------------------

  lemma {:induction false} CounterIsBacked(config: Config, key: string, readings: seq<Reading>, to: nat, lag: nat)
    requires InLockOrder(readings, lag) && forall i :: 0 <= i < |readings| ==> readings[i].later <= to
    ensures var s := StateOf(config, key, readings);
      key in s.counts ==>
        && readings != [] && s.counts[key].start <= End(readings).later
        && s.counts[key].count <= Deciding(readings, s.counts[key].start, to)
    decreases |readings|
  {
    if readings != [] {
      CounterIsBacked(config, key, Back(readings), to, lag);
    }
  }

  lemma {:induction false} Widen(readings: seq<Reading>, from: nat, to: nat, to': nat)
    requires to <= to'
    ensures Deciding(readings, from, to) <= Deciding(readings, from, to')
  {
    if readings != [] {
      Widen(Back(readings), from, to, to');
    }
  }

  /** Checks in the closed interval of 60 seconds from `from`. */
  function InMinute(readings: seq<Reading>, from: nat): nat {
    Deciding(readings, from, from + WINDOW)
  }

  /** Overlap or not, every rejection is earned: some closed interval of 60 seconds holds more
      checks of the key than the limit. */
  lemma RejectedOnlyAboveLimit(config: Config, key: string, readings: seq<Reading>, lag: nat)
    requires InLockOrder(readings, lag) && readings != [] && !LastPasses(config, key, readings)
    ensures exists from: nat :: InMinute(readings, from) > config.maxRequestsPerMinute
  {
    var s := StateOf(config, key, Back(readings));
    var r := End(readings);
    var start := WindowOf(s, key, r.now).start;
    if key in s.counts {
      CounterIsBacked(config, key, Back(readings), r.later, lag);
      Widen(Back(readings), start, r.later, start + WINDOW);
    }
    assert InMinute(readings, start) > config.maxRequestsPerMinute;
  }
}
