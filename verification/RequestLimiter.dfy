/** The HTTP request limiter: a fixed-window counter and a timed block per client key.
    Times are nanoseconds of one monotone clock; each handler takes the clock readings
    it makes as parameters, and map operations are atomic. */
module RequestLimiter {
  import opened Basics

  const WINDOW: nat := 60_000_000_000

  datatype Config = Config(maxRequestSize: nat, maxUriLength: nat, maxHeadersCount: nat, maxQueryParams: nat,
                           blockDuration: nat, maxRequestsPerMinute: u32)

  /** What the checks look at. `suspicious` is the verdict of the pattern search. */
  datatype Request = Request(contentLength: Option<nat>, uriLength: nat, headersCount: nat,
                             queryParams: Option<nat>, suspicious: bool)

  datatype SecurityError =
    | IpBlocked | RateLimitExceeded | RequestTooLarge | UriTooLong | TooManyHeaders | TooManyQueryParams
    | SuspiciousRequest

  datatype Outcome = Admitted | Rejected(error: SecurityError)

  /** The readings of one call: `is_ip_blocked`'s, the two of `check_rate_limit`, `block_ip`'s. */
  datatype Clock = Clock(blockCheck: nat, now: nat, later: nat, blockAt: nat) {
    predicate Monotone() {
      blockCheck <= now <= later <= blockAt
    }
  }

  datatype Window = Window(count: nat, start: nat)

  datatype State = State(counts: map<string, Window>, blocked: map<string, nat>)

  // --- One call -----------------------------------------------------------

  predicate Blocked(config: Config, s: State, ip: string, t: nat) {
    ip in s.blocked && t < s.blocked[ip] + config.blockDuration
  }

  function WindowOf(s: State, ip: string, now: nat): Window {
    if ip in s.counts then s.counts[ip] else Window(0, now)
  }

  predicate Expired(s: State, ip: string, now: nat, later: nat) {
    later > WindowOf(s, ip, now).start + WINDOW
  }

  predicate WithinRate(config: Config, s: State, ip: string, now: nat, later: nat) {
    Expired(s, ip, now, later) || WindowOf(s, ip, now).count < config.maxRequestsPerMinute
  }

  /** The counters after a call that reached the rate check. */
  function Counted(config: Config, s: State, ip: string, now: nat, later: nat): map<string, Window> {
    var w := WindowOf(s, ip, now);
    s.counts[ip :=
      if Expired(s, ip, now, later) then Window(1, now)
      else if w.count < config.maxRequestsPerMinute then w.(count := w.count + 1)
      else w]
  }

  /** The checks behind the rate limit, first failure first. */
  function Inspect(config: Config, r: Request): Outcome {
    if r.contentLength.Some? && r.contentLength.value > config.maxRequestSize then Rejected(RequestTooLarge)
    else if r.uriLength > config.maxUriLength then Rejected(UriTooLong)
    else if r.headersCount > config.maxHeadersCount then Rejected(TooManyHeaders)
    else if r.queryParams.Some? && r.queryParams.value > config.maxQueryParams then Rejected(TooManyQueryParams)
    else if r.suspicious then Rejected(SuspiciousRequest)
    else Admitted
  }

  datatype Call = Call(ip: string, request: Request, clock: Clock)

  function Verdict(config: Config, s: State, c: Call): Outcome {
    if Blocked(config, s, c.ip, c.clock.blockCheck) then Rejected(IpBlocked)
    else if !WithinRate(config, s, c.ip, c.clock.now, c.clock.later) then Rejected(RateLimitExceeded)
    else Inspect(config, c.request)
  }

  function After(config: Config, s: State, c: Call): State {
    if Blocked(config, s, c.ip, c.clock.blockCheck) then s
    else State(
      Counted(config, s, c.ip, c.clock.now, c.clock.later),
      if Verdict(config, s, c) == Rejected(SuspiciousRequest) then s.blocked[c.ip := c.clock.blockAt]
      else s.blocked - {c.ip})
  }

  class SecurityManager {
    const config: Config
    var blockedIps: map<string, nat>
    var requestCounts: map<string, Window>

    ghost function Now(): State
      reads this
    {
      State(requestCounts, blockedIps)
    }

    constructor (config: Config)
      ensures this.config == config && Now() == State(map[], map[])
    {
      this.config := config;
      blockedIps, requestCounts := map[], map[];
    }

    method BlockIp(ip: string, now: nat)
      modifies this`blockedIps
      ensures blockedIps == old(blockedIps)[ip := now]
    {
      blockedIps := blockedIps[ip := now];
    }

    method IsIpBlocked(ip: string, now: nat) returns (r: bool)
      modifies this`blockedIps
      ensures r == Blocked(config, old(Now()), ip, now)
      ensures blockedIps == if r then old(blockedIps) else old(blockedIps) - {ip}
    {
      if ip in blockedIps {
        if now < blockedIps[ip] + config.blockDuration {
          return true;
        }
        blockedIps := blockedIps - {ip};
      }
      return false;
    }

    method CheckRateLimit(ip: string, now: nat, later: nat) returns (r: bool)
      modifies this`requestCounts
      ensures r == WithinRate(config, old(Now()), ip, now, later)
      ensures requestCounts == Counted(config, old(Now()), ip, now, later)
    {
      if ip !in requestCounts {
        requestCounts := requestCounts[ip := Window(0, now)];
      }
      var entry := requestCounts[ip];
      if later > entry.start + WINDOW {
        requestCounts := requestCounts[ip := Window(1, now)];
        return true;
      }
      if entry.count >= config.maxRequestsPerMinute {
        return false;
      }
      requestCounts := requestCounts[ip := entry.(count := entry.count + 1)];
      return true;
    }

    method CheckRequest(request: Request, ip: string, clock: Clock) returns (r: Outcome)
      modifies this
      ensures r == Verdict(config, old(Now()), Call(ip, request, clock))
      ensures Now() == After(config, old(Now()), Call(ip, request, clock))
    {
      var blocked := IsIpBlocked(ip, clock.blockCheck);
      if blocked {
        return Rejected(IpBlocked);
      }
      var withinRate := CheckRateLimit(ip, clock.now, clock.later);
      if !withinRate {
        return Rejected(RateLimitExceeded);
      }
      if request.contentLength.Some? && request.contentLength.value > config.maxRequestSize {
        return Rejected(RequestTooLarge);
      }
      if request.uriLength > config.maxUriLength {
        return Rejected(UriTooLong);
      }
      if request.headersCount > config.maxHeadersCount {
        return Rejected(TooManyHeaders);
      }
      if request.queryParams.Some? {
        if request.queryParams.value > config.maxQueryParams {
          return Rejected(TooManyQueryParams);
        }
      }
      if request.suspicious {
        BlockIp(ip, clock.blockAt);
        return Rejected(SuspiciousRequest);
      }
      return Admitted;
    }
  }

  // --- Histories ----------------------------------------------------------

  type History = seq<Call>

  predicate Ordered(h: History) {
    && (forall i :: 0 <= i < |h| ==> h[i].clock.Monotone())
    && (forall i, j :: 0 <= i < j < |h| ==> h[i].clock.blockAt <= h[j].clock.blockCheck)
  }

  function Front(h: History): History
    requires h != []
  {
    h[..|h| - 1]
  }

  function Last(h: History): Call
    requires h != []
  {
    h[|h| - 1]
  }

  function StateAfter(config: Config, h: History): State {
    if h == [] then State(map[], map[]) else After(config, StateAfter(config, Front(h)), Last(h))
  }

  function LastVerdict(config: Config, h: History): Outcome
    requires h != []
  {
    Verdict(config, StateAfter(config, Front(h)), Last(h))
  }

  /** The verdict on the call at position `i`. */
  function VerdictAt(config: Config, h: History, i: nat): Outcome
    requires i < |h|
  {
    Verdict(config, StateAfter(config, h[..i]), h[i])
  }

  predicate Reached(outcome: Outcome) {
    outcome != Rejected(IpBlocked)
  }

  predicate Passed(outcome: Outcome) {
    outcome != Rejected(IpBlocked) && outcome != Rejected(RateLimitExceeded)
  }

  predicate Counts(c: Call, ip: string, from: nat, to: nat) {
    c.ip == ip && from <= c.clock.later <= to
  }

  /** Calls of `ip` decided within [from, to] that got past the rate check. */
  function PassedIn(config: Config, h: History, ip: string, from: nat, to: nat): nat {
    if h == [] then 0
    else if Counts(Last(h), ip, from, to) && Passed(LastVerdict(config, h)) then 1 + PassedIn(config, Front(h), ip, from, to)
    else PassedIn(config, Front(h), ip, from, to)
  }

  /** Calls of `ip` decided within [from, to] that got as far as the rate check. */
  function ReachedIn(config: Config, h: History, ip: string, from: nat, to: nat): nat {
    if h == [] then 0
    else if Counts(Last(h), ip, from, to) && Reached(LastVerdict(config, h)) then 1 + ReachedIn(config, Front(h), ip, from, to)
    else ReachedIn(config, Front(h), ip, from, to)
  }

  /** Calls of `ip` decided within [from, to] that were admitted. */
  function AdmittedIn(config: Config, h: History, ip: string, from: nat, to: nat): nat {
    if h == [] then 0
    else if Counts(Last(h), ip, from, to) && LastVerdict(config, h) == Admitted then 1 + AdmittedIn(config, Front(h), ip, from, to)
    else AdmittedIn(config, Front(h), ip, from, to)
  }

  lemma {:induction false} OneMore(config: Config, h: History, c: Call)
    ensures Front(h + [c]) == h && Last(h + [c]) == c
    ensures StateAfter(config, h + [c]) == After(config, StateAfter(config, h), c)
    ensures LastVerdict(config, h + [c]) == Verdict(config, StateAfter(config, h), c)
  {
    assert Front(h + [c]) == h;
  }

  /** A call of another key, or of a blocked one, does not touch the window of `ip`. */
  predicate Bystands(config: Config, h: History, ip: string)
    requires h != []
  {
    Last(h).ip != ip || LastVerdict(config, h) == Rejected(IpBlocked)
  }

  lemma BystandersKeepWindow(config: Config, h: History, ip: string, from: nat, to: nat)
    requires h != [] && Bystands(config, h, ip)
    ensures var s, s' := StateAfter(config, Front(h)), StateAfter(config, h);
      (ip in s'.counts <==> ip in s.counts) && (ip in s.counts ==> s'.counts[ip] == s.counts[ip])
    ensures PassedIn(config, h, ip, from, to) == PassedIn(config, Front(h), ip, from, to)
  {
  }

  // --- At most twice the limit --------------------------------------------

  /** A reset always lets one call through, even when the limit is zero. */
  function PerWindow(config: Config): nat {
    if config.maxRequestsPerMinute == 0 then 1 else config.maxRequestsPerMinute
  }

  predicate Before(h: History, t: nat) {
    forall i :: 0 <= i < |h| ==> h[i].clock.blockAt <= t
  }

  lemma {:induction false} NonePassed(config: Config, h: History, ip: string, from: nat, to: nat)
    requires forall i :: 0 <= i < |h| ==> h[i].clock.later < from
    ensures PassedIn(config, h, ip, from, to) == 0
  {
    if h != [] {
      NonePassed(config, Front(h), ip, from, to);
    }
  }

  /** The window of `ip` bounds what passed in [from, from + WINDOW]: alone if it began before
      `from`, together with one full earlier window otherwise. */
  ghost predicate Bounded(config: Config, h: History, ip: string, from: nat) {
    var s := StateAfter(config, h);
    var n := PassedIn(config, h, ip, from, from + WINDOW);
    if ip !in s.counts then n == 0
    else
      var w := s.counts[ip];
      && w.count <= PerWindow(config)
      && n <= 2 * PerWindow(config)
      && (w.start < from ==> n <= w.count)
      && (Before(h, from + WINDOW) ==> n <= w.count + PerWindow(config))
  }

  lemma StaysBounded(config: Config, h: History, from: nat)
    requires Ordered(h) && h != [] && !Bystands(config, h, Last(h).ip)
    requires Bounded(config, Front(h), Last(h).ip, from)
    requires Last(h).clock.now < from ==> PassedIn(config, Front(h), Last(h).ip, from, from + WINDOW) == 0
    ensures Bounded(config, h, Last(h).ip, from)
  {
  }

  lemma {:induction false} AlwaysBounded(config: Config, h: History, ip: string, from: nat)
    requires Ordered(h)
    ensures Bounded(config, h, ip, from)
    decreases |h|
  {
    if h != [] {
      AlwaysBounded(config, Front(h), ip, from);
      if Bystands(config, h, ip) {
        BystandersKeepWindow(config, h, ip, from, from + WINDOW);
      } else {
        if Last(h).clock.now < from {
          NonePassed(config, Front(h), ip, from, from + WINDOW);
        }
        StaysBounded(config, h, from);
      }
    }
  }

  /** Every closed interval of 60 seconds sees at most twice the limit of calls of one key
      past the rate check, and so at most that many admitted. */
  lemma {:induction false} AtMostTwice(config: Config, h: History, ip: string, from: nat)
    requires Ordered(h)
    ensures PassedIn(config, h, ip, from, from + 60_000_000_000) <= 2 * PerWindow(config)
    ensures AdmittedIn(config, h, ip, from, from + 60_000_000_000) <= PassedIn(config, h, ip, from, from + 60_000_000_000)
  {
    AlwaysBounded(config, h, ip, from);
    AdmittedPassed(config, h, ip, from, from + WINDOW);
  }

  lemma {:induction false} AdmittedPassed(config: Config, h: History, ip: string, from: nat, to: nat)
    ensures AdmittedIn(config, h, ip, from, to) <= PassedIn(config, h, ip, from, to)
  {
    if h != [] {
      AdmittedPassed(config, Front(h), ip, from, to);
    }
  }

  /** Were each decision made at a single instant, twice the limit minus one would do. */
  ghost predicate SharplyBounded(config: Config, h: History, ip: string, from: nat) {
    var s := StateAfter(config, h);
    var n := PassedIn(config, h, ip, from, from + WINDOW);
    if ip !in s.counts then n == 0
    else
      var w := s.counts[ip];
      && w.count <= PerWindow(config)
      && (config.maxRequestsPerMinute > 0 ==> w.count > 0)
      && n <= 2 * PerWindow(config) - 1
      && (w.start < from ==> n == 0 || n <= w.count - 1)
      && (Before(h, from + WINDOW) ==> n <= w.count + PerWindow(config) - 1)
  }

  lemma StaysSharplyBounded(config: Config, h: History, from: nat)
    requires Ordered(h) && h != [] && Last(h).clock.now == Last(h).clock.later && !Bystands(config, h, Last(h).ip)
    requires SharplyBounded(config, Front(h), Last(h).ip, from)
    requires Last(h).clock.now < from ==> PassedIn(config, Front(h), Last(h).ip, from, from + WINDOW) == 0
    ensures SharplyBounded(config, h, Last(h).ip, from)
  {
  }

  lemma {:induction false} SharpBound(config: Config, h: History, ip: string, from: nat)
    requires Ordered(h)
    requires forall i :: 0 <= i < |h| ==> h[i].clock.now == h[i].clock.later
    ensures SharplyBounded(config, h, ip, from)
    ensures PassedIn(config, h, ip, from, from + WINDOW) <= 2 * PerWindow(config) - 1
    decreases |h|
  {
    if h != [] {
      SharpBound(config, Front(h), ip, from);
      if Bystands(config, h, ip) {
        BystandersKeepWindow(config, h, ip, from, from + WINDOW);
      } else {
        if Last(h).clock.now < from {
          NonePassed(config, Front(h), ip, from, from + WINDOW);
        }
        StaysSharplyBounded(config, h, from);
      }
    }
  }

  // --- When the limit itself holds ----------------------------------------

  /** The last call starts the window of its key anew. */
  predicate Restarts(config: Config, h: History)
    requires h != []
  {
    var c := Last(h);
    Reached(LastVerdict(config, h)) && Expired(StateAfter(config, Front(h)), c.ip, c.clock.now, c.clock.later)
  }

  /** Some call restarts the window of `ip` within [from, to] when one of its calls has already
      passed in that interval. */
  predicate Straddled(config: Config, h: History, ip: string, from: nat, to: nat) {
    h != [] &&
    (Straddled(config, Front(h), ip, from, to)
     || (Counts(Last(h), ip, from, to) && Restarts(config, h) && PassedIn(config, Front(h), ip, from, to) > 0))
  }

  ghost predicate Accounted(config: Config, h: History, ip: string, from: nat) {
    var s := StateAfter(config, h);
    var n := PassedIn(config, h, ip, from, from + WINDOW);
    && n <= PerWindow(config)
    && (ip !in s.counts ==> n == 0)
    && (ip in s.counts ==> s.counts[ip].count <= PerWindow(config))
    && (ip in s.counts && Before(h, from + WINDOW) ==> n <= s.counts[ip].count)
  }

  lemma {:induction false} AlwaysAccounted(config: Config, h: History, ip: string, from: nat)
    requires Ordered(h) && !Straddled(config, h, ip, from, from + WINDOW)
    ensures Accounted(config, h, ip, from)
    decreases |h|
  {
    if h != [] {
      AlwaysAccounted(config, Front(h), ip, from);
      if Last(h).clock.later < from {
        NonePassed(config, Front(h), ip, from, from + WINDOW);
      }
    }
  }

  /** In a closed interval of 60 seconds without such a restart the limit itself holds. */
  lemma {:induction false} WithinLimit(config: Config, h: History, ip: string, from: nat)
    requires Ordered(h) && !Straddled(config, h, ip, from, from + WINDOW)
    ensures PassedIn(config, h, ip, from, from + WINDOW) <= PerWindow(config)
  {
    AlwaysAccounted(config, h, ip, from);
  }

  /** No call of `h` after the first `n` restarts the window of `ip`. */
  predicate NoRestartAfter(config: Config, h: History, n: nat, ip: string) {
    |h| <= n || (!(Last(h).ip == ip && Restarts(config, h)) && NoRestartAfter(config, Front(h), n, ip))
  }

  /** The beginning of the closed 60 seconds before `t`. */
  function MinuteBefore(t: nat): nat {
    if t < WINDOW then 0 else t - WINDOW
  }

  lemma {:induction false} FewerPassed(config: Config, h: History, ip: string, from: nat, to: nat, from': nat, to': nat)
    requires from' <= from && to <= to'
    ensures PassedIn(config, h, ip, from, to) <= PassedIn(config, h, ip, from', to')
  {
    if h != [] {
      FewerPassed(config, Front(h), ip, from, to, from', to');
    }
  }

  lemma {:induction false} UpToNow(config: Config, h: History, ip: string, from: nat, to: nat, t: nat)
    requires Before(h, t) && Ordered(h) && t <= to
    ensures PassedIn(config, h, ip, from, to) == PassedIn(config, h, ip, from, t)
  {
    if h != [] {
      UpToNow(config, Front(h), ip, from, to, t);
    }
  }

  lemma {:induction false} StraddleNeedsPass(config: Config, h: History, ip: string, from: nat, to: nat)
    ensures Straddled(config, h, ip, from, to) ==> PassedIn(config, h, ip, from, to) > 0
  {
    if h != [] {
      StraddleNeedsPass(config, Front(h), ip, from, to);
    }
  }

  /** A continuation without restarts adds no straddle to a history of `n` calls without one. */
  lemma {:induction false} NoNewStraddle(config: Config, h: History, n: nat, ip: string, from: nat, to: nat)
    requires n <= |h| && NoRestartAfter(config, h, n, ip) && !Straddled(config, h[..n], ip, from, to)
    ensures !Straddled(config, h, ip, from, to)
    decreases |h|
  {
    if |h| == n {
      assert h[..n] == h;
    } else {
      assert Front(h)[..n] == h[..n];
      NoNewStraddle(config, Front(h), n, ip, from, to);
    }
  }

  /** `h` ends with a call that restarts its key's window and is admitted, all at one instant. */
  predicate RestartsNow(config: Config, h: History) {
    && Ordered(h) && h != [] && Restarts(config, h) && LastVerdict(config, h) == Admitted
    && Last(h).clock.now == Last(h).clock.blockAt
  }

  /** `g` continues `h` within the window just begun, and some closed 60 seconds around the
      restart see more calls pass than the limit. */
  ghost predicate Overshoots(config: Config, h: History, g: History, from: nat)
    requires h != []
  {
    && Ordered(h + g) && NoRestartAfter(config, h + g, |h|, Last(h).ip)
    && from <= Last(h).clock.later <= from + WINDOW
    && PassedIn(config, h + g, Last(h).ip, from, from + WINDOW) > config.maxRequestsPerMinute
  }

  /** A restart puts the limit at risk exactly when a call of its key passed in the 60 seconds
      before it: then, and only then, can its new window push some minute over the limit. */
  lemma RestartOvershootsExactly(config: Config, h: History)
    requires config.maxRequestsPerMinute > 0 && RestartsNow(config, h)
    ensures var c := Last(h);
      (exists g, from: nat :: Overshoots(config, h, g, from))
      <==> PassedIn(config, Front(h), c.ip, MinuteBefore(c.clock.later), c.clock.later) > 0
  {
    var c := Last(h);
    var t := c.clock.later;
    if PassedIn(config, Front(h), c.ip, MinuteBefore(t), t) > 0 {
      BurstOvershoots(config, h);
    } else {
      forall g, from: nat | Overshoots(config, h, g, from) ensures false {
        QuietRestartHolds(config, h, g, from);
      }
    }
  }

  lemma QuietRestartHolds(config: Config, h: History, g: History, from: nat)
    requires config.maxRequestsPerMinute > 0 && RestartsNow(config, h)
    requires PassedIn(config, Front(h), Last(h).ip, MinuteBefore(Last(h).clock.later), Last(h).clock.later) == 0
    requires Ordered(h + g) && NoRestartAfter(config, h + g, |h|, Last(h).ip)
    requires from <= Last(h).clock.later <= from + WINDOW
    ensures PassedIn(config, h + g, Last(h).ip, from, from + WINDOW) <= config.maxRequestsPerMinute
  {
    var c := Last(h);
    var t := c.clock.later;
    UpToNow(config, Front(h), c.ip, from, from + WINDOW, t);
    FewerPassed(config, Front(h), c.ip, from, t, MinuteBefore(t), t);
    StraddleNeedsPass(config, Front(h), c.ip, from, from + WINDOW);
    assert (h + g)[..|h|] == h;
    NoNewStraddle(config, h + g, |h|, c.ip, from, from + WINDOW);
    WithinLimit(config, h + g, c.ip, from);
  }

  // --- The bound is reached -----------------------------------------------

  /** `h` followed by `n` calls just like `c`. */
  function Burst(h: History, c: Call, n: nat): History {
    if n == 0 then h else Burst(h, c, n - 1) + [c]
  }

  lemma {:induction false} BurstCalls(h: History, c: Call, n: nat)
    ensures |Burst(h, c, n)| == |h| + n
    ensures forall i :: 0 <= i < |h| + n ==> Burst(h, c, n)[i] == if i < |h| then h[i] else c
  {
    if n > 0 {
      BurstCalls(h, c, n - 1);
    }
  }

  /** After `h` the window of `c`'s key stands at `w`, its calls that pass are admitted, and so
      many have passed and been admitted in the 60 seconds from `from`. */
  ghost predicate Stands(config: Config, h: History, c: Call, w: Window, from: nat, passed: nat, admitted: nat) {
    var s := StateAfter(config, h);
    && c.ip !in s.blocked && c.ip in s.counts && s.counts[c.ip] == w
    && Inspect(config, c.request) == Admitted
    && PassedIn(config, h, c.ip, from, from + WINDOW) == passed
    && AdmittedIn(config, h, c.ip, from, from + WINDOW) == admitted
  }

  lemma OneContinues(config: Config, h: History, c: Call, w: Window, from: nat, passed: nat, admitted: nat, m: nat)
    requires Stands(config, h, c, w, from, passed, admitted) && NoRestartAfter(config, h, m, c.ip)
    requires w.count < config.maxRequestsPerMinute && c.clock.later <= w.start + WINDOW
    requires from <= c.clock.later <= from + WINDOW
    ensures Stands(config, h + [c], c, Window(w.count + 1, w.start), from, passed + 1, admitted + 1)
    ensures NoRestartAfter(config, h + [c], m, c.ip)
  {
    OneMore(config, h, c);
  }

  lemma {:induction false} BurstContinues(config: Config, h: History, c: Call, n: nat, w: Window,
                                          from: nat, passed: nat, admitted: nat)
    requires Stands(config, h, c, w, from, passed, admitted)
    requires w.count + n <= config.maxRequestsPerMinute && c.clock.later <= w.start + WINDOW
    requires from <= c.clock.later <= from + WINDOW
    ensures Stands(config, Burst(h, c, n), c, Window(w.count + n, w.start), from, passed + n, admitted + n)
    ensures NoRestartAfter(config, Burst(h, c, n), |h|, c.ip)
  {
    if n > 0 {
      BurstContinues(config, h, c, n - 1, w, from, passed, admitted);
      OneContinues(config, Burst(h, c, n - 1), c, Window(w.count + n - 1, w.start), from, passed + n - 1, admitted + n - 1, |h|);
    }
  }

  lemma {:induction false} BurstOrdered(h: History, c: Call, n: nat)
    requires Ordered(h) && Before(h, c.clock.blockCheck) && c.clock.Monotone() && c.clock.blockCheck == c.clock.blockAt
    ensures Ordered(Burst(h, c, n)) && Before(Burst(h, c, n), c.clock.blockCheck)
  {
    if n > 0 {
      BurstOrdered(h, c, n - 1);
    }
  }

  lemma BurstAppends(h: History, c: Call, n: nat)
    ensures h + Burst([], c, n) == Burst(h, c, n)
  {
    BurstCalls([], c, n);
    BurstCalls(h, c, n);
  }

  /** `c` repeats the restarting call at the instant of the restart. */
  predicate Repeats(h: History, c: Call) {
    h != [] && var t := Last(h).clock.later; c == Call(Last(h).ip, Last(h).request, Clock(t, t, t, t))
  }

  lemma RestartStands(config: Config, h: History, c: Call, from: nat)
    requires RestartsNow(config, h) && Repeats(h, c) && from <= c.clock.later <= from + WINDOW
    ensures var passed := PassedIn(config, Front(h), c.ip, from, from + WINDOW);
      Stands(config, h, c, Window(1, c.clock.later), from, passed + 1, AdmittedIn(config, h, c.ip, from, from + WINDOW))
  {
  }

  lemma StandsPassed(config: Config, h: History, c: Call, w: Window, from: nat, passed: nat, admitted: nat)
    requires Stands(config, h, c, w, from, passed, admitted)
    ensures PassedIn(config, h, c.ip, from, from + WINDOW) == passed
  {
  }

  /** After the restart the window can be filled at once. */
  lemma RestartFills(config: Config, h: History, c: Call, n: nat, from: nat, passed: nat)
    requires config.maxRequestsPerMinute == n + 1 && RestartsNow(config, h) && Repeats(h, c)
    requires from <= c.clock.later <= from + WINDOW && passed == PassedIn(config, Front(h), c.ip, from, from + WINDOW)
    ensures NoRestartAfter(config, Burst(h, c, n), |h|, c.ip)
    ensures PassedIn(config, Burst(h, c, n), c.ip, from, from + WINDOW) == passed + 1 + n
  {
    var admitted := AdmittedIn(config, h, c.ip, from, from + WINDOW);
    RestartStands(config, h, c, from);
    BurstContinues(config, h, c, n, Window(1, c.clock.later), from, passed + 1, admitted);
    StandsPassed(config, Burst(h, c, n), c, Window(1 + n, c.clock.later), from, passed + 1 + n, admitted + n);
  }

  lemma BurstOvershoots(config: Config, h: History)
    requires config.maxRequestsPerMinute > 0 && RestartsNow(config, h)
    requires PassedIn(config, Front(h), Last(h).ip, MinuteBefore(Last(h).clock.later), Last(h).clock.later) > 0
    ensures exists g, from: nat :: Overshoots(config, h, g, from)
  {
    var t := Last(h).clock.later;
    var from := MinuteBefore(t);
    FewerPassed(config, Front(h), Last(h).ip, from, t, from, from + WINDOW);
    var g := FilledOvershoots(config, h, Call(Last(h).ip, Last(h).request, Clock(t, t, t, t)),
                              config.maxRequestsPerMinute - 1, from,
                              PassedIn(config, Front(h), Last(h).ip, from, from + WINDOW));
  }

  lemma FilledOvershoots(config: Config, h: History, c: Call, n: nat, from: nat, passed: nat) returns (g: History)
    requires config.maxRequestsPerMinute == n + 1 && RestartsNow(config, h) && Repeats(h, c)
    requires from <= c.clock.later <= from + WINDOW && passed == PassedIn(config, Front(h), c.ip, from, from + WINDOW) > 0
    ensures Overshoots(config, h, g, from)
  {
    g := Burst([], c, n);
    RestartFills(config, h, c, n, from, passed);
    BurstOrdered(h, c, n);
    BurstAppends(h, c, n);
    Overshoot(config, h, g, Burst(h, c, n), from);
  }

  lemma Overshoot(config: Config, h: History, g: History, all: History, from: nat)
    requires all == h + g && h != [] && Ordered(all) && NoRestartAfter(config, all, |h|, Last(h).ip)
    requires from <= Last(h).clock.later <= from + WINDOW
    requires PassedIn(config, all, Last(h).ip, from, from + WINDOW) > config.maxRequestsPerMinute
    ensures Overshoots(config, h, g, from)
  {
  }

  /** `h`, then one full window: the call that opens it, read at `now` and decided at `t`, and
      as many at `t` as the limit still allows. */
  function FullWindow(config: Config, h: History, ip: string, request: Request, now: nat, t: nat): History
    requires config.maxRequestsPerMinute > 0
  {
    Burst(h + [Call(ip, request, Clock(now, now, t, t))], Call(ip, request, Clock(t, t, t, t)), config.maxRequestsPerMinute - 1)
  }

  /** A full window just before a reset and a full one just after it: for every limit, a
      history in which twice the limit is admitted within 60 seconds. */
  function WorstCase(config: Config, ip: string, request: Request): History
    requires config.maxRequestsPerMinute > 0
  {
    FullWindow(config, FullWindow(config, [], ip, request, 0, 1), ip, request, WINDOW + 1, WINDOW + 1)
  }

  lemma WorstCaseOrdered(config: Config, ip: string, request: Request)
    requires config.maxRequestsPerMinute > 0
    ensures Ordered(WorstCase(config, ip, request))
  {
    var n := config.maxRequestsPerMinute - 1;
    var t := WINDOW + 1;
    var first := Call(ip, request, Clock(0, 0, 1, 1));
    var early := Call(ip, request, Clock(1, 1, 1, 1));
    var late := Call(ip, request, Clock(t, t, t, t));
    BurstCalls([] + [first], early, n);
    BurstCalls(Burst([] + [first], early, n) + [late], late, n);
  }

  lemma TwiceIsReached(config: Config, ip: string, request: Request)
    requires config.maxRequestsPerMinute > 0 && Inspect(config, request) == Admitted
    ensures var h := WorstCase(config, ip, request);
      Ordered(h) && AdmittedIn(config, h, ip, 1, 1 + 60_000_000_000) == 2 * config.maxRequestsPerMinute
  {
    var first := FullWindow(config, [], ip, request, 0, 1);
    WindowAdmitted(config, [], ip, request, 0, 1, 1);
    WindowAdmitted(config, first, ip, request, WINDOW + 1, WINDOW + 1, 1);
    WorstCaseOrdered(config, ip, request);
  }

  /** `ip` is unknown, or its window has expired by `t`. */
  ghost predicate Ready(s: State, ip: string, now: nat, t: nat) {
    ip !in s.blocked && if ip in s.counts then t > s.counts[ip].start + WINDOW else t <= now + WINDOW
  }

  lemma OpensWindow(config: Config, h: History, c: Call, from: nat)
    requires config.maxRequestsPerMinute > 0 && Inspect(config, c.request) == Admitted
    requires Ready(StateAfter(config, h), c.ip, c.clock.now, c.clock.later) && from <= c.clock.later <= from + WINDOW
    ensures var passed, admitted := PassedIn(config, h, c.ip, from, from + WINDOW), AdmittedIn(config, h, c.ip, from, from + WINDOW);
      Stands(config, h + [c], c, Window(1, c.clock.now), from, passed + 1, admitted + 1)
  {
    OneMore(config, h, c);
  }

  lemma WindowAdmitted(config: Config, h: History, ip: string, request: Request, now: nat, t: nat, from: nat)
    requires config.maxRequestsPerMinute > 0 && Inspect(config, request) == Admitted
    requires Ready(StateAfter(config, h), ip, now, t) && from <= t <= from + WINDOW && t <= now + WINDOW
    ensures var s := StateAfter(config, FullWindow(config, h, ip, request, now, t));
      ip !in s.blocked && ip in s.counts && s.counts[ip].start == now
    ensures AdmittedIn(config, FullWindow(config, h, ip, request, now, t), ip, from, from + WINDOW)
         == AdmittedIn(config, h, ip, from, from + WINDOW) + config.maxRequestsPerMinute
  {
    var n := config.maxRequestsPerMinute - 1;
    var first, again := Call(ip, request, Clock(now, now, t, t)), Call(ip, request, Clock(t, t, t, t));
    var passed, admitted := PassedIn(config, h, ip, from, from + WINDOW), AdmittedIn(config, h, ip, from, from + WINDOW);
    OpensWindow(config, h, first, from);
    assert Stands(config, h + [first], again, Window(1, now), from, passed + 1, admitted + 1);
    BurstContinues(config, h + [first], again, n, Window(1, now), from, passed + 1, admitted + 1);
    assert Stands(config, FullWindow(config, h, ip, request, now, t), again, Window(1 + n, now), from, passed + 1 + n, admitted + 1 + n);
  }

  // --- No false rejection -------------------------------------------------

  /** The counter never runs ahead of the calls decided since its window began. */
  lemma {:induction false} CounterIsBacked(config: Config, h: History, ip: string, to: nat)
    requires Ordered(h) && Before(h, to)
    ensures var s := StateAfter(config, h);
      ip in s.counts ==> s.counts[ip].count <= ReachedIn(config, h, ip, s.counts[ip].start, to)
    decreases |h|
  {
    if h != [] {
      CounterIsBacked(config, Front(h), ip, to);
      StartIsPast(config, Front(h), ip);
    }
  }

  /** Calls in the closed interval of 60 seconds from `from`. */
  function ReachedInMinute(config: Config, h: History, ip: string, from: nat): nat {
    ReachedIn(config, h, ip, from, from + WINDOW)
  }

  /** Every rejection by the rate check is earned: some closed interval of 60 seconds holds
      more calls of the key than the limit, so a key that stays within it is always let by. */
  lemma {:induction false} RejectedOnlyAboveLimit(config: Config, h: History)
    requires Ordered(h) && h != [] && LastVerdict(config, h) == Rejected(RateLimitExceeded)
    ensures exists from: nat :: ReachedInMinute(config, h, Last(h).ip, from) > config.maxRequestsPerMinute
  {
    var c := Last(h);
    var s := StateAfter(config, Front(h));
    var start := WindowOf(s, c.ip, c.clock.now).start;
    if c.ip in s.counts {
      CounterIsBacked(config, Front(h), c.ip, c.clock.later);
      Widen(config, Front(h), c.ip, start, c.clock.later, start + WINDOW);
      StartIsPast(config, Front(h), c.ip);
    }
    assert ReachedInMinute(config, h, c.ip, start) > config.maxRequestsPerMinute;
  }

  lemma {:induction false} Widen(config: Config, h: History, ip: string, from: nat, to: nat, to': nat)
    requires to <= to'
    ensures ReachedIn(config, h, ip, from, to) <= ReachedIn(config, h, ip, from, to')
  {
    if h != [] {
      Widen(config, Front(h), ip, from, to, to');
    }
  }

  lemma {:induction false} StartIsPast(config: Config, h: History, ip: string)
    requires Ordered(h)
    ensures var s := StateAfter(config, h); ip in s.counts ==> h != [] && s.counts[ip].start <= Last(h).clock.blockAt
    decreases |h|
  {
    if h != [] {
      StartIsPast(config, Front(h), ip);
    }
  }

  // --- What is admitted ---------------------------------------------------

  predicate SizeFits(config: Config, r: Request) {
    r.contentLength.None? || r.contentLength.value <= config.maxRequestSize
  }

  predicate UriFits(config: Config, r: Request) {
    r.uriLength <= config.maxUriLength
  }

  predicate HeadersFit(config: Config, r: Request) {
    r.headersCount <= config.maxHeadersCount
  }

  predicate QueryFits(config: Config, r: Request) {
    r.queryParams.None? || r.queryParams.value <= config.maxQueryParams
  }

  predicate BoundsHold(config: Config, r: Request) {
    SizeFits(config, r) && UriFits(config, r) && HeadersFit(config, r) && QueryFits(config, r)
  }

  /** Past the block and rate checks a call is admitted exactly when its request keeps all four
      bounds and is not suspicious, and is otherwise rejected for the first thing wrong with it. */
  lemma AdmittedExactly(config: Config, h: History, j: nat)
    requires j < |h| && Passed(VerdictAt(config, h, j))
    ensures var r, v := h[j].request, VerdictAt(config, h, j);
      && (v == Admitted <==> BoundsHold(config, r) && !r.suspicious)
      && (v == Rejected(RequestTooLarge) <==> !SizeFits(config, r))
      && (v == Rejected(UriTooLong) <==> SizeFits(config, r) && !UriFits(config, r))
      && (v == Rejected(TooManyHeaders) <==> SizeFits(config, r) && UriFits(config, r) && !HeadersFit(config, r))
      && (v == Rejected(TooManyQueryParams) <==>
            SizeFits(config, r) && UriFits(config, r) && HeadersFit(config, r) && !QueryFits(config, r))
      && (v == Rejected(SuspiciousRequest) <==> BoundsHold(config, r) && r.suspicious)
  {
  }

  // --- Blocks -------------------------------------------------------------

  /** The history without the calls that met a block. */
  function Unblocked(config: Config, h: History): History {
    if h == [] then []
    else if LastVerdict(config, h) == Rejected(IpBlocked) then Unblocked(config, Front(h))
    else Unblocked(config, Front(h)) + [Last(h)]
  }

  /** Calls made during a block neither extend it nor spend the rate window: without them
      every state, and so every other verdict, is the same. */
  lemma {:induction false} BlockedCallsLeaveNoTrace(config: Config, h: History)
    ensures StateAfter(config, Unblocked(config, h)) == StateAfter(config, h)
  {
    if h != [] {
      BlockedCallsLeaveNoTrace(config, Front(h));
      if LastVerdict(config, h) == Rejected(IpBlocked) {
        BlockedCallChangesNothing(config, h);
      } else {
        OneMore(config, Unblocked(config, Front(h)), Last(h));
      }
    }
  }

  lemma BlockedCallChangesNothing(config: Config, h: History)
    requires h != [] && LastVerdict(config, h) == Rejected(IpBlocked)
    ensures StateAfter(config, h) == StateAfter(config, Front(h))
  {
  }

  /** The call at `k` came as far as the search for patterns, and was suspicious. */
  ghost predicate Suspected(config: Config, h: History, k: nat) {
    && k < |h| && Passed(VerdictAt(config, h, k))
    && BoundsHold(config, h[k].request) && h[k].request.suspicious
  }

  /** Such a call still blocks `ip` at time `t`. */
  ghost predicate Blocks(config: Config, h: History, k: nat, ip: string, t: nat) {
    Suspected(config, h, k) && h[k].ip == ip && t < h[k].clock.blockAt + config.blockDuration
  }

  lemma SameVerdict(config: Config, h: History, k: nat)
    requires k < |h| - 1
    ensures VerdictAt(config, h, k) == VerdictAt(config, Front(h), k)
  {
    assert Front(h)[..k] == h[..k];
  }

  /** Whether some call still does. */
  ghost predicate SomeBlocks(config: Config, h: History, ip: string, t: nat) {
    exists k: nat :: Blocks(config, h, k, ip, t)
  }

  /** The last call or an earlier one. */
  lemma SomeBlocksAfter(config: Config, h: History, ip: string, t: nat)
    requires h != []
    ensures SomeBlocks(config, h, ip, t)
      <==> Blocks(config, h, |h| - 1, ip, t) || SomeBlocks(config, Front(h), ip, t)
  {
    forall k: nat | k < |h| - 1
      ensures Blocks(config, h, k, ip, t) <==> Blocks(config, Front(h), k, ip, t)
    {
      SameVerdict(config, h, k);
    }
    if SomeBlocks(config, h, ip, t) {
      var k: nat :| Blocks(config, h, k, ip, t);
      assert k < |h| - 1 ==> Blocks(config, Front(h), k, ip, t);
    }
    if SomeBlocks(config, Front(h), ip, t) {
      var k: nat :| Blocks(config, Front(h), k, ip, t);
      assert Blocks(config, h, k, ip, t);
    }
  }

  /** The block table says exactly which keys a past suspicious request still blocks. */
  lemma {:induction false} BlockTable(config: Config, h: History, ip: string, t: nat)
    requires Ordered(h) && Before(h, t)
    ensures Blocked(config, StateAfter(config, h), ip, t) <==> SomeBlocks(config, h, ip, t)
    decreases |h|
  {
    if h != [] {
      BlockTable(config, Front(h), ip, t);
      SomeBlocksAfter(config, h, ip, t);
      LastCallBlocks(config, h, ip, t);
    }
  }

  /** A call of the key leaves a block if it is suspicious, or if it met one. */
  lemma LastCallBlocks(config: Config, h: History, ip: string, t: nat)
    requires Ordered(h) && Before(h, t) && h != []
    ensures Blocked(config, StateAfter(config, h), ip, t)
      <==> Blocks(config, h, |h| - 1, ip, t) || Blocked(config, StateAfter(config, Front(h)), ip, t)
  {
    assert h[..|h| - 1] == Front(h);
  }

  /** A call is turned away as blocked exactly when an earlier suspicious request of its key
      is less than the block duration old. */
  lemma BlockedExactly(config: Config, h: History, j: nat)
    requires Ordered(h) && j < |h|
    ensures VerdictAt(config, h, j) == Rejected(IpBlocked)
      <==> exists k: nat :: k < j && Blocks(config, h[..j], k, h[j].ip, h[j].clock.blockCheck)
  {
    BlockTable(config, h[..j], h[j].ip, h[j].clock.blockCheck);
  }

  lemma SuspectedBefore(config: Config, h: History, i: nat, j: nat)
    requires i < j <= |h|
    ensures Suspected(config, h[..j], i) <==> Suspected(config, h, i)
  {
    assert h[..j][..i] == h[..i];
  }

  /** Of the earlier suspicious calls of a key the last one blocks longest. */
  lemma LastBlocksLongest(config: Config, h: History, i: nat, k: nat, j: nat, t: nat)
    requires Ordered(h) && k < j < |h| && i < j && Blocks(config, h[..j], i, h[j].ip, t)
    requires forall l: nat :: k < l < j && h[l].ip == h[j].ip ==> !Suspected(config, h, l)
    ensures t < h[k].clock.blockAt + config.blockDuration
  {
    SuspectedBefore(config, h, i, j);
    assert h[..j][i] == h[i];
    assert i <= k;
    assert h[i].clock.blockAt <= h[k].clock.blockAt;
  }

  /** A suspicious call blocks every later call of its key for exactly the block duration, if no
      other one comes between. */
  lemma SuspicionBlocks(config: Config, h: History, k: nat, j: nat)
    requires Ordered(h) && k < j < |h| && h[k].ip == h[j].ip && Suspected(config, h, k)
    requires forall l: nat :: k < l < j && h[l].ip == h[j].ip ==> !Suspected(config, h, l)
    ensures VerdictAt(config, h, j) == Rejected(IpBlocked)
      <==> h[j].clock.blockCheck < h[k].clock.blockAt + config.blockDuration
  {
    var t := h[j].clock.blockCheck;
    BlockedExactly(config, h, j);
    if t < h[k].clock.blockAt + config.blockDuration {
      SuspectedBefore(config, h, k, j);
      assert Blocks(config, h[..j], k, h[j].ip, t);
    }
    forall i: nat | i < j && Blocks(config, h[..j], i, h[j].ip, t)
      ensures t < h[k].clock.blockAt + config.blockDuration
    {
      LastBlocksLongest(config, h, i, k, j, t);
    }
  }
}
