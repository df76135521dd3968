/**
 The limiter of failed logins to the admin API (internal/api/admin/admin.go): per address the times
 of recent failures, a check before each attempt, and a periodic cleanup. A login is checked, then
 compared, then recorded, with the lock released in between, so calls overlap.
 */
module Limiter {

  type Time = int
  type Table = map<string, seq<Time>>

  const MINUTE: Time := 60_000_000_000
  const LIMIT := 10
  const BEARER := "Bearer "

  // ---- The window ----

  /** The attempts after the cutoff, in order. */
  function Recent(attempts: seq<Time>, now: Time): seq<Time> {
    if attempts == [] then []
    else
      var front, last := Recent(attempts[..|attempts| - 1], now), attempts[|attempts| - 1];
      if last > now - MINUTE then front + [last] else front
  }

  function Get(t: Table, ip: string): seq<Time> {
    if ip in t then t[ip] else []
  }

  predicate Allows(t: Table, ip: string, now: Time) {
    |Recent(Get(t, ip), now)| < LIMIT
  }

  /** Ten failures block for exactly a minute. */
  lemma BlockedAMinute(ip: string, now: Time)
    requires now >= 0
    ensures Allows(map[ip := [0, 0, 0, 0, 0, 0, 0, 0, 0, 0]], ip, now) <==> now >= 60_000_000_000
  {
    var all := [0, 0, 0, 0, 0, 0, 0, 0, 0, 0];
    AllOrNone(all, 0, now);
  }

  lemma {:induction false} AllOrNone(attempts: seq<Time>, at: Time, now: Time)
    requires forall i :: 0 <= i < |attempts| ==> attempts[i] == at
    ensures Recent(attempts, now) == if at > now - 60_000_000_000 then attempts else []
  {
    if attempts == [] {
    } else {
      var front := attempts[..|attempts| - 1];
      AllOrNone(front, at, now);
      assert attempts == front + [attempts[|attempts| - 1]];
    }
  }

  // ---- The operations ----

  function Checked(t: Table, ip: string, now: Time): Table {
    t[ip := Recent(Get(t, ip), now)]
  }

  function Failed(t: Table, ip: string, now: Time): Table {
    t[ip := Get(t, ip) + [now]]
  }

  function Cleaned(t: Table, now: Time): Table {
    map ip | ip in t && Recent(t[ip], now) != [] :: Recent(t[ip], now)
  }

  class Handler {
    var lastAttempts: Table

    /** The loop that drops what is too old. */
    static method Prune(attempts: seq<Time>, now: Time) returns (recent: seq<Time>)
      ensures recent == Recent(attempts, now)
    {
      var cutoff := now - MINUTE;
      recent := [];
      for i := 0 to |attempts|
        invariant recent == Recent(attempts[..i], now)
      {
        assert attempts[..i + 1][..i] == attempts[..i];
        if attempts[i] > cutoff {
          recent := recent + [attempts[i]];
        }
      }
      assert attempts[..|attempts|] == attempts;
    }

    method CheckRateLimit(ip: string, now: Time) returns (allowed: bool)
      modifies this
      ensures allowed <==> Allows(old(lastAttempts), ip, now)
      ensures lastAttempts == Checked(old(lastAttempts), ip, now)
    {
      var recent := Prune(Get(lastAttempts, ip), now);
      lastAttempts := lastAttempts[ip := recent];
      return |recent| < 10;
    }

    method RecordFailedAttempt(ip: string, now: Time)
      modifies this
      ensures lastAttempts == Failed(old(lastAttempts), ip, now)
    {
      lastAttempts := lastAttempts[ip := Get(lastAttempts, ip) + [now]];
    }

    method ClearFailedAttempts(ip: string)
      modifies this
      ensures lastAttempts == old(lastAttempts) - {ip}
    {
      lastAttempts := lastAttempts - {ip};
    }

    /** A login, with the clock read once for the check and once for the record. */
    method Authenticate(token: string, authHeader: string, ip: string, checkedAt: Time, recordedAt: Time)
      returns (ok: bool)
      modifies this
      ensures ok <==> token != "" && authHeader == BEARER + token && Allows(old(lastAttempts), ip, checkedAt)
      ensures lastAttempts ==
                if token == "" || !(BEARER <= authHeader) then old(lastAttempts)
                else if ok then old(lastAttempts) - {ip}
                else if !Allows(old(lastAttempts), ip, checkedAt) then Checked(old(lastAttempts), ip, checkedAt)
                else Failed(Checked(old(lastAttempts), ip, checkedAt), ip, recordedAt)
    {
      if token == "" || authHeader == "" {
        return false;
      }
      if !(BEARER <= authHeader) {
        return false;
      }
      assert authHeader == BEARER + authHeader[|BEARER|..];
      var allowed := CheckRateLimit(ip, checkedAt);
      if !allowed {
        return false;
      }
      if authHeader[|BEARER|..] == token {
        ClearFailedAttempts(ip);
        return true;
      }
      RecordFailedAttempt(ip, recordedAt);
      return false;
    }

    /** Goes through the addresses in any order. */
    method CleanupRateLimitEntries(now: Time)
      modifies this
      ensures lastAttempts == Cleaned(old(lastAttempts), now)
    {
      var todo := lastAttempts.Keys;
      while todo != {}
        invariant todo <= old(lastAttempts).Keys
        invariant forall ip :: ip in todo ==> ip in lastAttempts && lastAttempts[ip] == old(lastAttempts)[ip]
        invariant forall ip :: ip !in todo ==>
                    (ip in lastAttempts <==> ip in Cleaned(old(lastAttempts), now))
                    && (ip in lastAttempts ==> lastAttempts[ip] == Cleaned(old(lastAttempts), now)[ip])
        decreases |todo|
      {
        var ip :| ip in todo;
        var recent := Prune(lastAttempts[ip], now);
        if |recent| == 0 {
          lastAttempts := lastAttempts - {ip};
        } else {
          lastAttempts := lastAttempts[ip := recent];
        }
        todo := todo - {ip};
      }
    }
  }

  // ---- Pruning ----

  lemma {:induction false} RecentConcat(a: seq<Time>, b: seq<Time>, now: Time)
    ensures Recent(a + b, now) == Recent(a, now) + Recent(b, now)
    decreases |b|
  {
    if b == [] {
      assert a + b == a;
    } else {
      assert (a + b)[..|a + b| - 1] == a + b[..|b| - 1];
      RecentConcat(a, b[..|b| - 1], now);
    }
  }

  /** Pruning early does not show later. */
  lemma {:induction false} PruneTwice(a: seq<Time>, now: Time, later: Time)
    requires now <= later
    ensures Recent(Recent(a, now), later) == Recent(a, later)
    decreases |a|
  {
    if a == [] {
    } else {
      var front, last := a[..|a| - 1], a[|a| - 1];
      PruneTwice(front, now, later);
      if last > now - MINUTE { RecentConcat(Recent(front, now), [last], later); }
    }
  }

  lemma {:induction false} SameLater(a: seq<Time>, b: seq<Time>, now: Time, later: Time)
    requires now <= later && Recent(a, now) == Recent(b, now)
    ensures Recent(a, later) == Recent(b, later)
  {
    PruneTwice(a, now, later);
    PruneTwice(b, now, later);
  }

  // ---- Cleanup never changes a verdict ----

  datatype Op = Check(ip: string) | Fail(ip: string) | Clear(ip: string) | Cleanup
  datatype Event = Event(op: Op, at: Time)

  predicate InTime(events: seq<Event>, now: Time)
    decreases |events|
  {
    events == [] || (now <= events[0].at && InTime(events[1..], events[0].at))
  }

  function Apply(t: Table, e: Event): Table {
    match e.op
    case Check(ip) => Checked(t, ip, e.at)
    case Fail(ip) => Failed(t, ip, e.at)
    case Clear(ip) => t - {ip}
    case Cleanup => Cleaned(t, e.at)
  }

  /** The answers to all checks, in order. */
  function Verdicts(t: Table, events: seq<Event>): seq<bool>
    decreases |events|
  {
    if events == [] then []
    else (if events[0].op.Check? then [Allows(t, events[0].op.ip, events[0].at)] else [])
         + Verdicts(Apply(t, events[0]), events[1..])
  }

  function WithoutCleanups(events: seq<Event>): seq<Event>
    decreases |events|
  {
    if events == [] then []
    else if events[0].op.Cleanup? then WithoutCleanups(events[1..])
    else [events[0]] + WithoutCleanups(events[1..])
  }

  ghost predicate Alike(t: Table, u: Table, now: Time) {
    forall ip :: Recent(Get(t, ip), now) == Recent(Get(u, ip), now)
  }

  lemma AlikeLater(t: Table, u: Table, now: Time, later: Time)
    requires Alike(t, u, now) && now <= later
    ensures Alike(t, u, later)
  {
    forall ip ensures Recent(Get(t, ip), later) == Recent(Get(u, ip), later) {
      SameLater(Get(t, ip), Get(u, ip), now, later);
    }
  }

  lemma CleanedAlike(t: Table, u: Table, now: Time)
    requires Alike(t, u, now)
    ensures Alike(Cleaned(t, now), u, now)
  {
    forall ip ensures Recent(Get(Cleaned(t, now), ip), now) == Recent(Get(u, ip), now) {
      PruneTwice(Get(t, ip), now, now);
    }
  }

  /** What an operation that is not a cleanup leaves of one address depends on that address alone. */
  function Entry(was: seq<Time>, e: Event, ip: string): seq<Time>
    requires !e.op.Cleanup?
  {
    if ip != e.op.ip then was
    else match e.op
      case Check(_) => Recent(was, e.at)
      case Fail(_) => was + [e.at]
      case Clear(_) => []
  }

  lemma ApplyEntry(t: Table, e: Event, ip: string)
    requires !e.op.Cleanup?
    ensures Get(Apply(t, e), ip) == Entry(Get(t, ip), e, ip)
  {
  }

  lemma {:induction false} EntryAlike(a: seq<Time>, b: seq<Time>, e: Event, ip: string)
    requires !e.op.Cleanup? && Recent(a, e.at) == Recent(b, e.at)
    ensures Recent(Entry(a, e, ip), e.at) == Recent(Entry(b, e, ip), e.at)
  {
    RecentConcat(a, [e.at], e.at);
    RecentConcat(b, [e.at], e.at);
  }

  lemma ApplyAlike(t: Table, u: Table, e: Event)
    requires Alike(t, u, e.at) && !e.op.Cleanup?
    ensures Alike(Apply(t, e), Apply(u, e), e.at)
  {
    forall ip ensures Recent(Get(Apply(t, e), ip), e.at) == Recent(Get(Apply(u, e), ip), e.at) {
      ApplyEntry(t, e, ip);
      ApplyEntry(u, e, ip);
      EntryAlike(Get(t, ip), Get(u, ip), e, ip);
    }
  }

  /** Any run, with cleanups at any points, answers every check as the same run without them. */
  lemma {:induction false} CleanupUnseen(t: Table, events: seq<Event>, now: Time)
    requires InTime(events, now)
    ensures Verdicts(t, events) == Verdicts(t, WithoutCleanups(events))
  {
    CleanupsUnseen(t, t, events, now);
  }

  lemma {:induction false} CleanupsUnseen(t: Table, u: Table, events: seq<Event>, now: Time)
    requires InTime(events, now) && Alike(t, u, now)
    ensures Verdicts(t, events) == Verdicts(u, WithoutCleanups(events))
    decreases |events|
  {
    if events == [] {
    } else {
      var e := events[0];
      AlikeLater(t, u, now, e.at);
      if e.op.Cleanup? {
        CleanedAlike(t, u, e.at);
        CleanupsUnseen(Apply(t, e), u, events[1..], e.at);
      } else {
        ApplyAlike(t, u, e);
        CleanupsUnseen(Apply(t, e), Apply(u, e), events[1..], e.at);
        var rest := WithoutCleanups(events[1..]);
        assert ([e] + rest)[1..] == rest;
      }
    }
  }

  // ---- How many failures get through ----

  /** Failures in the minute up to `x`. */
  function InMinute(failures: seq<Time>, x: Time): nat {
    if failures == [] then 0
    else InMinute(failures[..|failures| - 1], x)
         + if x - MINUTE < failures[|failures| - 1] <= x then 1 else 0
  }

  /**
   The table, and for one address: the calls that passed the check and have no outcome yet, and all
   failures recorded since the last success.
   */
  datatype State = State(t: Table, inFlight: nat, failures: seq<Time>, now: Time)

  datatype Step =
    | Begin(at: Time)                 // a call is checked; it goes on if allowed
    | Refused(at: Time)               // a call in flight turns out wrong and is recorded
    | Accepted(at: Time)              // a call in flight turns out right
    | Other(event: Event)             // anything about other addresses, and cleanups

  predicate Enabled(s: State, ip: string, k: nat, step: Step) {
    match step
    case Begin(at) => s.now <= at && s.inFlight < k
    case Refused(at) => s.now <= at && s.inFlight > 0
    case Accepted(at) => s.now <= at && s.inFlight > 0
    case Other(e) => s.now <= e.at && (e.op.Cleanup? || e.op.ip != ip)
  }

  function Next(s: State, ip: string, k: nat, step: Step): State
    requires Enabled(s, ip, k, step)
  {
    match step
    case Begin(at) =>
      State(Checked(s.t, ip, at), if Allows(s.t, ip, at) then s.inFlight + 1 else s.inFlight, s.failures, at)
    case Refused(at) => State(Failed(s.t, ip, at), s.inFlight - 1, s.failures + [at], at)
    case Accepted(at) => State(s.t - {ip}, s.inFlight - 1, [], at)
    case Other(e) => State(Apply(s.t, e), s.inFlight, s.failures, e.at)
  }

  predicate Run(s: State, ip: string, k: nat, steps: seq<Step>)
    decreases |steps|
  {
    steps == [] || (Enabled(s, ip, k, steps[0]) && Run(Next(s, ip, k, steps[0]), ip, k, steps[1..]))
  }

  function After(s: State, ip: string, k: nat, steps: seq<Step>): State
    requires Run(s, ip, k, steps)
    decreases |steps|
  {
    if steps == [] then s else After(Next(s, ip, k, steps[0]), ip, k, steps[1..])
  }

  ghost predicate Bounded(s: State, ip: string, k: nat) {
    && (forall i :: 0 <= i < |s.failures| ==> s.failures[i] <= s.now)
    && Recent(Get(s.t, ip), s.now) == Recent(s.failures, s.now)
    && s.inFlight <= k && |Recent(s.failures, s.now)| + s.inFlight <= LIMIT - 1 + k
    && forall x :: InMinute(s.failures, x) <= LIMIT - 1 + k
  }

  lemma {:induction false} WindowIsRecent(failures: seq<Time>, now: Time)
    requires forall i :: 0 <= i < |failures| ==> failures[i] <= now
    ensures InMinute(failures, now) == |Recent(failures, now)|
    decreases |failures|
  {
    if failures == [] {
    } else {
      WindowIsRecent(failures[..|failures| - 1], now);
    }
  }

  lemma {:induction false} RecentShrinks(a: seq<Time>, now: Time, later: Time)
    requires now <= later
    ensures |Recent(a, later)| <= |Recent(a, now)|
    decreases |a|
  {
    if a == [] {
    } else {
      RecentShrinks(a[..|a| - 1], now, later);
    }
  }

  lemma {:induction false} NoneLater(failures: seq<Time>, now: Time, x: Time)
    requires now <= x && forall i :: 0 <= i < |failures| ==> failures[i] <= now
    ensures InMinute(failures, x) <= |Recent(failures, now)|
  {
    WindowIsRecent(failures, x);
    RecentShrinks(failures, now, x);
  }

  lemma {:induction false} OneMore(failures: seq<Time>, at: Time, x: Time)
    ensures InMinute(failures + [at], x) == InMinute(failures, x) + if x - MINUTE < at <= x then 1 else 0
  {
    assert (failures + [at])[..|failures|] == failures;
  }

  lemma RefusedBounded(s: State, ip: string, k: nat, at: Time)
    requires Bounded(s, ip, k) && Enabled(s, ip, k, Refused(at))
    ensures Bounded(Next(s, ip, k, Refused(at)), ip, k)
  {
    SameLater(Get(s.t, ip), s.failures, s.now, at);
    RecentShrinks(s.failures, s.now, at);
    RecentConcat(Get(s.t, ip), [at], at);
    RecentConcat(s.failures, [at], at);
    forall x ensures InMinute(s.failures + [at], x) <= LIMIT - 1 + k {
      OneMore(s.failures, at, x);
      if at <= x { NoneLater(s.failures, s.now, x); }
    }
  }

  lemma OtherBounded(s: State, ip: string, k: nat, e: Event)
    requires Bounded(s, ip, k) && Enabled(s, ip, k, Other(e))
    ensures Bounded(Next(s, ip, k, Other(e)), ip, k)
  {
    SameLater(Get(s.t, ip), s.failures, s.now, e.at);
    RecentShrinks(s.failures, s.now, e.at);
    if e.op.Cleanup? { PruneTwice(Get(s.t, ip), e.at, e.at); }
  }

  lemma StepBounded(s: State, ip: string, k: nat, step: Step)
    requires Bounded(s, ip, k) && Enabled(s, ip, k, step)
    ensures Bounded(Next(s, ip, k, step), ip, k)
  {
    match step
    case Begin(at) =>
      SameLater(Get(s.t, ip), s.failures, s.now, at);
      RecentShrinks(s.failures, s.now, at);
      PruneTwice(Get(s.t, ip), at, at);
    case Refused(at) => RefusedBounded(s, ip, k, at);
    case Accepted(_) =>
    case Other(e) => OtherBounded(s, ip, k, e);
  }

  lemma {:induction false} RunBounded(s: State, ip: string, k: nat, steps: seq<Step>)
    requires Bounded(s, ip, k) && Run(s, ip, k, steps)
    ensures Bounded(After(s, ip, k, steps), ip, k)
    decreases |steps|
  {
    if steps == [] {
    } else {
      StepBounded(s, ip, k, steps[0]);
      RunBounded(Next(s, ip, k, steps[0]), ip, k, steps[1..]);
    }
  }

  /**
   With at most k calls in flight for an address, no minute since its last success ever holds more
   than 9 + k recorded failures: ten when calls come one after the other.
   */
  lemma {:induction false} FailuresBounded(t: Table, ip: string, k: nat, now: Time, steps: seq<Step>, x: Time)
    requires Get(t, ip) == [] && Run(State(t, 0, [], now), ip, k, steps)
    ensures InMinute(After(State(t, 0, [], now), ip, k, steps).failures, x) <= 9 + k
  {
    RunBounded(State(t, 0, [], now), ip, k, steps);
  }

  // ---- The bound is reached ----

  /** At time 0: m failures recorded, all at that time, and j calls in flight. */
  ghost predicate AtZero(s: State, ip: string, m: nat, j: nat) {
    && s.now == 0 && s.inFlight == j && |s.failures| == m && Get(s.t, ip) == s.failures
    && forall i :: 0 <= i < |s.failures| ==> s.failures[i] == 0
  }

  lemma {:induction false} AllRecent(f: seq<Time>)
    requires forall i :: 0 <= i < |f| ==> f[i] == 0
    ensures Recent(f, 0) == f && InMinute(f, 0) == |f|
    decreases |f|
  {
    if f == [] {
    } else {
      AllRecent(f[..|f| - 1]);
      assert f == f[..|f| - 1] + [f[|f| - 1]];
    }
  }

  lemma {:induction false} PrependStep(s: State, ip: string, k: nat, step: Step, rest: seq<Step>)
    requires Enabled(s, ip, k, step) && Run(Next(s, ip, k, step), ip, k, rest)
    ensures Run(s, ip, k, [step] + rest) && After(s, ip, k, [step] + rest) == After(Next(s, ip, k, step), ip, k, rest)
  {
    assert ([step] + rest)[1..] == rest;
  }

  /** Nine failures in turn, then k calls that all pass the check before any of them is recorded. */
  lemma {:induction false} Fill(s: State, ip: string, k: nat, m: nat, j: nat) returns (steps: seq<Step>)
    requires AtZero(s, ip, m, j) && j <= k
    requires (m < 9 && j <= 1) || m == 9 || m + j == 9 + k
    requires k > 0
    ensures Run(s, ip, k, steps) && AtZero(After(s, ip, k, steps), ip, 9 + k, 0)
    decreases 9 + k - m, k - j
  {
    AllRecent(s.failures);
    if m == 9 + k {
      return [];
    }
    var step := if (m < 9 && j == 1) || m > 9 || j == k then Refused(0) else Begin(0);
    var more, left := if step.Refused? then m + 1 else m, if step.Refused? then j - 1 else j + 1;
    steps := Fill(Next(s, ip, k, step), ip, k, more, left);
    PrependStep(s, ip, k, step, steps);
    steps := [step] + steps;
  }

  /** For every k > 0 some run records 9 + k failures within a minute. */
  lemma BoundReached(ip: string, k: nat) returns (steps: seq<Step>)
    requires k > 0
    ensures Run(State(map[], 0, [], 0), ip, k, steps)
    ensures InMinute(After(State(map[], 0, [], 0), ip, k, steps).failures, 0) == 9 + k
  {
    steps := Fill(State(map[], 0, [], 0), ip, k, 0, 0);
    AllRecent(After(State(map[], 0, [], 0), ip, k, steps).failures);
  }
}
