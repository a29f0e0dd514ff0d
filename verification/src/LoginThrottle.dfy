/**
 The in-memory login throttle and the static authenticator (crates/auth/src/lib.rs),
 called one at a time under a clock that never goes back.
 */
module LoginThrottle {
  import opened Wrappers
  import opened Text

  const U32_MAX: int := 0xFFFF_FFFF

  datatype AttemptState = AttemptState(failures: nat, blockedUntil: Option<int>)

  type States = map<string, AttemptState>

  datatype Limits = Limits(maxFailures: nat, lockout: nat) {
    /** Failures in a row before a lockout; a limit of zero locks on every failure, like one. */
    function Burst(): (m: nat)
      ensures m >= 1
    {
      if maxFailures == 0 then 1 else maxFailures
    }
  }

  predicate BlockedAt(s: AttemptState, now: int) { s.blockedUntil.Some? && s.blockedUntil.value > now }

  /** An expired lockout is cleared when it is looked at. */
  function Refreshed(s: AttemptState, now: int): AttemptState {
    if s.blockedUntil.Some? && s.blockedUntil.value <= now then AttemptState(0, None) else s
  }

  function Failed(s: AttemptState, now: int, limits: Limits): AttemptState {
    if BlockedAt(s, now) then s
    else
      var clean := Refreshed(s, now);
      var failures := if clean.failures < U32_MAX then clean.failures + 1 else U32_MAX;
      if failures >= limits.maxFailures then AttemptState(0, Some(now + limits.lockout))
      else AttemptState(failures, clean.blockedUntil)
  }

  function StateOf(states: States, key: string): AttemptState {
    if key in states then states[key] else AttemptState(0, None)
  }

  class MemoryLoginThrottle {
    var attempts: States
    const limits: Limits

    constructor (limits: Limits)
      ensures attempts == map[] && this.limits == limits
    {
      attempts := map[];
      this.limits := limits;
    }

    method IsBlocked(username: string, now: int) returns (blocked: bool)
      modifies this
      ensures blocked <==> BlockedAt(StateOf(old(attempts), AsciiLower(username)), now)
      ensures var key := AsciiLower(username);
        attempts == if key in old(attempts) then old(attempts)[key := Refreshed(old(attempts)[key], now)] else old(attempts)
    {
      var key := AsciiLower(username);
      if key !in attempts {
        return false;
      }
      var state := attempts[key];
      if state.blockedUntil.Some? {
        if state.blockedUntil.value > now {
          assert old(attempts) == old(attempts)[key := state];
          return true;
        }
        attempts := attempts[key := AttemptState(0, None)];
      } else {
        assert old(attempts) == old(attempts)[key := state];
      }
      blocked := false;
    }

    method RecordFailure(username: string, now: int)
      modifies this
      ensures var key := AsciiLower(username);
        attempts == old(attempts)[key := Failed(StateOf(old(attempts), key), now, limits)]
    {
      var key := AsciiLower(username);
      var state := if key in attempts then attempts[key] else AttemptState(0, None);
      if state.blockedUntil.Some? {
        if state.blockedUntil.value > now {
          attempts := attempts[key := state];
          return;
        }
        state := AttemptState(0, None);
      }
      var failures := if state.failures < U32_MAX then state.failures + 1 else U32_MAX;
      if failures >= limits.maxFailures {
        state := AttemptState(0, Some(now + limits.lockout));
      } else {
        state := AttemptState(failures, None);
      }
      attempts := attempts[key := state];
    }

    method RecordSuccess(username: string)
      modifies this
      ensures attempts == old(attempts) - {AsciiLower(username)}
    {
      attempts := attempts - {AsciiLower(username)};
    }
  }

  // ---------- logging in ----------

  datatype Verdict = Matches | Differs | Broken

  /** A login: when the throttle is asked, when a failure is recorded, and what checking the
      password against the stored hash would answer. */
  datatype Login = Login(username: string, checked: int, recorded: int, verdict: Verdict)

  datatype Entry =
    | Verified(key: string, at: int)
    | Failure(key: string, at: int)
    | Success(key: string)

  /** What a login leaves behind: the throttle's states and the log of what happened. */
  function LogIn(states: States, limits: Limits, expected: string, l: Login): (States, seq<Entry>) {
    var key := AsciiLower(l.username);
    var before := StateOf(states, key);
    if BlockedAt(before, l.checked) then (states, [])
    else
      var asked := if key in states then states[key := Refreshed(states[key], l.checked)] else states;
      var check := if l.username == expected then [Verified(key, l.checked)] else [];
      if l.username == expected && l.verdict == Matches then (asked - {key}, check + [Success(key)])
      else if l.username == expected && l.verdict == Broken then (asked, check)
      else
        (asked[key := Failed(StateOf(asked, key), l.recorded, limits)], check + [Failure(key, l.recorded)])
  }

  /** A lockout of the name, however it is spelt, is still on. */
  predicate LockedOut(states: States, username: string, at: int) {
    var key := AsciiLower(username);
    key in states && states[key].blockedUntil.Some? && at < states[key].blockedUntil.value
  }

  /** Granted to the right password of the expected name outside a lockout and to nothing else; a
      refusal outside a lockout is one recorded failure. */
  method Authenticate(throttle: MemoryLoginThrottle, expected: string, l: Login, ghost log0: seq<Entry>)
    returns (granted: Result<bool>, ghost log: seq<Entry>)
    modifies throttle
    ensures var (states, entries) := LogIn(old(throttle.attempts), throttle.limits, expected, l);
      throttle.attempts == states && log == log0 + entries
    ensures granted == Ok(true) <==>
      !LockedOut(old(throttle.attempts), l.username, l.checked) && l.username == expected && l.verdict == Matches
    ensures granted.Err? <==>
      !LockedOut(old(throttle.attempts), l.username, l.checked) && l.username == expected && l.verdict == Broken
    ensures LockedOut(old(throttle.attempts), l.username, l.checked) ==> log == log0 && throttle.attempts == old(throttle.attempts)
    ensures granted == Ok(true) ==> AsciiLower(l.username) !in throttle.attempts
    ensures granted.Err? ==> log == log0 + [Verified(AsciiLower(l.username), l.checked)]
    ensures granted == Ok(false) && !LockedOut(old(throttle.attempts), l.username, l.checked) ==>
      log == log0 + (if l.username == expected then [Verified(AsciiLower(l.username), l.checked)] else [])
                  + [Failure(AsciiLower(l.username), l.recorded)]
  {
    log := log0;
    var blocked := throttle.IsBlocked(l.username, l.checked);
    if blocked {
      return Ok(false), log0;
    }
    ghost var key := AsciiLower(l.username);
    if l.username == expected {
      log := log + [Verified(key, l.checked)];
      if l.verdict == Broken {
        return Err, log;
      }
      if l.verdict == Matches {
        throttle.RecordSuccess(l.username);
        return Ok(true), log + [Success(key)];
      }
    }
    log := log + [Failure(key, l.recorded)];
    throttle.RecordFailure(l.username, l.recorded);
    granted := Ok(false);
  }

  /** All spellings of a name share its lockout: either none of them gets a reaction or all do. */
  lemma SpellingsShareLockout(states: States, limits: Limits, expected: string, l: Login, m: Login)
    requires AsciiLower(l.username) == AsciiLower(m.username) && l.checked == m.checked
    ensures LogIn(states, limits, expected, l).1 == [] <==> LogIn(states, limits, expected, m).1 == []
    ensures LogIn(states, limits, expected, l).1 == [] <==> LockedOut(states, m.username, l.checked)
  {
    hide AsciiLower;
  }

  // ---------- failures over time ----------

  /** Times of the failures recorded for a name since its last success. */
  function Failures(log: seq<Entry>, key: string): seq<int> {
    if log == [] then []
    else
      var last, before := log[|log| - 1], Failures(log[..|log| - 1], key);
      if last.key != key then before
      else if last.Success? then []
      else if last.Failure? then before + [last.at]
      else before
  }

  /** Times in order, and a lockout after every full burst. */
  ghost predicate Paced(times: seq<int>, burst: nat, lockout: int)
    requires burst >= 1
  {
    && (forall j :: 0 < j < |times| ==> times[j - 1] <= times[j])
    && (forall j :: 0 < j < |times| && j % burst == 0 ==> times[j - 1] + lockout <= times[j])
  }

  /** The lockouts caused so far are all over by `at`. */
  ghost predicate LockoutsOver(times: seq<int>, burst: nat, lockout: int, at: int)
    requires burst >= 1
  {
    forall j :: 0 < j <= |times| && j % burst == 0 ==> times[j - 1] + lockout <= at
  }

  /** How a throttle state and the failures behind it belong together at a time. */
  ghost predicate StateTells(s: AttemptState, times: seq<int>, limits: Limits, now: int) {
    && Paced(times, limits.Burst(), limits.lockout)
    && (times != [] ==> times[|times| - 1] <= now)
    && s.failures == |times| % limits.Burst()
    && (s.blockedUntil.Some? ==>
          && times != [] && |times| % limits.Burst() == 0
          && s.blockedUntil.value == times[|times| - 1] + limits.lockout)
    && (s.blockedUntil.None? ==> LockoutsOver(times, limits.Burst(), limits.lockout, now))
  }

  /** Each password check came after every lockout of that name was over. */
  ghost predicate ChecksUnblocked(log: seq<Entry>, limits: Limits) {
    forall i :: 0 <= i < |log| && log[i].Verified? ==>
      LockoutsOver(Failures(log[..i], log[i].key), limits.Burst(), limits.lockout, log[i].at)
  }

  ghost predicate Inv(states: States, log: seq<Entry>, limits: Limits, now: int) {
    && limits.maxFailures <= U32_MAX
    && ChecksUnblocked(log, limits)
    && forall key :: StateTells(StateOf(states, key), Failures(log, key), limits, now)
  }

  lemma {:induction false} TimesOrdered(times: seq<int>, i: nat, j: nat)
    requires i <= j < |times| && forall k :: 0 < k < |times| ==> times[k - 1] <= times[k]
    ensures times[i] <= times[j]
    decreases j
  {
    if i < j { TimesOrdered(times, i, j - 1); }
  }

  lemma PacedOver(times: seq<int>, burst: nat, lockout: int, at: int)
    requires burst >= 1 && Paced(times, burst, lockout) && times != []
    requires times[|times| - 1] <= at && (|times| % burst == 0 ==> times[|times| - 1] + lockout <= at)
    ensures LockoutsOver(times, burst, lockout, at)
  {
    forall j | 0 < j <= |times| && j % burst == 0 ensures times[j - 1] + lockout <= at {
      if j < |times| { TimesOrdered(times, j, |times| - 1); }
    }
  }

  /** Looking at a name that is not blocked: its lockouts are over. */
  lemma RefreshTells(s: AttemptState, times: seq<int>, limits: Limits, now: int, at: int)
    requires StateTells(s, times, limits, now) && now <= at && !BlockedAt(s, at)
    ensures StateTells(Refreshed(s, at), times, limits, at)
    ensures Refreshed(s, at).blockedUntil.None?
    ensures LockoutsOver(times, limits.Burst(), limits.lockout, at)
  {
    if s.blockedUntil.Some? {
      PacedOver(times, limits.Burst(), limits.lockout, at);
    }
  }

  lemma LaterTells(s: AttemptState, times: seq<int>, limits: Limits, now: int, at: int)
    requires StateTells(s, times, limits, now) && now <= at
    ensures StateTells(s, times, limits, at)
  {}

  lemma ModStep(n: nat, m: nat)
    requires m >= 1
    ensures (n + 1) % m == if n % m + 1 == m then 0 else n % m + 1
    ensures (n + 1) / m == if n % m + 1 == m then n / m + 1 else n / m
  {
    var q, r := n / m, n % m;
    assert n + 1 == m * q + (r + 1);
    if r + 1 == m {
      assert n + 1 == m * (q + 1);
      DivUnique(n + 1, m, q + 1, 0);
    } else {
      DivUnique(n + 1, m, q, r + 1);
    }
  }

  lemma DivUnique(n: nat, m: nat, q: nat, r: nat)
    requires m >= 1 && n == m * q + r && r < m
    ensures n / m == q && n % m == r
  {
    var q', r' := n / m, n % m;
    assert n == m * q' + r' && 0 <= r' < m;
    if q > q' { MulStep(m, q', q); }
    if q < q' { MulStep(m, q, q'); }
  }

  lemma MulStep(m: nat, a: nat, b: nat)
    requires a < b
    ensures m * a + m <= m * b
  {
    assert m * b == m * a + m * (b - a);
    MulMonotone(m, 1, b - a);
  }

  lemma FailTells(s: AttemptState, times: seq<int>, limits: Limits, at: int)
    requires StateTells(s, times, limits, at) && s.blockedUntil.None? && limits.maxFailures <= U32_MAX
    ensures StateTells(Failed(s, at, limits), times + [at], limits, at)
  {
    var m := limits.Burst();
    var after := times + [at];
    ModStep(|times|, m);
    forall j | 0 < j < |after| ensures after[j - 1] <= after[j] && (j % m == 0 ==> after[j - 1] + limits.lockout <= after[j]) {
      if j < |times| { assert times[j - 1] <= times[j]; }
    }
    if |after| % m != 0 {
      forall j | 0 < j <= |after| && j % m == 0 ensures after[j - 1] + limits.lockout <= at {
        assert after[j - 1] == times[j - 1];
      }
    }
  }

  lemma FailuresSnoc(log: seq<Entry>, e: Entry, key: string)
    ensures Failures(log + [e], key) ==
      if e.key != key then Failures(log, key) else if e.Success? then []
      else if e.Failure? then Failures(log, key) + [e.at] else Failures(log, key)
  {
    assert (log + [e])[..|log + [e]| - 1] == log;
  }

  lemma ChecksSnoc(log: seq<Entry>, e: Entry, limits: Limits)
    requires ChecksUnblocked(log, limits)
    requires e.Verified? ==> LockoutsOver(Failures(log, e.key), limits.Burst(), limits.lockout, e.at)
    ensures ChecksUnblocked(log + [e], limits)
  {
    hide LockoutsOver, Failures;
    var after := log + [e];
    forall i | 0 <= i < |after| && after[i].Verified?
      ensures LockoutsOver(Failures(after[..i], after[i].key), limits.Burst(), limits.lockout, after[i].at)
    {
      if i < |log| { assert after[..i] == log[..i]; } else { assert after[..i] == log; }
    }
  }

  /** The invariant for one name's state and one more log entry about that name. */
  lemma EntryKeepsInv(states: States, log: seq<Entry>, limits: Limits, now: int, e: Entry, states': States, at: int)
    requires Inv(states, log, limits, now) && now <= at
    requires forall key :: key != e.key ==> StateOf(states', key) == StateOf(states, key)
    requires e.Verified? ==> LockoutsOver(Failures(log, e.key), limits.Burst(), limits.lockout, e.at)
    requires StateTells(StateOf(states', e.key), Failures(log + [e], e.key), limits, at)
    ensures Inv(states', log + [e], limits, at)
  {
    hide Failures, StateTells, LockoutsOver, StateOf;
    ChecksSnoc(log, e, limits);
    forall key ensures StateTells(StateOf(states', key), Failures(log + [e], key), limits, at) {
      FailuresSnoc(log, e, key);
      LaterTells(StateOf(states, key), Failures(log, key), limits, now, at);
    }
  }

  /** The same without a log entry. */
  lemma StateKeepsInv(states: States, log: seq<Entry>, limits: Limits, now: int, key: string, states': States, at: int)
    requires Inv(states, log, limits, now) && now <= at
    requires forall k :: k != key ==> StateOf(states', k) == StateOf(states, k)
    requires StateTells(StateOf(states', key), Failures(log, key), limits, at)
    ensures Inv(states', log, limits, at)
  {
    hide Failures, StateTells, StateOf;
    forall k ensures StateTells(StateOf(states', k), Failures(log, k), limits, at) {
      LaterTells(StateOf(states, k), Failures(log, k), limits, now, at);
    }
  }

  lemma LogInKeepsInv(states: States, log: seq<Entry>, limits: Limits, now: int, expected: string, l: Login)
    requires Inv(states, log, limits, now) && now <= l.checked <= l.recorded
    ensures var (states', entries) := LogIn(states, limits, expected, l);
      Inv(states', log + entries, limits, l.recorded)
  {
    hide Failures, StateTells, LockoutsOver, Inv, Failed;
    var key := AsciiLower(l.username);
    var s, times := StateOf(states, key), Failures(log, key);
    assert StateTells(s, times, limits, now) by { InvTells(states, log, limits, now, key); }
    if BlockedAt(s, l.checked) {
      LaterTells(s, times, limits, now, l.recorded);
      StateKeepsInv(states, log, limits, now, key, states, l.recorded);
      assert log + [] == log;
    } else {
      var asked := if key in states then states[key := Refreshed(states[key], l.checked)] else states;
      RefreshTells(s, times, limits, now, l.checked);
      assert StateOf(asked, key) == Refreshed(s, l.checked);
      StateKeepsInv(states, log, limits, now, key, asked, l.checked);
      var log' := log;
      if l.username == expected {
        FailuresSnoc(log, Verified(key, l.checked), key);
        EntryKeepsInv(asked, log, limits, l.checked, Verified(key, l.checked), asked, l.checked);
        log' := log + [Verified(key, l.checked)];
      } else {
        assert log + [] == log;
      }
      AfterCheck(asked, log', limits, expected, l, key);
      var (_, entries) := LogIn(states, limits, expected, l);
      assert log' + entries[|log'| - |log|..] == log + entries;
    }
  }

  lemma InvTells(states: States, log: seq<Entry>, limits: Limits, now: int, key: string)
    requires Inv(states, log, limits, now)
    ensures StateTells(StateOf(states, key), Failures(log, key), limits, now) && limits.maxFailures <= U32_MAX
  {}

  /** The second half of a login that was let through. */
  lemma AfterCheck(asked: States, log: seq<Entry>, limits: Limits, expected: string, l: Login, key: string)
    requires Inv(asked, log, limits, l.checked) && l.checked <= l.recorded && key == AsciiLower(l.username)
    requires StateOf(asked, key).blockedUntil.None?
    ensures Inv(asked - {key}, log + [Success(key)], limits, l.recorded)
    ensures Inv(asked, log, limits, l.recorded)
    ensures Inv(asked[key := Failed(StateOf(asked, key), l.recorded, limits)], log + [Failure(key, l.recorded)], limits, l.recorded)
  {
    hide Inv, Failures, StateTells, Failed;
    var s, times := StateOf(asked, key), Failures(log, key);
    InvTells(asked, log, limits, l.checked, key);
    LaterTells(s, times, limits, l.checked, l.recorded);
    StateKeepsInv(asked, log, limits, l.checked, key, asked, l.recorded);
    FailuresSnoc(log, Success(key), key);
    NoFailuresTell(limits, l.recorded);
    EntryKeepsInv(asked, log, limits, l.recorded, Success(key), asked - {key}, l.recorded);
    FailuresSnoc(log, Failure(key, l.recorded), key);
    FailTells(s, times, limits, l.recorded);
    EntryKeepsInv(asked, log, limits, l.recorded, Failure(key, l.recorded),
                  asked[key := Failed(s, l.recorded, limits)], l.recorded);
  }

  lemma NoFailuresTell(limits: Limits, now: int)
    ensures StateTells(AttemptState(0, None), [], limits, now)
  {}

  // ---------- histories ----------

  ghost predicate InOrder(now: int, logins: seq<Login>)
    decreases |logins|
  {
    logins == [] || (now <= logins[0].checked <= logins[0].recorded && InOrder(logins[0].recorded, logins[1..]))
  }

  function Logins(states: States, log: seq<Entry>, limits: Limits, expected: string, logins: seq<Login>): (States, seq<Entry>)
    decreases |logins|
  {
    if logins == [] then (states, log)
    else
      var (states', entries) := LogIn(states, limits, expected, logins[0]);
      Logins(states', log + entries, limits, expected, logins[1..])
  }

  function EndTime(now: int, logins: seq<Login>): int {
    if logins == [] then now else logins[|logins| - 1].recorded
  }

  lemma {:induction false} LoginsKeepInv(states: States, log: seq<Entry>, limits: Limits, now: int, expected: string, logins: seq<Login>)
    requires Inv(states, log, limits, now) && InOrder(now, logins)
    ensures var (states', log') := Logins(states, log, limits, expected, logins);
      Inv(states', log', limits, EndTime(now, logins))
    decreases |logins|
  {
    hide Inv, LogIn;
    if logins != [] {
      LogInKeepsInv(states, log, limits, now, expected, logins[0]);
      var (states', entries) := LogIn(states, limits, expected, logins[0]);
      LoginsKeepInv(states', log + entries, limits, logins[0].recorded, expected, logins[1..]);
    }
  }

  /** Failures i to j took at least one lockout for every burst boundary between them. */
  lemma {:induction false} BoundariesCost(times: seq<int>, burst: nat, lockout: nat, i: nat, j: nat)
    requires burst >= 1 && Paced(times, burst, lockout) && i <= j < |times|
    ensures i / burst <= j / burst
    ensures times[i] + lockout * (j / burst - i / burst) <= times[j]
    decreases j
  {
    if i < j {
      BoundariesCost(times, burst, lockout, i, j - 1);
      ModStep(j - 1, burst);
      var d := (j - 1) / burst - i / burst;
      if j % burst == 0 {
        assert lockout * (d + 1) == lockout * d + lockout;
      }
    }
  }

  /** At most one burst for every lockout period begun: the failures i to j of a name, with no
      success between, number at most burst * (floor(T / lockout) + 1), T being the time from
      the first to the last. */
  lemma RateBound(times: seq<int>, limits: Limits, i: nat, j: nat)
    requires limits.lockout > 0 && Paced(times, limits.Burst(), limits.lockout) && i <= j < |times|
    ensures times[i] <= times[j]
    ensures j - i + 1 <= limits.Burst() * ((times[j] - times[i]) / limits.lockout + 1)
  {
    var m, lock := limits.Burst(), limits.lockout;
    TimesOrdered(times, i, j);
    BoundariesCost(times, m, lock, i, j);
    var crossed, span := j / m - i / m, times[j] - times[i];
    assert crossed <= span / lock by { QuotientAtLeast(span, lock, crossed); }
    assert j - i + 1 <= m * (crossed + 1) by {
      assert j == m * (j / m) + j % m && i == m * (i / m) + i % m;
      assert m * (crossed + 1) == m * (j / m) - m * (i / m) + m;
    }
    MulMonotone(m, crossed + 1, span / lock + 1);
  }

  lemma QuotientAtLeast(n: nat, d: nat, q: nat)
    requires d >= 1 && d * q <= n
    ensures q <= n / d
  {
    var q' := n / d;
    assert n == d * q' + n % d && n % d < d;
    if q > q' { MulStep(d, q', q); }
  }

  lemma MulMonotone(m: nat, a: nat, b: nat)
    requires a <= b
    ensures m * a <= m * b
  {}

  /** Over every history from a fresh throttle: the rate bound for each name, and no password
      checked while its name is locked out. */
  lemma ThrottleHolds(limits: Limits, now: int, expected: string, logins: seq<Login>, key: string)
    requires limits.lockout > 0 && limits.maxFailures <= U32_MAX && InOrder(now, logins)
    ensures var (_, log) := Logins(map[], [], limits, expected, logins);
      var times := Failures(log, key);
      && (forall i, j :: 0 <= i <= j < |times| ==>
            times[i] <= times[j] && j - i + 1 <= limits.Burst() * ((times[j] - times[i]) / limits.lockout + 1))
      && ChecksUnblocked(log, limits)
  {
    hide Failures, StateTells, Logins, ChecksUnblocked;
    assert Inv(map[], [], limits, now) by { FreshInv(limits, now); }
    LoginsKeepInv(map[], [], limits, now, expected, logins);
    var (states, log) := Logins(map[], [], limits, expected, logins);
    var end := EndTime(now, logins);
    var times := Failures(log, key);
    TellsPaced(StateOf(states, key), times, limits, end);
    forall i, j | 0 <= i <= j < |times|
      ensures times[i] <= times[j] && j - i + 1 <= limits.Burst() * ((times[j] - times[i]) / limits.lockout + 1)
    {
      RateBound(times, limits, i, j);
    }
  }

  /** After every history a name is locked out exactly for one lockout after each full burst of
      failures since its last success. */
  lemma LockedOutExactly(limits: Limits, now: int, expected: string, logins: seq<Login>, username: string, at: int)
    requires limits.maxFailures <= U32_MAX && InOrder(now, logins) && EndTime(now, logins) <= at
    ensures var (states, log) := Logins(map[], [], limits, expected, logins);
      var times := Failures(log, AsciiLower(username));
      LockedOut(states, username, at) <==>
        times != [] && |times| % limits.Burst() == 0 && at < times[|times| - 1] + limits.lockout
  {
    hide Failures, Logins, Inv, AsciiLower, Paced;
    FreshInv(limits, now);
    LoginsKeepInv(map[], [], limits, now, expected, logins);
    var (states, log) := Logins(map[], [], limits, expected, logins);
    InvTells(states, log, limits, EndTime(now, logins), AsciiLower(username));
  }

  lemma TellsPaced(s: AttemptState, times: seq<int>, limits: Limits, now: int)
    requires StateTells(s, times, limits, now)
    ensures Paced(times, limits.Burst(), limits.lockout)
  {}

  lemma FreshInv(limits: Limits, now: int)
    requires limits.maxFailures <= U32_MAX
    ensures Inv(map[], [], limits, now)
  {
    forall key ensures StateTells(AttemptState(0, None), Failures([], key), limits, now) {
      NoFailuresTell(limits, now);
    }
  }
}
