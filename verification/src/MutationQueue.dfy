/**
 The queue of changes waiting to be replayed upstream (crates/sync/src/lib.rs,
 `flush_pending_mutations`; crates/db/src/repository.rs), with one worker and one clock.
 */
module MutationQueue {
  import opened Wrappers

  datatype Status = Pending | InFlight | Succeeded | Failed

  datatype Mutation = Mutation(status: Status, attempts: nat, nextAttempt: Option<int>)

  function Pow2(n: nat): nat { if n == 0 then 1 else 2 * Pow2(n - 1) }

  /** Seconds to wait after the given attempt. */
  function RetryDelay(attempt: nat): nat {
    var wait := Pow2(if attempt < 10 then attempt else 10);
    if wait < 300 then wait else 300
  }

  lemma RetryDelayCapped(attempt: nat)
    ensures 1 <= RetryDelay(attempt) <= 300
    ensures attempt <= 8 ==> RetryDelay(attempt) == Pow2(attempt)
    ensures attempt >= 9 ==> RetryDelay(attempt) == 300
  {
    assert Pow2(8) == 256 && Pow2(9) == 512 && Pow2(10) == 1024;
    Pow2Monotone(if attempt < 8 then attempt else 8, 8);
    if attempt < 8 { Pow2Monotone(0, attempt); }
  }

  lemma {:induction false} Pow2Monotone(a: nat, b: nat)
    requires a <= b
    ensures Pow2(a) <= Pow2(b)
    decreases b
  {
    if a < b { Pow2Monotone(a, b - 1); }
  }

  /** `list_due_pending_mutations` for one row. */
  predicate Due(m: Mutation, now: int) {
    (m.status == Pending || m.status == Failed) && (m.nextAttempt.None? || m.nextAttempt.value <= now)
  }

  /** What the world does with one attempt: when it starts, when its result is there, and
      whether the worker lives to record it. */
  datatype Outcome = Succeeds | Fails | Crashes

  datatype Try = Try(start: int, end: int, outcome: Outcome)

  datatype Attempt = Attempt(id: nat, start: int, end: int, outcome: Outcome)

  function Record(m: Mutation, t: Try): Mutation {
    match t.outcome
    case Succeeds => Mutation(Succeeded, m.attempts + 1, None)
    case Fails => Mutation(Failed, m.attempts + 1, Some(t.end + RetryDelay(m.attempts + 1)))
    case Crashes => Mutation(InFlight, m.attempts + 1, None)
  }

  /** The rows and the attempts of a flush over the listed ids; it ends with the list, with the
      first attempt that does not succeed, or when the process dies between two attempts. */
  function Flush(rows: seq<Mutation>, due: seq<nat>, script: seq<Try>): (seq<Mutation>, seq<Attempt>)
    decreases |due|
  {
    if due == [] || script == [] || due[0] >= |rows| then (rows, [])
    else
      var t := script[0];
      var done := Attempt(due[0], t.start, t.end, t.outcome);
      var next := rows[due[0] := Record(rows[due[0]], t)];
      if t.outcome != Succeeds then (next, [done])
      else var (final, log) := Flush(next, due[1..], script[1..]); (final, [done] + log)
  }

  /** The due rows, oldest first. */
  function DueIds(rows: seq<Mutation>, now: int, from: nat): (ids: seq<nat>)
    requires from <= |rows|
    ensures forall id :: id in ids <==> from <= id < |rows| && Due(rows[id], now)
    ensures forall i, j :: 0 <= i < j < |ids| ==> ids[i] < ids[j]
    decreases |rows| - from
  {
    if from == |rows| then []
    else
      var rest := DueIds(rows, now, from + 1);
      assert forall k :: 0 <= k < |rest| ==> rest[k] in rest;
      if Due(rows[from], now) then [from] + rest else rest
  }

  datatype FlushResult = Flushed(applied: nat) | Stopped | Died

  predicate AllSucceeded(done: seq<Attempt>) { forall i :: 0 <= i < |done| ==> done[i].outcome == Succeeds }

  class MutationEngine {
    var rows: seq<Mutation>
    ghost var log: seq<Attempt>

    constructor ()
      ensures rows == [] && log == []
    {
      rows, log := [], [];
    }

    method Enqueue() returns (id: nat)
      modifies this
      ensures id == |old(rows)| && rows == old(rows) + [Mutation(Pending, 0, None)] && log == old(log)
    {
      id := |rows|;
      rows := rows + [Mutation(Pending, 0, None)];
    }

    /** Mark in flight, apply, record the result if the worker is still there. */
    method AttemptOne(id: nat, t: Try)
      requires id < |rows|
      modifies this
      ensures rows == old(rows)[id := Record(old(rows)[id], t)]
      ensures log == old(log) + [Attempt(id, t.start, t.end, t.outcome)]
    {
      var started := rows[id].attempts + 1;
      rows := rows[id := Mutation(InFlight, started, None)];
      log := log + [Attempt(id, t.start, t.end, t.outcome)];
      match t.outcome
      case Succeeds => rows := rows[id := Mutation(Succeeded, started, None)];
      case Fails => rows := rows[id := Mutation(Failed, started, Some(t.end + RetryDelay(started)))];
      case Crashes =>
    }

    method FlushPendingMutations(now: int, script: seq<Try>) returns (r: FlushResult)
      modifies this
      ensures var (rows', done) := Flush(old(rows), DueIds(old(rows), now, 0), script);
        && rows == rows' && log == old(log) + done
        && (r.Flushed? <==> |done| == |DueIds(old(rows), now, 0)| && AllSucceeded(done))
        && (r.Stopped? <==> done != [] && done[|done| - 1].outcome == Fails)
        && (r.Flushed? ==> r.applied == |done|)
    {
      hide RetryDelay, DueIds, Due, Record, Flush;
      var pending := DueIds(rows, now, 0);
      var applied := 0;
      ghost var done: seq<Attempt> := [];
      var i := 0;
      while i < |pending|
        invariant 0 <= i <= |pending| && applied == i <= |script| && |rows| == |old(rows)|
        invariant |done| == i && AllSucceeded(done) && log == old(log) + done
        invariant Flush(rows, pending[i..], script[i..]).0 == Flush(old(rows), pending, script).0
        invariant done + Flush(rows, pending[i..], script[i..]).1 == Flush(old(rows), pending, script).1
      {
        assert pending[i] in pending;
        FlushAt(rows, pending, script, i);
        if i == |script| {
          assert done + [] == done;
          return Died;
        }
        var t := script[i];
        AttemptOne(pending[i], t);
        done := done + [Attempt(pending[i], t.start, t.end, t.outcome)];
        if t.outcome != Succeeds {
          assert done[i].outcome != Succeeds;
          return if t.outcome == Fails then Stopped else Died;
        }
        applied := applied + 1;
        i := i + 1;
      }
      FlushAt(rows, pending, script, i);
      assert done + [] == done;
      r := Flushed(applied);
    }
  }

  /** The rest of a flush, by its next attempt. */
  lemma FlushAt(rows: seq<Mutation>, due: seq<nat>, script: seq<Try>, i: nat)
    requires i <= |due| && i <= |script| && (i < |due| ==> due[i] < |rows|)
    ensures i == |due| || i == |script| ==> Flush(rows, due[i..], script[i..]) == (rows, [])
    ensures i < |due| && i < |script| ==>
      var t := script[i];
      var (attempt, next) := (Attempt(due[i], t.start, t.end, t.outcome), rows[due[i] := Record(rows[due[i]], t)]);
      var rest := Flush(next, due[i + 1..], script[i + 1..]);
      var all := Flush(rows, due[i..], script[i..]);
      if t.outcome != Succeeds then all.0 == next && all.1 == [attempt] else all.0 == rest.0 && all.1 == [attempt] + rest.1
  {
    if i < |due| && i < |script| {
      assert due[i..][1..] == due[i + 1..] && script[i..][1..] == script[i + 1..];
    }
  }

  // ---------- what a flush touches ----------

  /** A flush attempts the due mutations in creation order, each at most once; all but the last
      attempt succeed, and every row it did not attempt stays as it was. */
  lemma {:induction false} FlushInOrder(rows: seq<Mutation>, due: seq<nat>, script: seq<Try>)
    requires forall i, j :: 0 <= i < j < |due| ==> due[i] < due[j]
    requires forall i :: 0 <= i < |due| ==> due[i] < |rows|
    ensures var (rows', done) := Flush(rows, due, script);
      && |rows'| == |rows| && |done| <= |due| && |done| <= |script|
      && (forall i :: 0 <= i < |done| ==>
            && done[i] == Attempt(due[i], script[i].start, script[i].end, script[i].outcome)
            && rows'[due[i]] == Record(rows[due[i]], script[i]))
      && (forall i :: 0 <= i < |done| - 1 ==> done[i].outcome == Succeeds)
      && (forall id :: 0 <= id < |rows| && id !in due[..|done|] ==> rows'[id] == rows[id])
    decreases |due|
  {
    hide Record;
    if due != [] && script != [] {
      var next := rows[due[0] := Record(rows[due[0]], script[0])];
      if script[0].outcome == Succeeds {
        FlushInOrder(next, due[1..], script[1..]);
        var (rows', done) := Flush(rows, due, script);
        var (_, rest) := Flush(next, due[1..], script[1..]);
        assert due[..|done|] == [due[0]] + due[1..][..|rest|];
        assert due[0] !in due[1..];
      } else {
        assert due[..1] == [due[0]];
      }
    }
  }

  // ---------- histories ----------

  datatype Event = Enqueued | Flushing(now: int, script: seq<Try>)

  datatype Queue = Queue(rows: seq<Mutation>, log: seq<Attempt>, clock: int)

  /** Times read by a flush, in order, none before `from`. */
  ghost predicate InTime(from: int, script: seq<Try>) {
    && (forall i :: 0 <= i < |script| ==> from <= script[i].start <= script[i].end)
    && (forall i, j :: 0 <= i < j < |script| ==> script[i].end <= script[j].start)
  }

  function LastTime(from: int, script: seq<Try>): int {
    if script == [] then from else script[|script| - 1].end
  }

  ghost predicate Possible(q: Queue, e: Event) {
    e.Flushing? ==> q.clock <= e.now && InTime(e.now, e.script)
  }

  function Next(q: Queue, e: Event): Queue {
    match e
    case Enqueued => q.(rows := q.rows + [Mutation(Pending, 0, None)])
    case Flushing(now, script) =>
      var (rows, done) := Flush(q.rows, DueIds(q.rows, now, 0), script);
      Queue(rows, q.log + done, LastTime(now, script))
  }

  ghost predicate History(q: Queue, es: seq<Event>)
    decreases |es|
  {
    es == [] || (Possible(q, es[0]) && History(Next(q, es[0]), es[1..]))
  }

  function After(q: Queue, es: seq<Event>): Queue
    decreases |es|
  {
    if es == [] then q else After(Next(q, es[0]), es[1..])
  }

  /** The attempts of one mutation, in order. */
  function Tries(log: seq<Attempt>, id: nat): seq<Attempt> {
    if log == [] then []
    else Tries(log[..|log| - 1], id) + if log[|log| - 1].id == id then [log[|log| - 1]] else []
  }

  /** Only failures are followed by another attempt, and not before the backoff is over. */
  ghost predicate Spaced(tries: seq<Attempt>) {
    && (forall i :: 0 <= i < |tries| ==> tries[i].start <= tries[i].end)
    && (forall i, j :: 0 <= i < j < |tries| ==>
          tries[i].outcome == Fails && tries[i].end + RetryDelay(i + 1) <= tries[j].start)
  }

  /** How a row and the attempts made on it belong together. */
  ghost predicate RowTells(m: Mutation, tries: seq<Attempt>) {
    && m.attempts == |tries| && Spaced(tries)
    && (m.status == Pending <==> tries == [])
    && (m.status == Pending ==> m.nextAttempt == None)
    && (m.status != Pending ==>
          match tries[|tries| - 1].outcome
          case Succeeds => m.status == Succeeded
          case Crashes => m.status == InFlight
          case Fails =>
            m.status == Failed && m.nextAttempt == Some(tries[|tries| - 1].end + RetryDelay(|tries|)))
  }

  ghost predicate Inv(q: Queue) {
    && (forall id :: 0 <= id < |q.rows| ==> RowTells(q.rows[id], Tries(q.log, id)))
    && (forall i :: 0 <= i < |q.log| ==> q.log[i].id < |q.rows|)
  }

  lemma RecordTells(m: Mutation, tries: seq<Attempt>, id: nat, t: Try, now: int)
    requires RowTells(m, tries) && Due(m, now) && now <= t.start <= t.end
    ensures RowTells(Record(m, t), tries + [Attempt(id, t.start, t.end, t.outcome)])
  {
    hide RetryDelay;
    var after := tries + [Attempt(id, t.start, t.end, t.outcome)];
    forall i, j | 0 <= i < j < |after|
      ensures after[i].outcome == Fails && after[i].end + RetryDelay(i + 1) <= after[j].start
    {
      var last := |tries| - 1;
      if j == |tries| && i < last {
        assert tries[i].end + RetryDelay(i + 1) <= tries[last].start;
      }
    }
  }

  lemma {:induction false} TriesConcat(log: seq<Attempt>, done: seq<Attempt>, id: nat)
    ensures Tries(log + done, id) == Tries(log, id) + Tries(done, id)
    decreases |done|
  {
    if done == [] {
      assert log + done == log;
    } else {
      assert (log + done)[..|log + done| - 1] == log + done[..|done| - 1];
      TriesConcat(log, done[..|done| - 1], id);
    }
  }

  /** In a log of distinct ids an id was tried at its own place or not at all. */
  lemma {:induction false} TriesDistinct(done: seq<Attempt>, id: nat)
    requires forall i, j :: 0 <= i < j < |done| ==> done[i].id != done[j].id
    ensures forall i :: 0 <= i < |done| && done[i].id == id ==> Tries(done, id) == [done[i]]
    ensures (forall i :: 0 <= i < |done| ==> done[i].id != id) ==> Tries(done, id) == []
    decreases |done|
  {
    if done != [] {
      var front := done[..|done| - 1];
      TriesDistinct(front, id);
      if done[|done| - 1].id == id {
        assert forall i :: 0 <= i < |front| ==> front[i].id != id;
      } else {
        forall i | 0 <= i < |done| && done[i].id == id ensures Tries(done, id) == [done[i]] {
          assert front[i] == done[i];
        }
      }
    }
  }

  lemma FlushTells(q: Queue, now: int, script: seq<Try>, id: nat)
    requires Inv(q) && InTime(now, script) && id < |q.rows|
    ensures var (rows, done) := Flush(q.rows, DueIds(q.rows, now, 0), script);
      |rows| == |q.rows| && RowTells(rows[id], Tries(q.log + done, id))
  {
    hide RowTells, Record, Flush, Tries, RetryDelay;
    var due := DueIds(q.rows, now, 0);
    assert forall i :: 0 <= i < |due| ==> due[i] in due;
    FlushInOrder(q.rows, due, script);
    var (rows, done) := Flush(q.rows, due, script);
    TriesConcat(q.log, done, id);
    TriesDistinct(done, id);
    if i :| 0 <= i < |done| && done[i].id == id {
      RecordTells(q.rows[id], Tries(q.log, id), id, script[i], now);
    } else {
      assert id !in due[..|done|];
      assert Tries(q.log, id) + [] == Tries(q.log, id);
    }
  }

  lemma {:induction false} TriesNone(log: seq<Attempt>, id: nat)
    requires forall i :: 0 <= i < |log| ==> log[i].id != id
    ensures Tries(log, id) == []
  {
    if log != [] { TriesNone(log[..|log| - 1], id); }
  }

  lemma EnqueueKeepsInv(q: Queue)
    requires Inv(q)
    ensures Inv(Next(q, Enqueued))
  {
    hide Tries, RetryDelay;
    TriesNone(q.log, |q.rows|);
  }

  lemma FlushKeepsInv(q: Queue, now: int, script: seq<Try>)
    requires Inv(q) && InTime(now, script)
    ensures Inv(Next(q, Flushing(now, script)))
  {
    hide Flush, RowTells, Tries;
    var due := DueIds(q.rows, now, 0);
    assert forall i :: 0 <= i < |due| ==> due[i] in due;
    FlushInOrder(q.rows, due, script);
    var after := Next(q, Flushing(now, script));
    forall id | 0 <= id < |q.rows| ensures RowTells(after.rows[id], Tries(after.log, id)) {
      FlushTells(q, now, script, id);
    }
  }

  lemma NextKeepsInv(q: Queue, e: Event)
    requires Inv(q) && Possible(q, e)
    ensures Inv(Next(q, e))
  {
    hide Inv, Next;
    match e
    case Enqueued => EnqueueKeepsInv(q);
    case Flushing(now, script) => FlushKeepsInv(q, now, script);
  }

  /** Over every history of enqueues and flushes with failures and crashes: the attempts counter
      is the number of attempts started, a succeeded or crashed mutation is never tried again,
      and each retry waits for its backoff. */
  lemma {:induction false} EveryHistoryTells(q: Queue, es: seq<Event>)
    requires Inv(q) && History(q, es)
    ensures Inv(After(q, es))
    decreases |es|
  {
    hide Inv, Next, Possible;
    if es != [] {
      NextKeepsInv(q, es[0]);
      EveryHistoryTells(Next(q, es[0]), es[1..]);
    }
  }

  // ---------- when a mutation is tried ----------

  /** Read off the log: never tried, or last tried without success and past its backoff. */
  ghost predicate MayTry(tries: seq<Attempt>, now: int) {
    tries == [] || (tries[|tries| - 1].outcome == Fails && tries[|tries| - 1].end + RetryDelay(|tries|) <= now)
  }

  /** A flush lists a mutation exactly when its log says so, however often it has failed before. */
  lemma DueFromLog(q: Queue, now: int, id: nat)
    requires Inv(q)
    ensures id in DueIds(q.rows, now, 0) <==> id < |q.rows| && MayTry(Tries(q.log, id), now)
  {
    hide Tries, RetryDelay, DueIds;
    if id < |q.rows| { assert RowTells(q.rows[id], Tries(q.log, id)); }
  }

  lemma {:induction false} FlushThrough(rows: seq<Mutation>, due: seq<nat>, script: seq<Try>)
    requires |script| >= |due| && (forall i :: 0 <= i < |script| ==> script[i].outcome == Succeeds)
    requires forall i :: 0 <= i < |due| ==> due[i] < |rows|
    ensures |Flush(rows, due, script).1| == |due|
    decreases |due|
  {
    hide Record;
    if due != [] { FlushThrough(rows[due[0] := Record(rows[due[0]], script[0])], due[1..], script[1..]); }
  }

  /** Every mutation whose backoff is over is delivered by a flush in which nothing fails; with all
      backoffs over, nothing is left waiting. */
  lemma FlushDelivers(q: Queue, now: int, script: seq<Try>, id: nat)
    requires Inv(q) && id < |q.rows| && MayTry(Tries(q.log, id), now)
    requires |script| >= |q.rows| && forall i :: 0 <= i < |script| ==> script[i].outcome == Succeeds
    ensures var after := Next(q, Flushing(now, script)); id < |after.rows| && after.rows[id].status == Succeeded
  {
    hide Tries, RetryDelay, Flush, DueIds;
    var due := DueIds(q.rows, now, 0);
    DueFromLog(q, now, id);
    DueBounds(q.rows, now);
    FlushInOrder(q.rows, due, script);
    FlushThrough(q.rows, due, script);
    var k :| 0 <= k < |due| && due[k] == id;
  }

  lemma DueBounds(rows: seq<Mutation>, now: int)
    ensures var due := DueIds(rows, now, 0);
      && |due| <= |rows| && (forall i :: 0 <= i < |due| ==> due[i] < |rows|)
      && forall i, j :: 0 <= i < j < |due| ==> due[i] < due[j]
  {
    DueCount(rows, now, 0);
    var due := DueIds(rows, now, 0);
    assert forall i :: 0 <= i < |due| ==> due[i] in due;
  }

  lemma {:induction false} DueCount(rows: seq<Mutation>, now: int, from: nat)
    requires from <= |rows|
    ensures |DueIds(rows, now, from)| <= |rows| - from
    decreases |rows| - from
  {
    hide Due;
    if from < |rows| { DueCount(rows, now, from + 1); }
  }

  lemma EmptyQueueTells(clock: int)
    ensures Inv(Queue([], [], clock))
  {}

  function TotalDelay(n: nat): nat { if n == 0 then 0 else TotalDelay(n - 1) + RetryDelay(n) }

  /** The start of attempt n + 1 is at least the sum of the first n delays after the first failure. */
  lemma {:induction false} DelaysAddUp(tries: seq<Attempt>, n: nat)
    requires Spaced(tries) && n < |tries|
    ensures n > 0 ==> tries[0].end + TotalDelay(n) <= tries[n].start
  {
    hide RetryDelay;
    if n > 1 { DelaysAddUp(tries, n - 1); }
  }

  /** A mutation tried again and again from an empty queue: the time it took. */
  lemma RetriesTakeTime(clock: int, es: seq<Event>, id: nat)
    requires History(Queue([], [], clock), es)
    ensures var q := After(Queue([], [], clock), es);
      id < |q.rows| && q.rows[id].attempts >= 2 ==>
        var tries := Tries(q.log, id);
        && |tries| == q.rows[id].attempts
        && tries[0].end + TotalDelay(|tries| - 1) <= tries[|tries| - 1].start
        && forall i :: 0 <= i < |tries| - 1 ==> tries[i].outcome == Fails
  {
    EmptyQueueTells(clock);
    EveryHistoryTells(Queue([], [], clock), es);
    var q := After(Queue([], [], clock), es);
    if id < |q.rows| && q.rows[id].attempts >= 2 {
      DelaysAddUp(Tries(q.log, id), q.rows[id].attempts - 1);
    }
  }
}
