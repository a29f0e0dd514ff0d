/**
 What a whole sync run does to a mailbox's stamps and counter: the reset before it, then the
 writes of its plan in their order.  Upstream's counter value is adopted before the rows upstream
 no longer has are removed, and each removal moves the counter on.
 */
module SyncStamps {
  import opened Wrappers
  import opened Ordering
  import opened MailboxStore
  import opened Text
  import opened ChangedSince
  import opened Mirror

  /** The mailbox change a write makes; the two saves make none. */
  function ChangeOf(l: Local, w: Write): seq<Change> {
    match w
    case DropRow(uid) => [Removed(uid)]
    case WriteFlags(uid, flags) => [Flagged(uid, flags)]
    case IngestRow(uid, _, flags) => [Put(uid, l.nextId, Some(uid), flags, [])]
    case _ => []
  }

  function ChangesOf(l: Local, ws: seq<Write>): seq<Change>
    decreases |ws|
  {
    if ws == [] then [] else ChangeOf(l, ws[0]) + ChangesOf(Perform(l, ws[0]), ws[1..])
  }

  predicate NoSaves(ws: seq<Write>) { forall i :: 0 <= i < |ws| ==> !ws[i].SaveCheckpoint? && !ws[i].SaveMetadata? }

  /** Writes other than the saves act on the mailbox as a run of changes. */
  lemma {:induction false} WritesAreChanges(l: Local, ws: seq<Write>)
    requires NoSaves(ws)
    ensures PerformAll(l, ws).mailbox == Run(l.mailbox, ChangesOf(l, ws)) && |ChangesOf(l, ws)| == |ws|
    decreases |ws|
  {
    if ws != [] {
      var next := Perform(l, ws[0]);
      WritesAreChanges(next, ws[1..]);
      var change := ChangeOf(l, ws[0])[0];
      assert ChangesOf(l, ws) == [change] + ChangesOf(next, ws[1..]);
      assert ChangesOf(l, ws)[1..] == ChangesOf(next, ws[1..]);
      assert Apply(l.mailbox, change) == next.mailbox;
    }
  }

  // ---------- the parts of a run ----------

  /** What the plan is made on: the local state once `upsert_mailbox` has cleared the counter. */
  function Cleared(l: Local): Local { l.(mailbox := ResetCounter(l.mailbox)) }

  function FirstWrites(l: Local, a: Answers): seq<Write>
    requires a.Valid()
  {
    ClearPlan(Cleared(l), a.reported) + FetchPart(Cleared(l), a)
  }

  /** The changes before upstream's counter value is adopted: rows cleared, flags, ingests. */
  function FirstChanges(l: Local, a: Answers): seq<Change>
    requires a.Valid()
  {
    ChangesOf(Cleared(l), FirstWrites(l, a))
  }

  /** The mailbox after a complete run. */
  function AfterSync(l: Local, a: Answers): Mailbox
    requires a.Valid()
  {
    PerformAll(Cleared(l), Plan(Cleared(l), a)).mailbox
  }

  function AdoptCounter(mb: Mailbox, reported: Option<int>): Mailbox {
    if reported.Some? then mb.(highest := reported) else mb
  }

  /** The UIDs removed at the end. */
  function Gone(l: Local, a: Answers): seq<int>
    requires a.Valid()
  {
    var saved := PerformAll(Cleared(l), UpToSave(Cleared(l), a)).mailbox;
    Stale(saved, Uids(saved), a.reply)
  }

  function Removals(uids: seq<int>): (r: seq<Change>)
    ensures |r| == |uids| && forall i :: 0 <= i < |r| ==> r[i] == Removed(uids[i])
  {
    seq(|uids|, i requires 0 <= i < |uids| => Removed(uids[i]))
  }

  lemma {:induction false} DropsAreRemovals(l: Local, uids: seq<int>)
    ensures NoSaves(Drops(uids)) && ChangesOf(l, Drops(uids)) == Removals(uids)
    decreases |uids|
  {
    hide Perform;
    if uids != [] {
      assert Drops(uids)[1..] == Drops(uids[1..]);
      DropsAreRemovals(Perform(l, DropRow(uids[0])), uids[1..]);
      assert Removals(uids) == [Removed(uids[0])] + Removals(uids[1..]);
    }
  }

  lemma {:induction false} LoopHasNoSaves(base: Local, up: Upstream, last: int, reply: seq<int>, n: nat)
    requires n <= |reply| && forall i :: 0 <= i < |reply| ==> reply[i] in up.messages
    ensures NoSaves(LoopPlan(base, up, last, reply, n))
  {
    hide NormalizeFlags, LocalFor, Ascend;
    if n > 0 { LoopHasNoSaves(base, up, last, reply, n - 1); }
  }

  /** The mailbox just before the removals. */
  ghost function Adopted(l: Local, a: Answers): Mailbox
    requires a.Valid()
  {
    AdoptCounter(Run(ResetCounter(l.mailbox), FirstChanges(l, a)), a.highest)
  }

  lemma SavesAdopt(l: Local, fetched: Local, a: Answers)
    ensures PerformAll(fetched, SavePart(l, a)).mailbox == AdoptCounter(fetched.mailbox, a.highest)
  {
    hide Newest, EpochChanged;
    var saves := SavePart(l, a);
    PerformSnoc(fetched, [], saves[0]);
    PerformSnoc(fetched, [saves[0]], saves[1]);
    assert [] + [saves[0]] == [saves[0]] && [saves[0]] + [saves[1]] == saves;
    assert PerformAll(fetched, []) == fetched;
  }

  lemma FirstHasNoSaves(l: Local, a: Answers)
    requires a.Valid()
    ensures NoSaves(FirstWrites(l, a))
  {
    hide LoopPlan, Synced, Ascend, PerformAll;
    var c := Cleared(l);
    LoopHasNoSaves(Base(c, a.reported), a.up, EffectiveLast(c, a.reported), a.reply, |a.reply|);
  }

  lemma UpToAdoption(l: Local, a: Answers)
    requires a.Valid()
    ensures PerformAll(Cleared(l), UpToSave(Cleared(l), a)).mailbox == Adopted(l, a)
  {
    hide LoopPlan, ClearPlan, FetchPart, SavePart, PerformAll, Perform;
    var c := Cleared(l);
    FirstHasNoSaves(l, a);
    WritesAreChanges(c, FirstWrites(l, a));
    PerformConcat(c, FirstWrites(l, a), SavePart(c, a));
    SavesAdopt(c, PerformAll(c, FirstWrites(l, a)), a);
  }

  /** A complete run, as the stamps see it: reset, changes, adoption, removals. */
  lemma SyncIsRuns(l: Local, a: Answers)
    requires a.Valid()
    ensures AfterSync(l, a) == Run(Adopted(l, a), Removals(Gone(l, a)))
  {
    hide UpToSave, PerformAll, Perform, Stale, Ascend, FirstChanges, Drops;
    var c := Cleared(l);
    UpToAdoption(l, a);
    PerformConcat(c, UpToSave(c, a), ReconcilePart(c, a));
    var saved := PerformAll(c, UpToSave(c, a));
    DropsAreRemovals(saved, Gone(l, a));
    WritesAreChanges(saved, Drops(Gone(l, a)));
  }

  // ---------- the counter ----------

  lemma {:induction false} RemovalsTouchNothing(mb: Mailbox, uids: seq<int>)
    ensures Touched(mb, Removals(uids)) == {}
    ensures Run(mb, Removals(uids)).rows == mb.rows - set u | u in uids
    decreases |uids|
  {
    if uids != [] {
      assert Removals(uids)[1..] == Removals(uids[1..]);
      RemovalsTouchNothing(Delete(mb, uids[0]), uids[1..]);
      assert (set u | u in uids) == {uids[0]} + set u | u in uids[1..];
    } else {
      assert mb.rows == mb.rows - {};
    }
  }

  /** Removing rows that are there, each once, moves the counter once for each. */
  lemma {:induction false} RemovalsMove(mb: Mailbox, uids: seq<int>)
    requires Ascending(IntLess, uids) && forall i :: 0 <= i < |uids| ==> uids[i] in mb.rows
    ensures TotalMoves(mb, Removals(uids)) == |uids|
    decreases |uids|
  {
    if uids != [] {
      assert Removals(uids)[1..] == Removals(uids[1..]);
      assert forall i :: 1 <= i < |uids| ==> IntLess(uids[0], uids[i]);
      RemovalsMove(Delete(mb, uids[0]), uids[1..]);
    }
  }

  lemma {:induction false} StaleAscending(mb: Mailbox, uids: seq<int>, reply: seq<int>)
    requires Ascending(IntLess, uids)
    ensures Ascending(IntLess, Stale(mb, uids, reply))
  {
    if uids != [] {
      StaleAscending(mb, uids[1..], reply);
      var rest := Stale(mb, uids[1..], reply);
      forall i | 0 <= i < |rest| ensures IntLess(uids[0], rest[i]) {
        assert rest[i] in rest;
        var k :| 0 <= k < |uids[1..]| && uids[1..][k] == rest[i];
        assert IntLess(uids[0], uids[k + 1]);
      }
    }
  }

  lemma GoneAreThere(l: Local, a: Answers)
    requires a.Valid()
    ensures Ascending(IntLess, Gone(l, a)) && forall i :: 0 <= i < |Gone(l, a)| ==> Gone(l, a)[i] in Adopted(l, a).rows
  {
    hide UpToSave, PerformAll, Stale, Ascend, FirstChanges;
    UpToAdoption(l, a);
    var saved := PerformAll(Cleared(l), UpToSave(Cleared(l), a)).mailbox;
    AscendSpec(saved.rows.Keys);
    StaleAscending(saved, Uids(saved), a.reply);
    forall i | 0 <= i < |Gone(l, a)| ensures Gone(l, a)[i] in saved.rows { assert Gone(l, a)[i] in Gone(l, a); }
  }

  /** Upstream's value if it reported one, otherwise the moves of the run's own changes, and one
      more for each row removed at the end. */
  ghost function EndCounter(l: Local, a: Answers): int
    requires a.Valid()
  {
    Min64(a.highest.GetOr(Min64(TotalMoves(ResetCounter(l.mailbox), FirstChanges(l, a)))) + |Gone(l, a)|)
  }

  /** The counter after a complete run. */
  lemma FinalCounter(l: Local, a: Answers)
    requires a.Valid() && (a.highest.Some? ==> a.highest.value <= I64_MAX)
    ensures AfterSync(l, a).Counter() == EndCounter(l, a) <= I64_MAX
  {
    hide AfterSync, Gone, FirstChanges, Run, TotalMoves;
    SyncIsRuns(l, a);
    GoneAreThere(l, a);
    RunCounter(ResetCounter(l.mailbox), FirstChanges(l, a));
    RemovalsMove(Adopted(l, a), Gone(l, a));
    RunCounter(Adopted(l, a), Removals(Gone(l, a)));
  }

  // ---------- the stamps ----------

  /** The stamp of a row after a complete run: of a row the run left alone its old one, of the
      others the number of counter moves up to the last touch. */
  ghost function StampAfter(l: Local, a: Answers, u: int): int
    requires a.Valid()
  {
    var r, cs := ResetCounter(l.mailbox), FirstChanges(l, a);
    if u in Touched(r, cs) then Min64(LastMove(r, cs, u)) else if u in l.mailbox.rows then l.mailbox.rows[u].modseq else 0
  }

  lemma SyncStampsRows(l: Local, a: Answers, u: int)
    requires a.Valid() && (a.highest.Some? ==> a.highest.value <= I64_MAX) && u in AfterSync(l, a).rows
    ensures AfterSync(l, a).rows[u].modseq == StampAfter(l, a, u)
    ensures u in Touched(ResetCounter(l.mailbox), FirstChanges(l, a)) || u in l.mailbox.rows
  {
    hide AfterSync, Gone, FirstChanges, Run, Touched, LastMove;
    SyncIsRuns(l, a);
    RemovalsTouchNothing(Adopted(l, a), Gone(l, a));
    RunStamps(ResetCounter(l.mailbox), FirstChanges(l, a));
  }

  /** After a complete sync run the counter bounds every stamp, so that only saturation can spoil
      later answers, if and only if its final value reaches the stamp of each row that is left. */
  lemma SyncKeepsBoundIff(l: Local, a: Answers)
    requires a.Valid() && (a.highest.Some? ==> a.highest.value <= I64_MAX)
    ensures Bounded(AfterSync(l, a)) <==> forall u :: u in AfterSync(l, a).rows ==> StampAfter(l, a, u) <= EndCounter(l, a)
  {
    hide AfterSync, EndCounter, StampAfter;
    FinalCounter(l, a);
    forall u | u in AfterSync(l, a).rows ensures AfterSync(l, a).rows[u].modseq == StampAfter(l, a, u) {
      SyncStampsRows(l, a, u);
    }
  }

  /** The stamp of a row once a complete run and later changes are through. */
  ghost function LaterStamp(l: Local, a: Answers, later: seq<Change>, u: int): int
    requires a.Valid()
  {
    if u in Touched(AfterSync(l, a), later) then Min64(EndCounter(l, a) + LastMove(AfterSync(l, a), later, u))
    else StampAfter(l, a, u)
  }

  /** What a client is told that asks with any value `h`, a complete run and any later changes on:
      of a row changed since the run, whether the counter had passed `h` at its last change; of any
      other row, whether its stamp from the run or from before it passes `h`. */
  lemma ToldAfterSync(l: Local, a: Answers, later: seq<Change>, h: int, u: int)
    requires a.Valid() && (a.highest.Some? ==> a.highest.value <= I64_MAX) && u in Run(AfterSync(l, a), later).rows
    ensures u in RowsAbove(Run(AfterSync(l, a), later), h) <==> h < LaterStamp(l, a, later, u)
    ensures u in Touched(AfterSync(l, a), later) || u in AfterSync(l, a).rows
  {
    hide AfterSync, EndCounter, StampAfter, Run, Touched, LastMove;
    FinalCounter(l, a);
    RowsAboveExactly(AfterSync(l, a), later, h, u);
    if u !in Touched(AfterSync(l, a), later) { SyncStampsRows(l, a, u); }
  }

  /** Changed by the run or later. */
  ghost predicate ChangedSinceSync(l: Local, a: Answers, later: seq<Change>, u: int)
    requires a.Valid()
  {
    u in Touched(ResetCounter(l.mailbox), FirstChanges(l, a)) || u in Touched(AfterSync(l, a), later)
  }

  lemma OldClientTold(l: Local, a: Answers, later: seq<Change>, u: int)
    requires a.Valid() && (a.highest.Some? ==> a.highest.value <= I64_MAX) && Bounded(l.mailbox)
    requires u in Run(AfterSync(l, a), later).rows
    ensures u in RowsAbove(Run(AfterSync(l, a), later), l.mailbox.Counter()) <==>
      ChangedSinceSync(l, a, later, u) && l.mailbox.Counter() < LaterStamp(l, a, later, u)
  {
    hide AfterSync, EndCounter, FirstChanges, Run, Touched, LastMove;
    ToldAfterSync(l, a, later, l.mailbox.Counter(), u);
    if !ChangedSinceSync(l, a, later, u) { SyncStampsRows(l, a, u); }
  }

  /** A client that holds the counter from before a complete run, asking any later changes on: it is
      told of no row that did not change, and of all that did if and only if the stamp of each
      passes its value. */
  lemma OldClientAfterSyncIff(l: Local, a: Answers, later: seq<Change>)
    requires a.Valid() && (a.highest.Some? ==> a.highest.value <= I64_MAX) && Bounded(l.mailbox)
    ensures var h, end := l.mailbox.Counter(), Run(AfterSync(l, a), later);
      && (forall u :: u in RowsAbove(end, h) ==> ChangedSinceSync(l, a, later, u))
      && ((forall u :: u in end.rows && ChangedSinceSync(l, a, later, u) ==> u in RowsAbove(end, h))
          <==> forall u :: u in end.rows && ChangedSinceSync(l, a, later, u) ==> h < LaterStamp(l, a, later, u))
  {
    hide AfterSync, Run, ChangedSinceSync, LaterStamp;
    forall u | u in Run(AfterSync(l, a), later).rows
      ensures u in RowsAbove(Run(AfterSync(l, a), later), l.mailbox.Counter()) <==>
        ChangedSinceSync(l, a, later, u) && l.mailbox.Counter() < LaterStamp(l, a, later, u)
    {
      OldClientTold(l, a, later, u);
    }
  }
}
