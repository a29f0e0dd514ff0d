/**
 What a client that remembers HIGHESTMODSEQ learns later: the rows stamped above the
 remembered value are exactly the rows inserted or changed since (section 3.1 of RFC 7162).
 */
module ChangedSince {
  import opened Wrappers
  import opened MailboxStore
  import opened Text

  /** The counter is a 64-bit value that bounds every stored modseq. */
  ghost predicate Bounded(mb: Mailbox) {
    mb.Counter() <= I64_MAX && forall u :: u in mb.rows ==> mb.rows[u].modseq <= mb.Counter()
  }

  /** The UID a change inserts or rewrites, if any. */
  function Touches(mb: Mailbox, c: Change): set<int> {
    match c
    case Put(uid, _, _, _, _) => {UpsertUid(mb, uid)}
    case Copied(_) => {NextUid(mb)}
    case Flagged(uid, _) => if uid in mb.rows then {uid} else {}
    case Removed(_) => {}
  }

  function Touched(mb: Mailbox, cs: seq<Change>): set<int>
    decreases |cs|
  {
    if cs == [] then {} else Touches(mb, cs[0]) + Touched(Apply(mb, cs[0]), cs[1..])
  }

  function RowsAbove(mb: Mailbox, h: int): set<int> {
    set u | u in mb.rows && mb.rows[u].modseq > h
  }

  /** One transaction: the counter never falls, rows it does not touch stay as they are, and a
      touched row carries the new counter, which is above the old one short of saturation. */
  lemma ApplyStamps(mb: Mailbox, c: Change)
    requires mb.Counter() <= I64_MAX
    ensures var after := Apply(mb, c);
      && mb.Counter() <= after.Counter() == Min64(mb.Counter() + Moves(mb, c)) <= I64_MAX
      && (forall u :: u in after.rows && u !in Touches(mb, c) ==> u in mb.rows && after.rows[u] == mb.rows[u])
      && (forall u :: u in after.rows && u in Touches(mb, c) ==> after.rows[u].modseq == after.Counter() && Moves(mb, c) == 1)
  {}

  function Min64(n: int): int { if n <= I64_MAX then n else I64_MAX }

  /** Whether a change moves the counter: only the delete of a missing row does not. */
  function Moves(mb: Mailbox, c: Change): nat { if c.Removed? && c.uid !in mb.rows then 0 else 1 }

  /** How far the counter has moved, short of saturation, when a row is touched for the last time. */
  function LastMove(mb: Mailbox, cs: seq<Change>, u: int): nat
    decreases |cs|
  {
    if cs == [] then 0
    else if u in Touched(Apply(mb, cs[0]), cs[1..]) then Moves(mb, cs[0]) + LastMove(Apply(mb, cs[0]), cs[1..], u)
    else Moves(mb, cs[0])
  }

  function TotalMoves(mb: Mailbox, cs: seq<Change>): nat
    decreases |cs|
  {
    if cs == [] then 0 else Moves(mb, cs[0]) + TotalMoves(Apply(mb, cs[0]), cs[1..])
  }

  /** The counter after any run. */
  lemma {:induction false} RunCounter(mb: Mailbox, cs: seq<Change>)
    requires mb.Counter() <= I64_MAX
    ensures Run(mb, cs).Counter() == Min64(mb.Counter() + TotalMoves(mb, cs))
    decreases |cs|
  {
    hide Apply, Touches, Moves;
    if cs != [] {
      ApplyStamps(mb, cs[0]);
      RunCounter(Apply(mb, cs[0]), cs[1..]);
    }
  }

  /** Every stamp after any run: an untouched row keeps its own, a touched row carries the counter
      of the moment it was touched last.  Nothing is asked of the stamps before the run. */
  lemma {:induction false} RunStamps(mb: Mailbox, cs: seq<Change>)
    requires mb.Counter() <= I64_MAX
    ensures var after := Run(mb, cs);
      && mb.Counter() <= after.Counter() <= I64_MAX
      && (forall u :: u in after.rows && u !in Touched(mb, cs) ==> u in mb.rows && after.rows[u] == mb.rows[u])
      && (forall u :: u in after.rows && u in Touched(mb, cs) ==>
            LastMove(mb, cs, u) >= 1 && after.rows[u].modseq == Min64(mb.Counter() + LastMove(mb, cs, u)) <= after.Counter())
    decreases |cs|
  {
    hide Apply, Touches, Moves;
    if cs != [] {
      var next, rest := Apply(mb, cs[0]), cs[1..];
      ApplyStamps(mb, cs[0]);
      RunStamps(next, rest);
    }
  }

  /** The rows a client learns of when it asks for changes since any `h`, after any run. */
  lemma RowsAboveExactly(mb: Mailbox, cs: seq<Change>, h: int, u: int)
    requires mb.Counter() <= I64_MAX && u in Run(mb, cs).rows
    ensures u !in Touched(mb, cs) ==> u in mb.rows
    ensures u in RowsAbove(Run(mb, cs), h) <==>
      if u in Touched(mb, cs) then h < Min64(mb.Counter() + LastMove(mb, cs, u)) else h < mb.rows[u].modseq
  {
    hide Run, Touched, LastMove;
    RunStamps(mb, cs);
  }

  /** The live rows that a run inserted or changed. */
  ghost function ChangedRows(mb: Mailbox, cs: seq<Change>): set<int> { Touched(mb, cs) * Run(mb, cs).rows.Keys }

  lemma SameSet(a: set<int>, b: set<int>)
    ensures a == b <==> forall u :: u in a <==> u in b
  {
    if forall u :: u in a <==> u in b { assert a == b; }
  }

  /** A client that asks with the counter it was given is answered exactly if and only if no row
      left alone since carries a stamp beyond that counter, and the counter was below saturation
      or nothing that changed is left. */
  lemma AnswerExactIff(mb: Mailbox, cs: seq<Change>)
    requires mb.Counter() <= I64_MAX
    ensures RowsAbove(Run(mb, cs), mb.Counter()) == ChangedRows(mb, cs) <==>
      && (forall u :: u in Run(mb, cs).rows && u !in Touched(mb, cs) && u in mb.rows ==> mb.rows[u].modseq <= mb.Counter())
      && (mb.Counter() < I64_MAX || ChangedRows(mb, cs) == {})
  {
    var h, after, changed := mb.Counter(), Run(mb, cs), ChangedRows(mb, cs);
    RunStamps(mb, cs);
    forall u | u in after.rows
      ensures u in RowsAbove(after, h) <==> if u in changed then h < I64_MAX else h < mb.rows[u].modseq
    {
      RowsAboveExactly(mb, cs, h, u);
    }
    SameSet(RowsAbove(after, h), changed);
    assert (forall u :: u in RowsAbove(after, h) <==> u in changed)
      <==> forall u :: u in after.rows ==> (u in RowsAbove(after, h) <==> u in changed);
  }

  /** While the counter bounds every stamp, only saturation stands between a client and an exact
      answer. */
  lemma ChangedSinceExact(mb: Mailbox, cs: seq<Change>)
    requires Bounded(mb)
    ensures RowsAbove(Run(mb, cs), mb.Counter()) == ChangedRows(mb, cs)
      <==> mb.Counter() < I64_MAX || ChangedRows(mb, cs) == {}
  {
    hide Run, Touched, ChangedRows, RowsAbove;
    AnswerExactIff(mb, cs);
  }

  lemma RunKeepsBounded(mb: Mailbox, cs: seq<Change>)
    requires Bounded(mb)
    ensures Bounded(Run(mb, cs)) && mb.Counter() <= Run(mb, cs).Counter()
  {
    hide Run, Touched, LastMove;
    RunStamps(mb, cs);
  }

  /** Over a whole life of the mailbox the counter never falls and bounds every row. */
  lemma CounterMonotone(mb: Mailbox, earlier: seq<Change>, later: seq<Change>)
    requires Bounded(mb)
    ensures Run(mb, earlier + later) == Run(Run(mb, earlier), later)
    ensures Bounded(Run(mb, earlier + later))
    ensures Run(mb, earlier).Counter() <= Run(mb, earlier + later).Counter()
  {
    hide Bounded;
    RunSplit(mb, earlier, later);
    RunKeepsBounded(mb, earlier);
    RunKeepsBounded(Run(mb, earlier), later);
  }

  lemma {:induction false} RunSplit(mb: Mailbox, earlier: seq<Change>, later: seq<Change>)
    ensures Run(mb, earlier + later) == Run(Run(mb, earlier), later)
    decreases |earlier|
  {
    if earlier == [] {
      assert earlier + later == later;
    } else {
      assert (earlier + later)[1..] == earlier[1..] + later;
      RunSplit(Apply(mb, earlier[0]), earlier[1..], later);
    }
  }

  // ---------- a reset in between ----------

  /** `upsert_mailbox` with no modseq, at the start of every sync: the counter is cleared, the
      rows stay. */
  function ResetCounter(mb: Mailbox): Mailbox { mb.(highest := None) }

  /** A client that got its counter after the reset is answered exactly if and only if no row left
      alone since carries a positive stamp, that is, a stamp from before the reset. */
  lemma ResetAnswerExactIff(mb: Mailbox, cs: seq<Change>)
    ensures var r := ResetCounter(mb); var after := Run(r, cs);
      RowsAbove(after, r.Counter()) == Touched(r, cs) * after.rows.Keys
      <==> forall u :: u in after.rows && u !in Touched(r, cs) && u in mb.rows ==> mb.rows[u].modseq <= 0
  {
    hide Run, Touched, RowsAbove;
    AnswerExactIff(ResetCounter(mb), cs);
  }

  /** A client that still holds the counter from before the reset is told of no row that did not
      change, but of a changed row only once the counter, counting from zero again, had passed the
      old value when the row was changed last.  It is answered exactly if and only if that holds
      of every changed row that is left. */
  lemma OldCounterAnswerIff(mb: Mailbox, cs: seq<Change>)
    requires Bounded(mb)
    ensures var r, h := ResetCounter(mb), mb.Counter();
      && (forall u :: u in RowsAbove(Run(r, cs), h) <==> u in ChangedRows(r, cs) && h < Min64(LastMove(r, cs, u)))
      && (RowsAbove(Run(r, cs), h) == ChangedRows(r, cs)
          <==> forall u :: u in ChangedRows(r, cs) ==> h < Min64(LastMove(r, cs, u)))
  {
    var r, h := ResetCounter(mb), mb.Counter();
    var after, changed := Run(r, cs), ChangedRows(r, cs);
    forall u ensures u in RowsAbove(after, h) <==> u in changed && h < Min64(LastMove(r, cs, u)) {
      if u in after.rows { RowsAboveExactly(r, cs, h, u); }
    }
    SameSet(RowsAbove(after, h), changed);
  }

  lemma {:induction false} MovesBound(mb: Mailbox, cs: seq<Change>, u: int)
    ensures LastMove(mb, cs, u) <= |cs|
    decreases |cs|
  {
    if cs != [] { MovesBound(Apply(mb, cs[0]), cs[1..], u); }
  }

  /** In particular it is told of nothing at all for as many changes as the old value counts. */
  lemma ResetHidesChanges(mb: Mailbox, cs: seq<Change>)
    requires Bounded(mb) && |cs| <= mb.Counter()
    ensures RowsAbove(Run(ResetCounter(mb), cs), mb.Counter()) == {}
  {
    hide Run, Touched, ChangedRows, RowsAbove;
    OldCounterAnswerIff(mb, cs);
    forall u ensures u !in RowsAbove(Run(ResetCounter(mb), cs), mb.Counter()) { MovesBound(ResetCounter(mb), cs, u); }
  }
}
