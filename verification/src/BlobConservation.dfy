/** Reference counts equal live references, over every history of ingests, copies and deletes. */
module BlobConservation {
  import opened Wrappers
  import opened Sums
  import opened MailboxStore
  import opened BlobLedger

  lemma LiveMember(t: Tables, m: int, u: int)
    ensures (m, u) in Live(t) <==> m in t.mailboxes && u in t.mailboxes[m].rows
  {}

  /** One mailbox gained the row `u`. */
  lemma LiveAdds(t: Tables, t': Tables, mailbox: int, u: int)
    requires mailbox in t.mailboxes && t'.mailboxes.Keys == t.mailboxes.Keys
    requires forall m :: m in t.mailboxes && m != mailbox ==> t'.mailboxes[m] == t.mailboxes[m]
    requires t'.mailboxes[mailbox].rows.Keys == t.mailboxes[mailbox].rows.Keys + {u}
    ensures Live(t') == Live(t) + {(mailbox, u)}
  {
    forall r: (int, int) ensures r in Live(t') <==> r in Live(t) + {(mailbox, u)} {
      LiveMember(t, r.0, r.1);
      LiveMember(t', r.0, r.1);
    }
  }

  /** A row that is the same before and after, with its message, keeps its demand. */
  lemma DemandKept(t: Tables, t': Tables, r: (int, int), account: int, key: string)
    requires r.0 in t.mailboxes && r.0 in t'.mailboxes && t'.mailboxes[r.0].account == t.mailboxes[r.0].account
    requires r.1 in t.mailboxes[r.0].rows && r.1 in t'.mailboxes[r.0].rows
    requires var id := t.mailboxes[r.0].rows[r.1].messageId;
      && t'.mailboxes[r.0].rows[r.1].messageId == id
      && id in t.messages && id in t'.messages && t'.messages[id] == t.messages[id]
    ensures RowDemand(t', account, key, r) == RowDemand(t, account, key, r)
  {
    hide Mult;
  }

  /** What an operation that writes row `u` of one mailbox leaves alone. */
  ghost predicate WritesRow(t: Tables, t': Tables, mailbox: int, u: int) {
    && Linked(t) && Linked(t')
    && mailbox in t.mailboxes && t'.mailboxes.Keys == t.mailboxes.Keys
    && (forall m :: m in t.mailboxes ==> t'.mailboxes[m].account == t.mailboxes[m].account)
    && (forall m :: m in t.mailboxes && m != mailbox ==> t'.mailboxes[m] == t.mailboxes[m])
    && t'.mailboxes[mailbox].rows.Keys == t.mailboxes[mailbox].rows.Keys + {u}
    && (forall v :: v in t.mailboxes[mailbox].rows && v != u ==>
          t'.mailboxes[mailbox].rows[v] == t.mailboxes[mailbox].rows[v])
    && (forall id :: id in t.messages ==> id in t'.messages && t'.messages[id] == t.messages[id])
  }

  /** The demand after writing row `u`: the new row's references in, the overwritten row's out. */
  lemma WrittenDemand(t: Tables, t': Tables, mailbox: int, u: int, account: int, key: string)
    requires WritesRow(t, t', mailbox, u)
    ensures Demand(t', account, key) == Demand(t, account, key)
      - RowDemand(t, account, key, (mailbox, u)) + RowDemand(t', account, key, (mailbox, u))
  {
    hide RowDemand, Demand, Refs, Mult;
    var row := (mailbox, u);
    LiveAdds(t, t', mailbox, u);
    LiveMember(t, mailbox, u);
    forall r | r in Live(t) && r != row ensures RowDemand(t', account, key, r) == RowDemand(t, account, key, r) {
      LiveMember(t, r.0, r.1);
      DemandKept(t, t', r, account, key);
    }
    if row in Live(t) {
      assert Live(t) + {row} == Live(t);
      DemandReplaces(t, t', row, account, key);
    } else {
      AbsentDemand(t, account, key, row);
      DemandAdds(t, t', row, account, key);
    }
  }

  lemma AbsentDemand(t: Tables, account: int, key: string, row: (int, int))
    requires row !in Live(t)
    ensures RowDemand(t, account, key, row) == 0
  {
    LiveMember(t, row.0, row.1);
  }

  lemma IngestWrites(t: Tables, mailbox: int, uid: int, id: int, m: Message, upstreamUid: Option<int>, flags: seq<string>)
    requires Linked(t) && mailbox in t.mailboxes && id !in t.messages
    ensures WritesRow(t, Ingest(t, mailbox, uid, id, m, upstreamUid, flags), mailbox, IngestUid(t, mailbox, uid))
  {}

  lemma IngestTotal(c: Cache, m: Message, a: int, key: string)
    requires Positive(c)
    ensures var c' := AddRef(AddRefs(c, m.account, m.parts), m.account, Ref(Rfc822, m.rfc822Key));
      && Positive(c')
      && Total(c', a, key) == Total(c, a, key)
           + if a == m.account then Mult([Ref(Rfc822, m.rfc822Key)] + m.parts, key) else 0
  {
    hide Total, Mult;
    AddRefsTotal(c, m.account, m.parts, a, key);
    AddRefTotal(AddRefs(c, m.account, m.parts), m.account, Ref(Rfc822, m.rfc822Key), a, key);
    MultCons(Ref(Rfc822, m.rfc822Key), m.parts, key);
  }

  /** The references an ingest drops without releasing: those of the row it overwrites. */
  ghost function Leaked(t: Tables, mailbox: int, uid: int): seq<Ref>
    requires mailbox in t.mailboxes
  {
    var at := IngestUid(t, mailbox, uid);
    var mb := t.mailboxes[mailbox];
    if at in mb.rows then Refs(t, mb.account, mb.rows[at].messageId) else []
  }

  /** How far a count exceeds the live references. */
  ghost function Surplus(t: Tables, account: int, key: string): int {
    Total(t.cache, account, key) - Demand(t, account, key)
  }

  /** Rows refer to stored messages, counts are positive, and no live reference is uncounted. */
  ghost predicate Covered(t: Tables) {
    Linked(t) && Positive(t.cache) && forall account, key :: Surplus(t, account, key) >= 0
  }

  lemma ConservedIsBalanced(t: Tables)
    ensures Conserved(t) <==> Covered(t) && forall account, key :: Surplus(t, account, key) == 0
  {
    hide Total, Demand, Linked, Positive;
    if Conserved(t) {
      forall account, key ensures Surplus(t, account, key) == 0 {}
    }
    if Covered(t) && forall account, key :: Surplus(t, account, key) == 0 {
      forall account, key ensures Total(t.cache, account, key) == Demand(t, account, key) {
        assert Surplus(t, account, key) == 0;
      }
    }
  }

  /** After any ingest the surplus has grown by exactly the overwritten row's references. */
  lemma IngestBalance(t: Tables, mailbox: int, uid: int, id: int, m: Message, upstreamUid: Option<int>,
                      flags: seq<string>, a: int, key: string)
    requires Linked(t) && Positive(t.cache)
    requires mailbox in t.mailboxes && id !in t.messages && m.account == t.mailboxes[mailbox].account
    ensures var t' := Ingest(t, mailbox, uid, id, m, upstreamUid, flags);
      && Linked(t') && Positive(t'.cache)
      && Surplus(t', a, key) == Surplus(t, a, key) + if a == m.account then Mult(Leaked(t, mailbox, uid), key) else 0
  {
    hide Total, Mult, Demand, AddRefs, AddRef;
    var t' := Ingest(t, mailbox, uid, id, m, upstreamUid, flags);
    var at := IngestUid(t, mailbox, uid);
    IngestWrites(t, mailbox, uid, id, m, upstreamUid, flags);
    WrittenDemand(t, t', mailbox, at, a, key);
    IngestTotal(t.cache, m, a, key);
    EmptyMult(key);
  }

  lemma NonEmptyMult(refs: seq<Ref>)
    requires refs != []
    ensures Mult(refs, refs[0].key) >= 1
  {
    hide Mult;
    assert refs == [refs[0]] + refs[1..];
    MultCons(refs[0], refs[1..], refs[0].key);
    MultNonNegative(refs[1..], refs[0].key);
  }

  /** An ingest keeps the law exactly when its UID is free, or the row it overwrites shows the
      account no references.  Otherwise it leaks them. */
  lemma IngestConservesIff(t: Tables, mailbox: int, uid: int, id: int, m: Message, upstreamUid: Option<int>, flags: seq<string>)
    requires Conserved(t) && mailbox in t.mailboxes && id !in t.messages && m.account == t.mailboxes[mailbox].account
    ensures Conserved(Ingest(t, mailbox, uid, id, m, upstreamUid, flags)) <==> Leaked(t, mailbox, uid) == []
  {
    hide Surplus, Mult, Ingest, Conserved, Leaked;
    var t' := Ingest(t, mailbox, uid, id, m, upstreamUid, flags);
    var leaked := Leaked(t, mailbox, uid);
    ConservedIsBalanced(t);
    ConservedIsBalanced(t');
    IngestBalance(t, mailbox, uid, id, m, upstreamUid, flags, 0, "");
    forall a, key ensures Surplus(t', a, key) == if a == m.account then Mult(leaked, key) else 0 {
      IngestBalance(t, mailbox, uid, id, m, upstreamUid, flags, a, key);
    }
    if leaked == [] {
      forall key ensures Mult(leaked, key) == 0 { EmptyMult(key); }
    } else {
      NonEmptyMult(leaked);
      assert Surplus(t', m.account, leaked[0].key) > 0;
    }
    forall key ensures Mult(leaked, key) >= 0 { MultNonNegative(leaked, key); }
  }

  lemma CopyWrites(t: Tables, source: int, target: int, uid: int, t': Tables)
    requires Linked(t) && CopiesMessage(t, source, target, uid, t') && uid in t.mailboxes[source].rows
    ensures WritesRow(t, t', target, NextUid(t.mailboxes[target]))
    ensures t'.mailboxes[target].rows[NextUid(t.mailboxes[target])].messageId == t.mailboxes[source].rows[uid].messageId
  {}

  /** A same-account copy counts exactly what its new row refers to. */
  lemma CopyBalance(t: Tables, source: int, target: int, uid: int, t': Tables, a: int, key: string)
    requires Linked(t) && Positive(t.cache) && CopiesMessage(t, source, target, uid, t')
    ensures Linked(t') && Positive(t'.cache) && Surplus(t', a, key) == Surplus(t, a, key)
  {
    hide Total, Mult, Demand, AddRefs, Positive;
    if uid in t.mailboxes[source].rows {
      var account, id := t.mailboxes[target].account, t.mailboxes[source].rows[uid].messageId;
      var at := NextUid(t.mailboxes[target]);
      CopyWrites(t, source, target, uid, t');
      var refs :| multiset(refs) == multiset(Refs(t, account, id)) && t'.cache == AddRefs(t.cache, account, refs);
      WrittenDemand(t, t', target, at, a, key);
      AddRefsTotal(t.cache, account, refs, a, key);
      SameMult(refs, Refs(t, account, id), key);
      LiveMember(t, target, at);
      AbsentDemand(t, a, key, (target, at));
    }
  }

  lemma SameMult(a: seq<Ref>, b: seq<Ref>, key: string)
    requires multiset(a) == multiset(b)
    ensures Mult(a, key) == Mult(b, key)
  {}

  /** Undoing a delete would be writing the row back: the same bookkeeping, read backwards. */
  lemma DeleteWrites(t: Tables, mailbox: int, uid: int, t': Tables)
    requires Linked(t) && DeletesMessage(t, mailbox, uid, t') && uid in t.mailboxes[mailbox].rows
    ensures WritesRow(t', t, mailbox, uid) && uid !in t'.mailboxes[mailbox].rows
  {}

  /** How many of a row's references to a key a delete releases in vain, the count being at zero. */
  ghost function Vain(t: Tables, mailbox: int, uid: int, account: int, key: string): int {
    NotBelowZero(RowDemand(t, account, key, (mailbox, uid)) - Total(t.cache, account, key))
  }

  /** A delete releases what its row referred to, as far as it was counted. */
  lemma DeleteBalance(t: Tables, mailbox: int, uid: int, t': Tables, a: int, key: string)
    requires Linked(t) && Positive(t.cache) && DeletesMessage(t, mailbox, uid, t')
    ensures Linked(t') && Positive(t'.cache) && Surplus(t', a, key) == Surplus(t, a, key) + Vain(t, mailbox, uid, a, key)
  {
    hide Total, Mult, Demand, ReleasedAll, Positive, Refs;
    HoldsIffTotal(t.cache, a, key);
    if uid in t.mailboxes[mailbox].rows {
      var account, id := t.mailboxes[mailbox].account, t.mailboxes[mailbox].rows[uid].messageId;
      DeleteWrites(t, mailbox, uid, t');
      var refs :| multiset(refs) == multiset(Refs(t, account, id)) && ReleasedAll(t.cache, account, refs, t'.cache);
      ReleaseAllTotal(t.cache, account, refs, t'.cache, a, key);
      WrittenDemand(t', t, mailbox, uid, a, key);
      SameMult(refs, Refs(t, account, id), key);
      LiveMember(t', mailbox, uid);
      AbsentDemand(t', a, key, (mailbox, uid));
    }
  }

  /** Where no live reference is uncounted, nothing is released in vain. */
  lemma NothingInVain(t: Tables, mailbox: int, uid: int, a: int, key: string)
    requires Covered(t)
    ensures Vain(t, mailbox, uid, a, key) == 0
  {
    hide Total, Mult, Demand;
    assert Surplus(t, a, key) >= 0;
    HoldsIffTotal(t.cache, a, key);
    LiveMember(t, mailbox, uid);
    if (mailbox, uid) in Live(t) { DemandAtLeast(t, (mailbox, uid), a, key); } else { AbsentDemand(t, a, key, (mailbox, uid)); }
  }

  lemma CopyConserves(t: Tables, source: int, target: int, uid: int, t': Tables)
    requires Conserved(t) && CopiesMessage(t, source, target, uid, t')
    ensures Conserved(t')
  {
    hide Conserved, Surplus, CopiesMessage;
    ConservedIsBalanced(t);
    ConservedIsBalanced(t');
    CopyBalance(t, source, target, uid, t', 0, "");
    forall a, key ensures Surplus(t', a, key) == 0 { CopyBalance(t, source, target, uid, t', a, key); }
  }

  lemma DeleteConserves(t: Tables, mailbox: int, uid: int, t': Tables)
    requires Conserved(t) && DeletesMessage(t, mailbox, uid, t')
    ensures Conserved(t')
  {
    hide Conserved, Surplus, DeletesMessage;
    ConservedIsBalanced(t);
    ConservedIsBalanced(t');
    DeleteBalance(t, mailbox, uid, t', 0, "");
    forall a, key ensures Surplus(t', a, key) == 0 {
      DeleteBalance(t, mailbox, uid, t', a, key);
      NothingInVain(t, mailbox, uid, a, key);
    }
  }

  // ---------- an ingest that fails midway ----------

  /** Table writes of an ingest: the message, each part's row and count, the mailbox row, and the
      count of the message blob. */
  function IngestWriteCount(m: Message): nat { 2 * |m.parts| + 3 }

  function AtMost(n: nat, limit: nat): nat { if n <= limit then n else limit }

  /** The tables after the first `w` of those writes. */
  function IngestUpTo(t: Tables, mailbox: int, uid: int, id: int, m: Message, upstreamUid: Option<int>,
                      flags: seq<string>, w: nat): Tables
    requires w >= 2 * |m.parts| + 2 ==> mailbox in t.mailboxes
  {
    var n := |m.parts|;
    if w == 0 then t
    else
      var counted := AddRefs(t.cache, m.account, m.parts[..AtMost((w - 1) / 2, n)]);
      Tables(if w >= 2 * n + 2
             then t.mailboxes[mailbox := Upsert(t.mailboxes[mailbox], uid, id, upstreamUid, None, flags, [])]
             else t.mailboxes,
             t.messages[id := m.(parts := m.parts[..AtMost(w / 2, n)])],
             if w >= 2 * n + 3 then AddRef(counted, m.account, Ref(Rfc822, m.rfc822Key)) else counted)
  }

  lemma AllWritesIngest(t: Tables, mailbox: int, uid: int, id: int, m: Message, upstreamUid: Option<int>, flags: seq<string>)
    requires mailbox in t.mailboxes
    ensures IngestUpTo(t, mailbox, uid, id, m, upstreamUid, flags, IngestWriteCount(m))
      == Ingest(t, mailbox, uid, id, m, upstreamUid, flags)
  {
    assert m.parts[..|m.parts|] == m.parts;
  }

  /** The parts counted by a cut ingest. */
  function CountedParts(m: Message, w: nat): seq<Ref> {
    if w == 0 then [] else m.parts[..AtMost((w - 1) / 2, |m.parts|)]
  }

  /** A message stored under a new id changes no row's references. */
  lemma NewMessageDemand(t: Tables, t': Tables, id: int, m: Message, a: int, key: string)
    requires Linked(t) && id !in t.messages && t'.mailboxes == t.mailboxes && t'.messages == t.messages[id := m]
    ensures Linked(t') && Demand(t', a, key) == Demand(t, a, key)
  {
    hide Mult, RowDemand;
    assert Live(t') == Live(t);
    forall r | r in Live(t) ensures RowDemand(t', a, key, r) == RowDemand(t, a, key, r) {
      LiveMember(t, r.0, r.1);
      DemandKept(t, t', r, a, key);
    }
    SumCongruent(Live(t), DemandOf(t', a, key), DemandOf(t, a, key));
  }

  /** Cut before the mailbox row is written, an ingest leaves the parts it counted as surplus. */
  lemma CutIngestBalance(t: Tables, mailbox: int, uid: int, id: int, m: Message, upstreamUid: Option<int>,
                         flags: seq<string>, w: nat, a: int, key: string)
    requires Linked(t) && Positive(t.cache) && id !in t.messages && w < 2 * |m.parts| + 2
    ensures var t' := IngestUpTo(t, mailbox, uid, id, m, upstreamUid, flags, w);
      && Linked(t') && Positive(t'.cache)
      && Surplus(t', a, key) == Surplus(t, a, key) + if a == m.account then Mult(CountedParts(m, w), key) else 0
  {
    hide Total, Mult, Demand, AddRefs, Upsert;
    var t' := IngestUpTo(t, mailbox, uid, id, m, upstreamUid, flags, w);
    if w > 0 {
      NewMessageDemand(t, t', id, m.(parts := m.parts[..AtMost(w / 2, |m.parts|)]), a, key);
      AddRefsTotal(t.cache, m.account, CountedParts(m, w), a, key);
    } else {
      EmptyMult(key);
    }
  }

  /** Cut between the mailbox row and the count of the message blob, it leaves that blob one short
      of its references, besides leaking the overwritten row's. */
  lemma CutBeforeBlobCount(t: Tables, mailbox: int, uid: int, id: int, m: Message, upstreamUid: Option<int>,
                           flags: seq<string>, a: int, key: string)
    requires Linked(t) && Positive(t.cache)
    requires mailbox in t.mailboxes && id !in t.messages && m.account == t.mailboxes[mailbox].account
    ensures var t' := IngestUpTo(t, mailbox, uid, id, m, upstreamUid, flags, 2 * |m.parts| + 2);
      && Linked(t') && Positive(t'.cache)
      && Surplus(t', a, key) == Surplus(t, a, key)
        + (if a == m.account then Mult(Leaked(t, mailbox, uid), key) else 0)
        - (if a == m.account && key == m.rfc822Key then 1 else 0)
  {
    hide Total, Mult, Demand, AddRefs, Upsert, Leaked;
    var t' := IngestUpTo(t, mailbox, uid, id, m, upstreamUid, flags, 2 * |m.parts| + 2);
    var full := Ingest(t, mailbox, uid, id, m, upstreamUid, flags);
    assert m.parts[..|m.parts|] == m.parts;
    assert t'.mailboxes == full.mailboxes && t'.messages == full.messages;
    SameDemand(t', full, a, key);
    IngestBalance(t, mailbox, uid, id, m, upstreamUid, flags, a, key);
    AddRefsTotal(t.cache, m.account, m.parts, a, key);
    AddRefTotal(t'.cache, m.account, Ref(Rfc822, m.rfc822Key), a, key);
  }

  lemma SameDemand(t: Tables, t': Tables, a: int, key: string)
    requires t'.mailboxes == t.mailboxes && t'.messages == t.messages
    ensures Demand(t', a, key) == Demand(t, a, key)
  {
    hide Mult;
    assert Live(t') == Live(t);
    SumCongruent(Live(t), DemandOf(t', a, key), DemandOf(t, a, key));
  }

  // ---------- histories ----------

  datatype Op =
    | DoIngest(mailbox: int, uid: int, id: int, message: Message, upstreamUid: Option<int>, flags: seq<string>)
    | DoCutIngest(mailbox: int, uid: int, id: int, message: Message, upstreamUid: Option<int>, flags: seq<string>, writes: nat)
    | DoCopy(source: int, target: int, uid: int)
    | DoDelete(mailbox: int, uid: int)
    | DoFlags(mailbox: int, uid: int, flags: seq<string>)
    | DoCounter(mailbox: int, highest: Option<int>)

  /** One operation: an ingest completes, at a free or an occupied UID, or fails after any number of
      its writes. */
  ghost predicate Step(t: Tables, op: Op, t': Tables) {
    match op
    case DoIngest(mailbox, uid, id, m, upstreamUid, flags) =>
      && mailbox in t.mailboxes && id !in t.messages && m.account == t.mailboxes[mailbox].account
      && t' == Ingest(t, mailbox, uid, id, m, upstreamUid, flags)
    case DoCutIngest(mailbox, uid, id, m, upstreamUid, flags, w) =>
      && id !in t.messages && w < IngestWriteCount(m)
      && (w == 2 * |m.parts| + 2 ==> mailbox in t.mailboxes && m.account == t.mailboxes[mailbox].account)
      && t' == IngestUpTo(t, mailbox, uid, id, m, upstreamUid, flags, w)
    case DoCopy(source, target, uid) => CopiesMessage(t, source, target, uid, t')
    case DoDelete(mailbox, uid) => DeletesMessage(t, mailbox, uid, t')
    case DoFlags(mailbox, uid, flags) =>
      && mailbox in t.mailboxes
      && t' == t.(mailboxes := t.mailboxes[mailbox := SetFlags(t.mailboxes[mailbox], uid, flags)])
    case DoCounter(mailbox, highest) =>
      && mailbox in t.mailboxes
      && t' == t.(mailboxes := t.mailboxes[mailbox := t.mailboxes[mailbox].(highest := highest)])
  }

  /** The failure that leaves a live reference uncounted: after the mailbox row, before the count of
      the message blob. */
  predicate CutBeforeCount(op: Op) { op.DoCutIngest? && op.writes == 2 * |op.message.parts| + 2 }

  /** The references an operation leaves counted with nothing live behind them. */
  ghost function LeakedBy(t: Tables, op: Op): seq<Ref> {
    match op
    case DoIngest(mailbox, uid, _, _, _, _) => if mailbox in t.mailboxes then Leaked(t, mailbox, uid) else []
    case DoCutIngest(mailbox, uid, _, m, _, _, w) =>
      if !CutBeforeCount(op) then CountedParts(m, w) else if mailbox in t.mailboxes then Leaked(t, mailbox, uid) else []
    case _ => []
  }

  ghost function LeakOf(t: Tables, op: Op, account: int, key: string): int {
    if (op.DoIngest? || op.DoCutIngest?) && op.message.account == account then Mult(LeakedBy(t, op), key) else 0
  }

  /** What an operation adds to the surplus: what it leaks, what a delete releases in vain, and less
      the one reference a badly timed failure leaves uncounted. */
  ghost function ChangeBy(t: Tables, op: Op, account: int, key: string): int {
    LeakOf(t, op, account, key)
    + (if op.DoDelete? then Vain(t, op.mailbox, op.uid, account, key) else 0)
    - (if CutBeforeCount(op) && op.message.account == account && op.message.rfc822Key == key then 1 else 0)
  }

  ghost predicate History(states: seq<Tables>, ops: seq<Op>) {
    |states| == |ops| + 1 && forall i :: 0 <= i < |ops| ==> Step(states[i], ops[i], states[i + 1])
  }

  /** All changes to the surplus by the first `n` operations. */
  ghost function NetSoFar(states: seq<Tables>, ops: seq<Op>, n: nat, account: int, key: string): int
    requires n <= |ops| && n <= |states|
  {
    if n == 0 then 0
    else NetSoFar(states, ops, n - 1, account, key) + ChangeBy(states[n - 1], ops[n - 1], account, key)
  }

  /** All leaks of the first `n` operations. */
  ghost function LeakedSoFar(states: seq<Tables>, ops: seq<Op>, n: nat, account: int, key: string): int
    requires n <= |ops| && n <= |states|
  {
    if n == 0 then 0
    else LeakedSoFar(states, ops, n - 1, account, key) + LeakOf(states[n - 1], ops[n - 1], account, key)
  }

  /** No failure falls between a mailbox row and the count of its message blob. */
  predicate Counted(ops: seq<Op>) { forall i :: 0 <= i < |ops| ==> !CutBeforeCount(ops[i]) }

  /** A store with no messages, rows or blobs yet. */
  ghost predicate Empty(t: Tables) {
    t.messages == map[] && t.cache == map[] && forall m :: m in t.mailboxes ==> t.mailboxes[m].rows == map[]
  }

  lemma EmptyConserved(t: Tables)
    requires Empty(t)
    ensures Conserved(t)
  {
    forall account, key ensures Total(t.cache, account, key) == Demand(t, account, key) {
      assert Live(t) == {};
    }
  }

  /** A change to a mailbox that keeps its account and which message each row shows. */
  lemma MailboxBalance(t: Tables, mailbox: int, mb: Mailbox, a: int, key: string)
    requires Linked(t) && mailbox in t.mailboxes
    requires mb.account == t.mailboxes[mailbox].account && mb.rows.Keys == t.mailboxes[mailbox].rows.Keys
    requires forall u :: u in mb.rows ==> mb.rows[u].messageId == t.mailboxes[mailbox].rows[u].messageId
    ensures var t' := t.(mailboxes := t.mailboxes[mailbox := mb]);
      Linked(t') && Surplus(t', a, key) == Surplus(t, a, key)
  {
    hide Total, Mult;
    var t' := t.(mailboxes := t.mailboxes[mailbox := mb]);
    assert Live(t') == Live(t) by {
      forall r: (int, int) ensures r in Live(t') <==> r in Live(t) {
        LiveMember(t, r.0, r.1);
        LiveMember(t', r.0, r.1);
      }
    }
    SumCongruent(Live(t), DemandOf(t', a, key), DemandOf(t, a, key));
  }

  lemma LeakNonNegative(t: Tables, op: Op, account: int, key: string)
    ensures LeakOf(t, op, account, key) >= 0
  {
    MultNonNegative(LeakedBy(t, op), key);
  }

  lemma StepBalance(t: Tables, op: Op, t': Tables, a: int, key: string)
    requires Linked(t) && Positive(t.cache) && Step(t, op, t')
    ensures Linked(t') && Positive(t'.cache) && Surplus(t', a, key) == Surplus(t, a, key) + ChangeBy(t, op, a, key)
  {
    hide Surplus, Ingest, IngestUpTo, CopiesMessage, DeletesMessage, Linked, Positive, Mult, Vain;
    match op
    case DoIngest(mailbox, uid, id, m, upstreamUid, flags) =>
      IngestBalance(t, mailbox, uid, id, m, upstreamUid, flags, a, key);
    case DoCutIngest(mailbox, uid, id, m, upstreamUid, flags, w) =>
      if w < 2 * |m.parts| + 2 {
        CutIngestBalance(t, mailbox, uid, id, m, upstreamUid, flags, w, a, key);
      } else {
        CutBeforeBlobCount(t, mailbox, uid, id, m, upstreamUid, flags, a, key);
      }
    case DoCopy(source, target, uid) => CopyBalance(t, source, target, uid, t', a, key);
    case DoDelete(mailbox, uid) => DeleteBalance(t, mailbox, uid, t', a, key);
    case DoFlags(mailbox, uid, flags) => MailboxBalance(t, mailbox, SetFlags(t.mailboxes[mailbox], uid, flags), a, key);
    case DoCounter(mailbox, highest) => MailboxBalance(t, mailbox, t.mailboxes[mailbox].(highest := highest), a, key);
  }

  lemma {:induction false} NetFrom(states: seq<Tables>, ops: seq<Op>, i: nat, account: int, key: string)
    requires History(states, ops) && Conserved(states[0]) && i < |states|
    ensures Linked(states[i]) && Positive(states[i].cache)
    ensures Surplus(states[i], account, key) == NetSoFar(states, ops, i, account, key)
  {
    hide Step, Surplus, ChangeBy, Linked, Positive;
    if i == 0 {
      ConservedIsBalanced(states[0]);
    } else {
      NetFrom(states, ops, i - 1, account, key);
      StepBalance(states[i - 1], ops[i - 1], states[i], account, key);
    }
  }

  /** Every state of every history, whatever ingests overwrite and wherever they fail: each count is
      the number of live references plus the net of all leaks, vain releases and missing counts so
      far, and a blob's rows exist exactly while that is positive. */
  lemma HistoryBalances(states: seq<Tables>, ops: seq<Op>, i: nat, account: int, key: string)
    requires History(states, ops) && Empty(states[0]) && i < |states|
    ensures Total(states[i].cache, account, key) == Demand(states[i], account, key) + NetSoFar(states, ops, i, account, key)
    ensures Holds(states[i].cache, account, key) <==>
      Demand(states[i], account, key) + NetSoFar(states, ops, i, account, key) > 0
  {
    hide Step, Total, Demand, Holds, ChangeBy;
    EmptyConserved(states[0]);
    NetFrom(states, ops, i, account, key);
    HoldsIffTotal(states[i].cache, account, key);
  }

  /** While every live reference is counted, only leaks change the surplus. */
  lemma OnlyLeaks(t: Tables, op: Op, a: int, key: string)
    requires Covered(t) && !CutBeforeCount(op)
    ensures ChangeBy(t, op, a, key) == LeakOf(t, op, a, key)
  {
    hide Covered, Vain, LeakOf;
    if op.DoDelete? { NothingInVain(t, op.mailbox, op.uid, a, key); }
  }

  lemma StepCovered(t: Tables, op: Op, t': Tables)
    requires Covered(t) && Step(t, op, t') && !CutBeforeCount(op)
    ensures Covered(t')
  {
    hide Step, Surplus, LeakOf, ChangeBy, Linked, Positive, CutBeforeCount;
    StepBalance(t, op, t', 0, "");
    forall a, key ensures Surplus(t', a, key) >= 0 {
      StepBalance(t, op, t', a, key);
      OnlyLeaks(t, op, a, key);
      LeakNonNegative(t, op, a, key);
    }
  }

  lemma {:induction false} BalanceFrom(states: seq<Tables>, ops: seq<Op>, i: nat, account: int, key: string)
    requires History(states, ops) && Counted(ops) && Conserved(states[0]) && i < |states|
    ensures Covered(states[i])
    ensures Surplus(states[i], account, key) == LeakedSoFar(states, ops, i, account, key)
  {
    hide Step, Surplus, LeakOf, ChangeBy, Conserved, CutBeforeCount, Linked, Positive;
    if i == 0 {
      ConservedIsBalanced(states[0]);
    } else {
      BalanceFrom(states, ops, i - 1, account, key);
      StepCovered(states[i - 1], ops[i - 1], states[i]);
      StepBalance(states[i - 1], ops[i - 1], states[i], account, key);
      OnlyLeaks(states[i - 1], ops[i - 1], account, key);
    }
  }

  lemma {:induction false} SumOfLeaks(states: seq<Tables>, ops: seq<Op>, n: nat, account: int, key: string)
    requires n <= |ops| && n <= |states|
    ensures LeakedSoFar(states, ops, n, account, key) >= 0
    ensures forall j :: 0 <= j < n ==> LeakOf(states[j], ops[j], account, key) <= LeakedSoFar(states, ops, n, account, key)
    ensures (forall j :: 0 <= j < n ==> LeakOf(states[j], ops[j], account, key) == 0) ==>
      LeakedSoFar(states, ops, n, account, key) == 0
  {
    hide LeakOf;
    if n > 0 {
      SumOfLeaks(states, ops, n - 1, account, key);
      LeakNonNegative(states[n - 1], ops[n - 1], account, key);
    }
  }

  /** From a conserved state on, while no failure falls between a mailbox row and its blob count,
      counts equal live references if and only if no operation so far leaked: no ingest overwrote a
      row with references, and none failed after counting a part. */
  lemma ConservedIffNoLeak(states: seq<Tables>, ops: seq<Op>, i: nat)
    requires History(states, ops) && Counted(ops) && Conserved(states[0]) && i < |states|
    ensures Conserved(states[i]) <==> forall j :: 0 <= j < i ==> LeakedBy(states[j], ops[j]) == []
  {
    hide Step, Surplus, LeakOf, Conserved, LeakedBy;
    ConservedIsBalanced(states[i]);
    BalanceFrom(states, ops, i, 0, "");
    forall a, key ensures Surplus(states[i], a, key) == LeakedSoFar(states, ops, i, a, key) {
      BalanceFrom(states, ops, i, a, key);
    }
    if forall j :: 0 <= j < i ==> LeakedBy(states[j], ops[j]) == [] {
      forall a, key ensures LeakedSoFar(states, ops, i, a, key) == 0 {
        forall j | 0 <= j < i ensures LeakOf(states[j], ops[j], a, key) == 0 { NoLeak(states[j], ops[j], a, key); }
        SumOfLeaks(states, ops, i, a, key);
      }
    } else {
      var j :| 0 <= j < i && LeakedBy(states[j], ops[j]) != [];
      var a, key := SomeLeak(states[j], ops[j]);
      SumOfLeaks(states, ops, i, a, key);
      assert Surplus(states[i], a, key) > 0;
    }
  }

  lemma NoLeak(t: Tables, op: Op, account: int, key: string)
    requires LeakedBy(t, op) == []
    ensures LeakOf(t, op, account, key) == 0
  {
    EmptyMult(key);
  }

  lemma SomeLeak(t: Tables, op: Op) returns (account: int, key: string)
    requires LeakedBy(t, op) != []
    ensures LeakOf(t, op, account, key) > 0
  {
    account, key := op.message.account, LeakedBy(t, op)[0].key;
    NonEmptyMult(LeakedBy(t, op));
  }

  /** Ingests complete, at free UIDs. */
  ghost predicate Clean(states: seq<Tables>, ops: seq<Op>)
    requires |states| == |ops| + 1
  {
    forall i :: 0 <= i < |ops| ==>
      && !ops[i].DoCutIngest?
      && (ops[i].DoIngest? && ops[i].mailbox in states[i].mailboxes ==>
            IngestUid(states[i], ops[i].mailbox, ops[i].uid) !in states[i].mailboxes[ops[i].mailbox].rows)
  }

  /** Every state of every history of completed ingests at free UIDs, copies, deletes and flag
      updates: each count is the number of live references, and a blob's rows exist exactly while
      something live refers to it. */
  lemma HistoryConserves(states: seq<Tables>, ops: seq<Op>, i: nat)
    requires History(states, ops) && Clean(states, ops) && Empty(states[0]) && i < |states|
    ensures Conserved(states[i])
    ensures forall account, key :: Holds(states[i].cache, account, key) <==> Demand(states[i], account, key) > 0
  {
    hide Step, Holds, Demand, Total, Conserved;
    EmptyConserved(states[0]);
    forall j | 0 <= j < i ensures LeakedBy(states[j], ops[j]) == [] {}
    ConservedIffNoLeak(states, ops, i);
    forall account, key ensures Holds(states[i].cache, account, key) <==> Demand(states[i], account, key) > 0 {
      RowExactlyWhenDemanded(states[i], account, key);
    }
  }
}
