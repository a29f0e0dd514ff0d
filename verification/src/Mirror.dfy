/**
 The incremental mirror of one upstream mailbox (crates/sync/src/lib.rs): what a run reads,
 the writes it plans, and the effect of performing any prefix of them.
 */
module Mirror {
  import opened Wrappers
  import opened Ordering
  import opened MailboxStore

  // ---------- upstream and local state ----------

  datatype UpstreamMessage = UpstreamMessage(raw: string, flags: seq<string>)

  /** `uidnext` is above every UID given out in the current UIDVALIDITY epoch. */
  datatype Upstream = Upstream(uidvalidity: int, uidnext: int, messages: map<int, UpstreamMessage>)

  datatype Checkpoint = Checkpoint(uidvalidity: Option<int>, lastUid: int)

  /** `bodies` maps a message row's id to its raw text; ids are given out in order. */
  datatype Local = Local(mailbox: Mailbox, bodies: map<int, string>, nextId: int, checkpoint: Option<Checkpoint>)

  /** `normalize_flags`: sorted, without duplicates. */
  function NormalizeFlags(flags: seq<string>): seq<string> { SortDedup(StringLess, flags) }

  lemma NormalizeTwice(flags: seq<string>)
    ensures NormalizeFlags(NormalizeFlags(flags)) == NormalizeFlags(flags)
  {
    StringLessOrder();
    SortDedupAscending(StringLess, flags);
    SortDedupFixed(StringLess, NormalizeFlags(flags));
  }

  /** Normal forms agree exactly when the flag sets agree. */
  lemma NormalizeDecides(a: seq<string>, b: seq<string>)
    ensures NormalizeFlags(a) == NormalizeFlags(b) <==> (forall f :: f in a <==> f in b)
  {
    StringLessOrder();
    SortDedupCanonical(StringLess, a, b);
  }

  // ---------- writes ----------

  /** Each durable effect of a run; a run that fails has performed a prefix of its plan. */
  datatype Write =
    | DropRow(uid: int)
    | WriteFlags(uid: int, flags: seq<string>)
    | IngestRow(uid: int, raw: string, flags: seq<string>)
    | SaveCheckpoint(checkpoint: Checkpoint)
    | SaveMetadata(highest: Option<int>)

  function Perform(l: Local, w: Write): Local {
    match w
    case DropRow(uid) => l.(mailbox := Delete(l.mailbox, uid))
    case WriteFlags(uid, flags) => l.(mailbox := SetFlags(l.mailbox, uid, flags))
    case IngestRow(uid, raw, flags) =>
      l.(bodies := l.bodies[l.nextId := raw], nextId := l.nextId + 1,
         mailbox := Upsert(l.mailbox, uid, l.nextId, Some(uid), None, flags, []))
    case SaveCheckpoint(cp) => l.(checkpoint := Some(cp))
    case SaveMetadata(highest) =>
      if highest.Some? then l.(mailbox := l.mailbox.(highest := highest)) else l
  }

  function PerformAll(l: Local, ws: seq<Write>): Local
    decreases |ws|
  {
    if ws == [] then l else PerformAll(Perform(l, ws[0]), ws[1..])
  }

  lemma {:induction false} PerformConcat(l: Local, a: seq<Write>, b: seq<Write>)
    ensures PerformAll(l, a + b) == PerformAll(PerformAll(l, a), b)
    decreases |a|
  {
    if a == [] {
      assert a + b == b;
    } else {
      assert (a + b)[1..] == a[1..] + b;
      PerformConcat(Perform(l, a[0]), a[1..], b);
    }
  }

  lemma PerformSnoc(l: Local, ws: seq<Write>, w: Write)
    ensures PerformAll(l, ws + [w]) == Perform(PerformAll(l, ws), w)
  {
    hide Perform;
    PerformConcat(l, ws, [w]);
    var done := PerformAll(l, ws);
    assert [w][1..] == [];
    assert PerformAll(done, [w]) == PerformAll(Perform(done, w), []);
  }

  // ---------- the plan of a run ----------

  function SavedValidity(l: Local): Option<int> {
    if l.checkpoint.Some? then l.checkpoint.value.uidvalidity else None
  }

  function SavedLast(l: Local): int {
    if l.checkpoint.Some? then l.checkpoint.value.lastUid else 0
  }

  /** SELECT reported a UIDVALIDITY other than the checkpoint's. */
  predicate EpochChanged(l: Local, reported: Option<int>) {
    reported.Some? && SavedValidity(l) != reported
  }

  function Drops(uids: seq<int>): (r: seq<Write>)
    ensures |r| == |uids| && forall i :: 0 <= i < |r| ==> r[i] == DropRow(uids[i])
  {
    seq(|uids|, i requires 0 <= i < |uids| => DropRow(uids[i]))
  }

  function UpstreamOf(mb: Mailbox, uid: int): Option<int> {
    if uid in mb.rows then mb.rows[uid].upstreamUid else None
  }

  /** The listed rows that came from upstream. */
  function Synced(mb: Mailbox, uids: seq<int>): (r: seq<int>)
    ensures forall u :: u in r <==> u in uids && UpstreamOf(mb, u).Some?
  {
    if uids == [] then [] else
      (if UpstreamOf(mb, uids[0]).Some? then [uids[0]] else []) + Synced(mb, uids[1..])
  }

  /** The listed rows whose upstream UID is not in the SEARCH reply. */
  function Stale(mb: Mailbox, uids: seq<int>, reply: seq<int>): (r: seq<int>)
    ensures forall u :: u in r <==> u in uids && UpstreamOf(mb, u).Some? && UpstreamOf(mb, u).value !in reply
  {
    if uids == [] then [] else
      (if UpstreamOf(mb, uids[0]).Some? && UpstreamOf(mb, uids[0]).value !in reply then [uids[0]] else [])
      + Stale(mb, uids[1..], reply)
  }

  /** The row mirroring an upstream UID, the last listed if there are several. */
  function LocalFor(mb: Mailbox, uids: seq<int>, upstream: int): (r: Option<int>)
    ensures r.Some? ==> r.value in uids && UpstreamOf(mb, r.value) == Some(upstream)
    ensures r.None? ==> forall u :: u in uids ==> UpstreamOf(mb, u) != Some(upstream)
  {
    if uids == [] then None
    else
      var later := LocalFor(mb, uids[1..], upstream);
      if later.None? && UpstreamOf(mb, uids[0]) == Some(upstream) then Some(uids[0]) else later
  }

  function ClearPlan(l: Local, reported: Option<int>): seq<Write> {
    if EpochChanged(l, reported) then Drops(Synced(l.mailbox, Uids(l.mailbox))) else []
  }

  /** The local state the UID loop compares against. */
  function Base(l: Local, reported: Option<int>): Local { PerformAll(l, ClearPlan(l, reported)) }

  function EffectiveLast(l: Local, reported: Option<int>): int {
    if EpochChanged(l, reported) then 0 else SavedLast(l)
  }

  function FlagPlan(base: Local, up: Upstream, uid: int): seq<Write>
    requires uid in up.messages
  {
    var fetched := NormalizeFlags(up.messages[uid].flags);
    var local := LocalFor(base.mailbox, Uids(base.mailbox), uid);
    if local.Some? && NormalizeFlags(base.mailbox.rows[local.value].flags) != fetched
    then [WriteFlags(local.value, fetched)] else []
  }

  function FetchPlan(up: Upstream, last: int, uid: int): seq<Write>
    requires uid in up.messages
  {
    if uid <= last then []
    else [IngestRow(uid, up.messages[uid].raw, NormalizeFlags(up.messages[uid].flags))]
  }

  function UidPlan(base: Local, up: Upstream, last: int, uid: int): seq<Write>
    requires uid in up.messages
  {
    FlagPlan(base, up, uid) + FetchPlan(up, last, uid)
  }

  ghost predicate Lists(reply: seq<int>, up: Upstream) {
    && (forall i :: 0 <= i < |reply| ==> reply[i] in up.messages)
    && (forall u :: u in up.messages ==> u in reply)
  }

  /** The writes of the UID loop over the first `n` entries of the SEARCH reply. */
  function LoopPlan(base: Local, up: Upstream, last: int, reply: seq<int>, n: nat): seq<Write>
    requires n <= |reply| && forall i :: 0 <= i < |reply| ==> reply[i] in up.messages
  {
    if n == 0 then [] else LoopPlan(base, up, last, reply, n - 1) + UidPlan(base, up, last, reply[n - 1])
  }

  /** The last UID ingested from the first `n` entries, in reply order. */
  function Newest(reply: seq<int>, last: int, n: nat): int
    requires n <= |reply|
  {
    if n == 0 then last else if reply[n - 1] > last then reply[n - 1] else Newest(reply, last, n - 1)
  }

  function Ingested(reply: seq<int>, last: int, n: nat): nat
    requires n <= |reply|
  {
    if n == 0 then 0 else Ingested(reply, last, n - 1) + if reply[n - 1] > last then 1 else 0
  }

  /** The ingests among some writes. */
  function IngestCount(ws: seq<Write>): nat {
    if ws == [] then 0 else IngestCount(ws[..|ws| - 1]) + if ws[|ws| - 1].IngestRow? then 1 else 0
  }

  lemma {:induction false} IngestCountConcat(a: seq<Write>, b: seq<Write>)
    ensures IngestCount(a + b) == IngestCount(a) + IngestCount(b)
    decreases |b|
  {
    if b == [] {
      assert a + b == a;
    } else {
      assert (a + b)[..|a + b| - 1] == a + b[..|b| - 1];
      IngestCountConcat(a, b[..|b| - 1]);
    }
  }

  lemma {:induction false} NoIngests(ws: seq<Write>)
    requires forall i :: 0 <= i < |ws| ==> !ws[i].IngestRow?
    ensures IngestCount(ws) == 0
  {
    if ws != [] { NoIngests(ws[..|ws| - 1]); }
  }

  lemma {:induction false} LoopIngests(base: Local, up: Upstream, last: int, reply: seq<int>, n: nat)
    requires n <= |reply| && forall i :: 0 <= i < |reply| ==> reply[i] in up.messages
    ensures IngestCount(LoopPlan(base, up, last, reply, n)) == Ingested(reply, last, n)
  {
    hide FlagPlan, FetchPlan, IngestCount;
    if n == 0 {
      NoIngests([]);
    } else {
      LoopIngests(base, up, last, reply, n - 1);
      IngestCountConcat(LoopPlan(base, up, last, reply, n - 1), UidPlan(base, up, last, reply[n - 1]));
      UidIngests(base, up, last, reply[n - 1]);
    }
  }

  lemma UidIngests(base: Local, up: Upstream, last: int, uid: int)
    requires uid in up.messages
    ensures IngestCount(UidPlan(base, up, last, uid)) == if uid > last then 1 else 0
  {
    hide NormalizeFlags, LocalFor, Ascend;
    var flags, fetch := FlagPlan(base, up, uid), FetchPlan(up, last, uid);
    IngestCountConcat(flags, fetch);
    NoIngests(flags);
    if uid > last { assert fetch[..0] == []; }
  }

  /** What a run was told: the SELECT answer and the SEARCH reply, upstream standing still. */
  datatype Answers = Answers(up: Upstream, reported: Option<int>, highest: Option<int>, reply: seq<int>) {
    ghost predicate Valid() {
      && Lists(reply, up)
      && (forall u :: u in up.messages ==> 1 <= u < up.uidnext)
    }
  }

  function FetchPart(l: Local, a: Answers): seq<Write>
    requires a.Valid()
  {
    LoopPlan(Base(l, a.reported), a.up, EffectiveLast(l, a.reported), a.reply, |a.reply|)
  }

  function SavePart(l: Local, a: Answers): seq<Write> {
    [SaveCheckpoint(Checkpoint(a.reported, Newest(a.reply, EffectiveLast(l, a.reported), |a.reply|))),
     SaveMetadata(a.highest)]
  }

  function UpToSave(l: Local, a: Answers): seq<Write>
    requires a.Valid()
  {
    ClearPlan(l, a.reported) + FetchPart(l, a) + SavePart(l, a)
  }

  function ReconcilePart(l: Local, a: Answers): seq<Write>
    requires a.Valid()
  {
    var saved := PerformAll(l, UpToSave(l, a)).mailbox;
    Drops(Stale(saved, Uids(saved), a.reply))
  }

  function Plan(l: Local, a: Answers): seq<Write>
    requires a.Valid()
  {
    UpToSave(l, a) + ReconcilePart(l, a)
  }

  /** Fallible steps for one UID: its writes, a FLAGS fetch, and a body fetch if it is new. */
  function UidCost(base: Local, up: Upstream, last: int, uid: int): nat
    requires uid in up.messages
  {
    |UidPlan(base, up, last, uid)| + if uid > last then 2 else 1
  }

  function LoopCost(base: Local, up: Upstream, last: int, reply: seq<int>, n: nat): nat
    requires n <= |reply| && forall i :: 0 <= i < |reply| ==> reply[i] in up.messages
  {
    if n == 0 then 0 else LoopCost(base, up, last, reply, n - 1) + UidCost(base, up, last, reply[n - 1])
  }

  /** Fallible steps of a whole run: SELECT, the checkpoint read, the row listings, SEARCH, the
      UID loop, the two saves, the removals and the final recount. */
  function Cost(l: Local, a: Answers): nat
    requires a.Valid()
  {
    |ClearPlan(l, a.reported)| + |SavePart(l, a)| + |ReconcilePart(l, a)|
    + LoopCost(Base(l, a.reported), a.up, EffectiveLast(l, a.reported), a.reply, |a.reply|)
    + if EpochChanged(l, a.reported) then 7 else 6
  }

  /** A plan holds as many ingests as the reply has entries past the checkpoint. */
  lemma PlanIngests(l: Local, a: Answers)
    requires a.Valid()
    ensures IngestCount(Plan(l, a)) == Ingested(a.reply, EffectiveLast(l, a.reported), |a.reply|)
  {
    hide LoopPlan, IngestCount, PerformAll, Stale, Synced, Ascend, Newest, Ingested;
    var clear, fetch, save, drops := ClearPlan(l, a.reported), FetchPart(l, a), SavePart(l, a), ReconcilePart(l, a);
    LoopIngests(Base(l, a.reported), a.up, EffectiveLast(l, a.reported), a.reply, |a.reply|);
    NoIngests(clear);
    NoIngests(save);
    NoIngests(drops);
    IngestCountConcat(clear, fetch);
    IngestCountConcat(clear + fetch, save);
    IngestCountConcat(clear + fetch + save, drops);
  }
}
