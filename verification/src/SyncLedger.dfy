/**
 What a sync run does to the reference counts (crates/sync/src/lib.rs over
 crates/db/src/repository.rs): each write of its plan is an operation on the tables, and an
 ingest over a row that is already there leaks that row's references.
 */
module SyncLedger {
  import opened Wrappers
  import opened Ordering
  import opened Sums
  import opened MailboxStore
  import opened Mirror
  import opened BlobLedger
  import opened BlobConservation
  import MirrorConvergence

  /** What a raw text is stored as: the key of its blob and its parts. */
  type Reader = string -> (string, seq<Ref>)

  function MessageOf(account: int, raw: string, reader: Reader): Message {
    Message(account, reader(raw).0, reader(raw).1)
  }

  /** The operation that performs a write on a mailbox of the tables. */
  ghost predicate Performs(t: Tables, mailbox: int, w: Write, reader: Reader, op: Op) {
    mailbox in t.mailboxes &&
    match w
    case DropRow(uid) => op == DoDelete(mailbox, uid)
    case WriteFlags(uid, flags) => op == DoFlags(mailbox, uid, flags)
    case IngestRow(uid, raw, flags) =>
      && op.DoIngest? && op.mailbox == mailbox && op.uid == uid && op.upstreamUid == Some(uid) && op.flags == flags
      && op.message == MessageOf(t.mailboxes[mailbox].account, raw, reader)
    case SaveCheckpoint(_) => op == DoCounter(mailbox, t.mailboxes[mailbox].highest)
    case SaveMetadata(highest) => op == DoCounter(mailbox, if highest.Some? then highest else t.mailboxes[mailbox].highest)
  }

  /** A run over the tables: states and operations performing the writes one after the other. */
  ghost predicate RunOn(states: seq<Tables>, ops: seq<Op>, mailbox: int, ws: seq<Write>, reader: Reader) {
    && History(states, ops) && |ops| == |ws|
    && forall i :: 0 <= i < |ws| ==> Performs(states[i], mailbox, ws[i], reader, ops[i])
  }

  lemma RunIsCounted(states: seq<Tables>, ops: seq<Op>, mailbox: int, ws: seq<Write>, reader: Reader)
    requires RunOn(states, ops, mailbox, ws, reader)
    ensures Counted(ops)
  {
    hide Step;
    forall i | 0 <= i < |ops| ensures !CutBeforeCount(ops[i]) {
      assert Performs(states[i], mailbox, ws[i], reader, ops[i]);
    }
  }

  /** Every row of the mailbox shows a message of the mailbox's account. */
  ghost predicate Owned(t: Tables, mailbox: int) {
    mailbox in t.mailboxes &&
    forall u :: u in t.mailboxes[mailbox].rows ==>
      var id := t.mailboxes[mailbox].rows[u].messageId;
      id in t.messages && t.messages[id].account == t.mailboxes[mailbox].account
  }

  function Rows(t: Tables, mailbox: int): set<int> { if mailbox in t.mailboxes then t.mailboxes[mailbox].rows.Keys else {} }

  function KeysAfter(keys: set<int>, w: Write): set<int> {
    match w
    case DropRow(uid) => keys - {uid}
    case IngestRow(uid, _, _) => keys + {uid}
    case _ => keys
  }

  function KeysAfterAll(keys: set<int>, ws: seq<Write>): set<int>
    decreases |ws|
  {
    if ws == [] then keys else KeysAfterAll(KeysAfter(keys, ws[0]), ws[1..])
  }

  /** Each ingest goes to a UID that is free when its turn comes. */
  predicate FreeIngests(keys: set<int>, ws: seq<Write>)
    decreases |ws|
  {
    ws == [] || ((ws[0].IngestRow? ==> ws[0].uid !in keys) && FreeIngests(KeysAfter(keys, ws[0]), ws[1..]))
  }

  predicate RealUids(ws: seq<Write>) { forall i :: 0 <= i < |ws| && ws[i].IngestRow? ==> ws[i].uid >= 1 }

  // ---------- a run leaks where it overwrites ----------

  lemma StepRows(t: Tables, mailbox: int, w: Write, reader: Reader, op: Op, t': Tables)
    requires Performs(t, mailbox, w, reader, op) && Step(t, op, t') && Owned(t, mailbox)
    requires w.IngestRow? ==> w.uid >= 1
    ensures Owned(t', mailbox) && Rows(t', mailbox) == KeysAfter(Rows(t, mailbox), w)
    ensures LeakedBy(t, op) == [] <==> (w.IngestRow? ==> w.uid !in Rows(t, mailbox))
  {
    hide ReleasedAll, AddRefs, AddRef;
  }

  lemma RunTail(states: seq<Tables>, ops: seq<Op>, mailbox: int, ws: seq<Write>, reader: Reader)
    requires RunOn(states, ops, mailbox, ws, reader) && RealUids(ws) && ws != []
    ensures RunOn(states[1..], ops[1..], mailbox, ws[1..], reader) && RealUids(ws[1..])
  {
    hide Step, Performs;
    var states', ops', ws' := states[1..], ops[1..], ws[1..];
    assert forall j :: 0 <= j < |states'| ==> states'[j] == states[j + 1];
    assert forall j :: 0 <= j < |ws'| ==> ws'[j] == ws[j + 1] && ops'[j] == ops[j + 1];
  }

  lemma {:induction false} LeaksWhereOverwriting(states: seq<Tables>, ops: seq<Op>, mailbox: int, ws: seq<Write>, reader: Reader)
    requires RunOn(states, ops, mailbox, ws, reader) && RealUids(ws) && Owned(states[0], mailbox)
    ensures (forall j :: 0 <= j < |ops| ==> LeakedBy(states[j], ops[j]) == []) <==> FreeIngests(Rows(states[0], mailbox), ws)
    decreases |ws|
  {
    hide Step, Owned, LeakedBy, Performs;
    if ws != [] {
      StepRows(states[0], mailbox, ws[0], reader, ops[0], states[1]);
      var states', ops', ws' := states[1..], ops[1..], ws[1..];
      RunTail(states, ops, mailbox, ws, reader);
      LeaksWhereOverwriting(states', ops', mailbox, ws', reader);
      if forall j :: 0 <= j < |ops'| ==> LeakedBy(states'[j], ops'[j]) == [] {
        forall j | 1 <= j < |ops| ensures LeakedBy(states[j], ops[j]) == [] {
          assert LeakedBy(states'[j - 1], ops'[j - 1]) == [];
        }
      }
    }
  }

  // ---------- what a plan overwrites ----------

  lemma {:induction false} FreeConcat(keys: set<int>, a: seq<Write>, b: seq<Write>)
    ensures FreeIngests(keys, a + b) <==> FreeIngests(keys, a) && FreeIngests(KeysAfterAll(keys, a), b)
    ensures KeysAfterAll(keys, a + b) == KeysAfterAll(KeysAfterAll(keys, a), b)
    decreases |a|
  {
    if a == [] {
      assert a + b == b;
    } else {
      assert (a + b)[1..] == a[1..] + b;
      FreeConcat(KeysAfter(keys, a[0]), a[1..], b);
    }
  }

  lemma {:induction false} DropsFree(keys: set<int>, uids: seq<int>)
    ensures FreeIngests(keys, Drops(uids))
    ensures KeysAfterAll(keys, Drops(uids)) == keys - set u | u in uids
    decreases |uids|
  {
    if uids != [] {
      assert Drops(uids)[1..] == Drops(uids[1..]);
      DropsFree(keys - {uids[0]}, uids[1..]);
      assert (set u | u in uids) == {uids[0]} + set u | u in uids[1..];
    }
  }

  /** No entry of the reply past the checkpoint is in the mailbox already, or comes twice. */
  ghost predicate NewOnly(keys: set<int>, last: int, reply: seq<int>) {
    && (forall i :: 0 <= i < |reply| && reply[i] > last ==> reply[i] !in keys)
    && (forall i, j :: 0 <= i < j < |reply| && reply[j] > last ==> reply[i] != reply[j])
  }

  lemma {:induction false} LoopFree(keys: set<int>, base: Local, up: Upstream, last: int, reply: seq<int>, n: nat)
    requires n <= |reply| && forall i :: 0 <= i < |reply| ==> reply[i] in up.messages
    ensures FreeIngests(keys, LoopPlan(base, up, last, reply, n)) <==> NewOnly(keys, last, reply[..n])
    ensures KeysAfterAll(keys, LoopPlan(base, up, last, reply, n)) == keys + set u | u in reply[..n] && u > last
  {
    hide UidPlan;
    if n > 0 {
      hide FreeIngests, KeysAfterAll, NewOnly;
      LoopFree(keys, base, up, last, reply, n - 1);
      var uid, before := reply[n - 1], LoopPlan(base, up, last, reply, n - 1);
      FreeConcat(keys, before, UidPlan(base, up, last, uid));
      UidFree(KeysAfterAll(keys, before), base, up, last, uid);
      assert reply[..n] == reply[..n - 1] + [uid];
      NewOnlySnoc(keys, last, reply[..n - 1], uid);
    }
  }

  lemma UidFree(keys: set<int>, base: Local, up: Upstream, last: int, uid: int)
    requires uid in up.messages
    ensures FreeIngests(keys, UidPlan(base, up, last, uid)) <==> (uid > last ==> uid !in keys)
    ensures KeysAfterAll(keys, UidPlan(base, up, last, uid)) == if uid > last then keys + {uid} else keys
  {
    hide NormalizeFlags, LocalFor, Ascend;
    var flags, fetch := FlagPlan(base, up, uid), FetchPlan(up, last, uid);
    FreeConcat(keys, flags, fetch);
    if flags != [] { assert flags[1..] == []; }
    if fetch != [] { assert fetch[1..] == []; }
  }

  lemma NewOnlySnoc(keys: set<int>, last: int, reply: seq<int>, uid: int)
    ensures NewOnly(keys, last, reply + [uid]) <==>
      NewOnly(keys, last, reply) && (uid > last ==> uid !in keys + set u | u in reply && u > last)
  {
    var all := reply + [uid];
    assert forall i :: 0 <= i < |reply| ==> all[i] == reply[i];
    assert all[|reply|] == uid;
    if uid > last && uid in reply {
      var i :| 0 <= i < |reply| && reply[i] == uid;
      assert all[i] == all[|reply|];
    }
  }

  /** The UIDs in the mailbox when the loop starts. */
  ghost function BaseKeys(l: Local, reported: Option<int>): set<int> { Base(l, reported).mailbox.rows.Keys }

  lemma {:induction false} DropsKeys(l: Local, uids: seq<int>)
    ensures PerformAll(l, Drops(uids)).mailbox.rows.Keys == l.mailbox.rows.Keys - set u | u in uids
    decreases |uids|
  {
    if uids != [] {
      assert Drops(uids)[1..] == Drops(uids[1..]);
      DropsKeys(Perform(l, DropRow(uids[0])), uids[1..]);
      assert (set u | u in uids) == {uids[0]} + set u | u in uids[1..];
    }
  }

  lemma ClearKeys(l: Local, reported: Option<int>)
    ensures FreeIngests(l.mailbox.rows.Keys, ClearPlan(l, reported))
    ensures KeysAfterAll(l.mailbox.rows.Keys, ClearPlan(l, reported)) == BaseKeys(l, reported)
  {
    hide Synced, Ascend, Drops, Perform;
    if EpochChanged(l, reported) {
      var uids := Synced(l.mailbox, Uids(l.mailbox));
      DropsFree(l.mailbox.rows.Keys, uids);
      DropsKeys(l, uids);
    }
  }

  lemma SavesFree(keys: set<int>, l: Local, a: Answers)
    ensures FreeIngests(keys, SavePart(l, a)) && KeysAfterAll(keys, SavePart(l, a)) == keys
  {
    hide Newest, EpochChanged, FreeIngests, KeysAfterAll;
    var saves := SavePart(l, a);
    assert saves == [saves[0]] + [saves[1]];
    Quiet(keys, saves[0]);
    Quiet(keys, saves[1]);
    FreeConcat(keys, [saves[0]], [saves[1]]);
  }

  lemma Quiet(keys: set<int>, w: Write)
    requires !w.IngestRow? && !w.DropRow?
    ensures FreeIngests(keys, [w]) && KeysAfterAll(keys, [w]) == keys
    ensures Hit(keys, [w]) == {} && Left(keys, [w]) == keys
  {
    assert [w][1..] == [];
  }

  lemma PlanFree(l: Local, a: Answers)
    requires a.Valid()
    ensures FreeIngests(l.mailbox.rows.Keys, Plan(l, a)) <==>
      NewOnly(BaseKeys(l, a.reported), EffectiveLast(l, a.reported), a.reply)
  {
    hide LoopPlan, ClearPlan, SavePart, BaseKeys, PerformAll, FreeIngests, KeysAfterAll, NewOnly, Stale, Ascend, EffectiveLast;
    var keys := l.mailbox.rows.Keys;
    var clear, fetch, save, drops := ClearPlan(l, a.reported), FetchPart(l, a), SavePart(l, a), ReconcilePart(l, a);
    ClearKeys(l, a.reported);
    FreeConcat(keys, clear, fetch);
    LoopFree(BaseKeys(l, a.reported), Base(l, a.reported), a.up, EffectiveLast(l, a.reported), a.reply, |a.reply|);
    assert a.reply[..|a.reply|] == a.reply;
    FreeConcat(keys, clear + fetch, save);
    SavesFree(KeysAfterAll(keys, clear + fetch), l, a);
    FreeConcat(keys, clear + fetch + save, drops);
    var saved := PerformAll(l, UpToSave(l, a)).mailbox;
    DropsFree(KeysAfterAll(keys, clear + fetch + save), Stale(saved, Uids(saved), a.reply));
  }

  lemma {:induction false} LoopUids(base: Local, up: Upstream, last: int, reply: seq<int>, n: nat)
    requires n <= |reply| && forall i :: 0 <= i < |reply| ==> reply[i] in up.messages && reply[i] >= 1
    ensures RealUids(LoopPlan(base, up, last, reply, n))
  {
    hide NormalizeFlags, LocalFor, Ascend;
    if n > 0 { LoopUids(base, up, last, reply, n - 1); }
  }

  lemma PlanUids(l: Local, a: Answers)
    requires a.Valid()
    ensures RealUids(Plan(l, a))
  {
    hide LoopPlan, PerformAll, Stale, Synced, Ascend, Newest;
    LoopUids(Base(l, a.reported), a.up, EffectiveLast(l, a.reported), a.reply, |a.reply|);
  }

  /** A complete run keeps every count equal to the live references if and only if no message the
      reply lists past the checkpoint is in the mailbox already, or listed twice. */
  lemma SyncConservesIff(l: Local, a: Answers, states: seq<Tables>, ops: seq<Op>, mailbox: int, reader: Reader)
    requires a.Valid() && RunOn(states, ops, mailbox, Plan(l, a), reader)
    requires Conserved(states[0]) && Owned(states[0], mailbox) && Rows(states[0], mailbox) == l.mailbox.rows.Keys
    ensures Conserved(states[|ops|]) <==> NewOnly(BaseKeys(l, a.reported), EffectiveLast(l, a.reported), a.reply)
  {
    hide Plan, Conserved, Owned, NewOnly, LeakedBy, Performs, FreeIngests, EffectiveLast, BaseKeys;
    PlanUids(l, a);
    PlanFree(l, a);
    LeaksWhereOverwriting(states, ops, mailbox, Plan(l, a), reader);
    RunIsCounted(states, ops, mailbox, Plan(l, a), reader);
    ConservedIffNoLeak(states, ops, |ops|);
  }

  // ---------- the run after a complete one ----------

  lemma AfterRun(l: Local, a: Answers)
    requires MirrorConvergence.SyncOnly(l) && a.Valid() && a.reported.Some?
    ensures var after := PerformAll(l, Plan(l, a));
      && SavedValidity(after) == a.reported && BaseKeys(after, a.reported) == after.mailbox.rows.Keys
      && SavedLast(after) == EffectiveLast(after, a.reported) == Newest(a.reply, EffectiveLast(l, a.reported), |a.reply|)
      && after.mailbox.rows.Keys <= a.up.messages.Keys
  {
    hide Plan, PerformAll, Newest;
    MirrorConvergence.FinalState(l, a);
    MirrorConvergence.SavedState(l, a);
    MirrorConvergence.FinalKeys(l, a);
    MirrorConvergence.NoWrites(PerformAll(l, Plan(l, a)));
  }

  /** The next run of the epoch leaks nothing if and only if each row upstream still lists is at or
      below the checkpoint the last run saved. */
  lemma NextRunCleanIff(l: Local, a: Answers, next: Answers)
    requires MirrorConvergence.SyncOnly(l) && a.Valid() && a.reported.Some?
    requires next.Valid() && next.reported == a.reported
    requires forall i, j :: 0 <= i < j < |next.reply| ==> next.reply[i] != next.reply[j]
    ensures var after := PerformAll(l, Plan(l, a));
      NewOnly(BaseKeys(after, next.reported), EffectiveLast(after, next.reported), next.reply)
      <==> forall u :: u in after.mailbox.rows && u in next.up.messages ==> u <= SavedLast(after)
  {
    hide Plan, PerformAll, Newest, BaseKeys, EffectiveLast, SavedLast;
    AfterRun(l, a);
    MirrorConvergence.ReplyMembers(next);
    var after := PerformAll(l, Plan(l, a));
    if u :| u in after.mailbox.rows && u in next.up.messages && u > SavedLast(after) {
      var i :| 0 <= i < |next.reply| && next.reply[i] == u;
    }
  }

  lemma {:induction false} NewestIsLargest(reply: seq<int>, last: int, n: nat, i: nat)
    requires n <= |reply| && i < n && Ascending(IntLess, reply)
    ensures reply[i] <= Newest(reply, last, n)
  {
    MirrorConvergence.NewestForward(reply, last, n);
    if reply[n - 1] > last {
      assert i < n - 1 ==> IntLess(reply[i], reply[n - 1]);
    } else if i < n - 1 {
      NewestIsLargest(reply, last, n - 1, i);
    }
  }

  /** So it leaks nothing after a run over an ascending reply. */
  lemma NextRunIsClean(l: Local, a: Answers, next: Answers)
    requires MirrorConvergence.SyncOnly(l) && a.Valid() && a.reported.Some? && Ascending(IntLess, a.reply)
    requires next.Valid() && next.reported == a.reported
    requires forall i, j :: 0 <= i < j < |next.reply| ==> next.reply[i] != next.reply[j]
    ensures var after := PerformAll(l, Plan(l, a));
      NewOnly(BaseKeys(after, next.reported), EffectiveLast(after, next.reported), next.reply)
  {
    hide Plan, PerformAll, Newest, BaseKeys, EffectiveLast, SavedLast, NewOnly;
    AfterRun(l, a);
    NextRunCleanIff(l, a, next);
    MirrorConvergence.ReplyMembers(a);
    forall u | u in PerformAll(l, Plan(l, a)).mailbox.rows ensures u <= SavedLast(PerformAll(l, Plan(l, a))) {
      assert u in a.reply;
      var i :| 0 <= i < |a.reply| && a.reply[i] == u;
      NewestIsLargest(a.reply, EffectiveLast(l, a.reported), |a.reply|, i);
    }
  }

  lemma {:induction false} NewestOfDescending(reply: seq<int>, last: int, n: nat, k: nat)
    requires k < n <= |reply| && reply[k] > last && forall i :: k < i < n ==> reply[i] <= last
    ensures Newest(reply, last, n) == reply[k]
  {
    if k < n - 1 { NewestOfDescending(reply, last, n - 1, k); }
  }

  /** A descending reply saves the smallest UID past the checkpoint.  With two or more of them the
      next run leaks, as long as upstream still has one that is not the smallest. */
  lemma DescendingReplyLeaks(l: Local, a: Answers, next: Answers, k: nat)
    requires MirrorConvergence.SyncOnly(l) && a.Valid() && a.reported.Some?
    requires forall i, j :: 0 <= i < j < |a.reply| ==> a.reply[i] > a.reply[j]
    requires k < |a.reply| && a.reply[k] > EffectiveLast(l, a.reported)
    requires forall i :: k < i < |a.reply| ==> a.reply[i] <= EffectiveLast(l, a.reported)
    requires next.Valid() && next.reported == a.reported
    requires exists i :: 0 <= i < k && a.reply[i] in next.up.messages
    ensures var after := PerformAll(l, Plan(l, a));
      && SavedLast(after) == a.reply[k]
      && !NewOnly(BaseKeys(after, next.reported), EffectiveLast(after, next.reported), next.reply)
  {
    hide Plan, PerformAll, Newest, BaseKeys, EffectiveLast, SavedLast;
    AfterRun(l, a);
    NewestOfDescending(a.reply, EffectiveLast(l, a.reported), |a.reply|, k);
    var i :| 0 <= i < k && a.reply[i] in next.up.messages;
    var u := a.reply[i];
    MirrorConvergence.FinalRow(l, a, u);
    MirrorConvergence.ReplyMembers(next);
    assert u in next.reply;
    var j :| 0 <= j < |next.reply| && next.reply[j] == u;
  }

  // ---------- how much a run leaks ----------

  /** Those of the rows `keys` that neither a drop nor an ingest has met. */
  function Left(keys: set<int>, ws: seq<Write>): set<int>
    decreases |ws|
  {
    if ws == [] then keys else Left(if ws[0].DropRow? || ws[0].IngestRow? then keys - {ws[0].uid} else keys, ws[1..])
  }

  /** Those of the rows `keys` that an ingest meets first. */
  function Hit(keys: set<int>, ws: seq<Write>): (hit: set<int>)
    ensures hit <= keys
    decreases |ws|
  {
    if ws == [] then {}
    else if ws[0].IngestRow? then (if ws[0].uid in keys then {ws[0].uid} else {}) + Hit(keys - {ws[0].uid}, ws[1..])
    else Hit(if ws[0].DropRow? then keys - {ws[0].uid} else keys, ws[1..])
  }

  /** The raw texts of the rows that writes have put in place, by UID. */
  function PutBy(put: map<int, string>, w: Write): map<int, string> {
    match w
    case DropRow(uid) => put - {uid}
    case IngestRow(uid, raw, _) => put[uid := raw]
    case _ => put
  }

  function PutByAll(put: map<int, string>, ws: seq<Write>): map<int, string>
    decreases |ws|
  {
    if ws == [] then put else PutByAll(PutBy(put, ws[0]), ws[1..])
  }

  /** How often the message stored for a raw text refers to a key. */
  ghost function RawRefs(reader: Reader, raw: string, key: string): int {
    Mult([Ref(Rfc822, reader(raw).0)] + reader(raw).1, key)
  }

  ghost function RepeatBy(put: map<int, string>, w: Write, reader: Reader, key: string): int {
    if w.IngestRow? && w.uid in put then RawRefs(reader, put[w.uid], key) else 0
  }

  /** The references of rows the writes put in place and then ingest over again. */
  ghost function Repeated(put: map<int, string>, ws: seq<Write>, reader: Reader, key: string): int
    decreases |ws|
  {
    if ws == [] then 0 else RepeatBy(put, ws[0], reader, key) + Repeated(PutBy(put, ws[0]), ws[1..], reader, key)
  }

  lemma {:induction false} HitConcat(keys: set<int>, a: seq<Write>, b: seq<Write>)
    ensures Hit(keys, a + b) == Hit(keys, a) + Hit(Left(keys, a), b)
    ensures Left(keys, a + b) == Left(Left(keys, a), b)
    decreases |a|
  {
    if a == [] {
      assert a + b == b;
    } else {
      assert (a + b)[1..] == a[1..] + b;
      HitConcat(if a[0].DropRow? || a[0].IngestRow? then keys - {a[0].uid} else keys, a[1..], b);
    }
  }

  lemma {:induction false} RepeatedConcat(put: map<int, string>, a: seq<Write>, b: seq<Write>, reader: Reader, key: string)
    ensures Repeated(put, a + b, reader, key) == Repeated(put, a, reader, key) + Repeated(PutByAll(put, a), b, reader, key)
    ensures PutByAll(put, a + b) == PutByAll(PutByAll(put, a), b)
    decreases |a|
  {
    hide PutBy, RepeatBy;
    if a == [] {
      assert a + b == b;
    } else {
      assert (a + b)[1..] == a[1..] + b;
      RepeatedConcat(PutBy(put, a[0]), a[1..], b, reader, key);
    }
  }

  /** A figure that counts in the mailbox's own account only. */
  ghost function Own(t: Tables, mailbox: int, account: int, n: int): int {
    if mailbox in t.mailboxes && t.mailboxes[mailbox].account == account then n else 0
  }

  /** A row's references, by its UID. */
  ghost function DemandAt(t: Tables, mailbox: int, account: int, key: string): int -> int {
    u => RowDemand(t, account, key, (mailbox, u))
  }

  /** What one write leaks, and that it leaves the other rows' references alone. */
  lemma StepLeak(t: Tables, mailbox: int, w: Write, reader: Reader, op: Op, t': Tables, account: int, key: string)
    requires Performs(t, mailbox, w, reader, op) && Step(t, op, t') && Owned(t, mailbox) && (w.IngestRow? ==> w.uid >= 1)
    ensures LeakOf(t, op, account, key) ==
      if w.IngestRow? && w.uid in Rows(t, mailbox) then RowDemand(t, account, key, (mailbox, w.uid)) else 0
    ensures forall u :: u in Rows(t, mailbox) && !((w.IngestRow? || w.DropRow?) && w.uid == u) ==>
      RowDemand(t', account, key, (mailbox, u)) == RowDemand(t, account, key, (mailbox, u))
    ensures t'.mailboxes[mailbox].account == t.mailboxes[mailbox].account
    ensures w.IngestRow? ==>
      RowDemand(t', account, key, (mailbox, w.uid)) == Own(t, mailbox, account, RawRefs(reader, w.raw, key))
  {
    hide ReleasedAll, AddRefs, AddRef, Mult;
    EmptyMult(key);
  }

  /** Each row is one of `keys` or was put in place by a write, and the latter refer to what their
      raw texts say. */
  ghost predicate Tracked(t: Tables, mailbox: int, reader: Reader, keys: set<int>, put: map<int, string>,
                          account: int, key: string)
    requires mailbox in t.mailboxes
  {
    && Rows(t, mailbox) == keys + put.Keys && keys !! put.Keys
    && forall u :: u in put ==>
         RowDemand(t, account, key, (mailbox, u)) == Own(t, mailbox, account, RawRefs(reader, put[u], key))
  }

  lemma {:induction false} LeakShift(states: seq<Tables>, ops: seq<Op>, n: nat, account: int, key: string)
    requires 1 <= n <= |ops| && |states| == |ops| + 1
    ensures LeakedSoFar(states, ops, n, account, key) ==
      LeakOf(states[0], ops[0], account, key) + LeakedSoFar(states[1..], ops[1..], n - 1, account, key)
  {
    hide LeakOf;
    if n > 1 { LeakShift(states, ops, n - 1, account, key); }
  }

  lemma {:induction false} LeakAmount(states: seq<Tables>, ops: seq<Op>, mailbox: int, ws: seq<Write>, reader: Reader,
                                      keys: set<int>, put: map<int, string>, account: int, key: string)
    requires RunOn(states, ops, mailbox, ws, reader) && RealUids(ws) && Owned(states[0], mailbox)
    requires Tracked(states[0], mailbox, reader, keys, put, account, key)
    ensures LeakedSoFar(states, ops, |ops|, account, key) ==
      SumOver(Hit(keys, ws), DemandAt(states[0], mailbox, account, key))
      + Own(states[0], mailbox, account, Repeated(put, ws, reader, key))
    decreases |ws|
  {
    hide Step, Owned, LeakOf, Performs, RealUids, Tracked, PutBy, RepeatBy;
    if ws != [] {
      var w := ws[0];
      FirstUid(ws);
      RunTail(states, ops, mailbox, ws, reader);
      StepRows(states[0], mailbox, w, reader, ops[0], states[1]);
      StepTracked(states[0], mailbox, w, reader, ops[0], states[1], keys, put, account, key);
      LeakAmount(states[1..], ops[1..], mailbox, ws[1..], reader, KeysLeft(keys, w), PutBy(put, w), account, key);
      LeakShift(states, ops, |ops|, account, key);
      StepLeakSum(states[0], mailbox, ws, reader, ops[0], states[1], keys, put, account, key);
    } else {
      assert LeakedSoFar(states, ops, |ops|, account, key) == 0;
    }
  }

  lemma FirstUid(ws: seq<Write>)
    requires RealUids(ws) && ws != []
    ensures ws[0].IngestRow? ==> ws[0].uid >= 1
  {}

  function KeysLeft(keys: set<int>, w: Write): set<int> {
    if w.DropRow? || w.IngestRow? then keys - {w.uid} else keys
  }

  lemma StepTracked(t: Tables, mailbox: int, w: Write, reader: Reader, op: Op, t': Tables,
                    keys: set<int>, put: map<int, string>, account: int, key: string)
    requires Performs(t, mailbox, w, reader, op) && Step(t, op, t') && Owned(t, mailbox) && (w.IngestRow? ==> w.uid >= 1)
    requires Tracked(t, mailbox, reader, keys, put, account, key)
    ensures Owned(t', mailbox) && Tracked(t', mailbox, reader, KeysLeft(keys, w), PutBy(put, w), account, key)
  {
    hide Step, Owned, Performs, RowDemand, RawRefs;
    StepRows(t, mailbox, w, reader, op, t');
    StepLeak(t, mailbox, w, reader, op, t', account, key);
    MailboxStays(t, mailbox, w, reader, op, t');
  }

  lemma MailboxStays(t: Tables, mailbox: int, w: Write, reader: Reader, op: Op, t': Tables)
    requires Performs(t, mailbox, w, reader, op) && Step(t, op, t')
    ensures mailbox in t.mailboxes && mailbox in t'.mailboxes
  {
    hide ReleasedAll, AddRefs, AddRef;
  }

  /** One write's leak and the later leaks, read off the tables before and after it. */
  lemma StepLeakSum(t: Tables, mailbox: int, ws: seq<Write>, reader: Reader, op: Op, t': Tables,
                    keys: set<int>, put: map<int, string>, account: int, key: string)
    requires ws != [] && Performs(t, mailbox, ws[0], reader, op) && Step(t, op, t') && Owned(t, mailbox)
    requires (ws[0].IngestRow? ==> ws[0].uid >= 1) && Tracked(t, mailbox, reader, keys, put, account, key)
    ensures Own(t', mailbox, account, 1) == Own(t, mailbox, account, 1)
    ensures LeakOf(t, op, account, key)
      + SumOver(Hit(KeysLeft(keys, ws[0]), ws[1..]), DemandAt(t', mailbox, account, key))
      == SumOver(Hit(keys, ws), DemandAt(t, mailbox, account, key))
      + Own(t, mailbox, account, RepeatBy(put, ws[0], reader, key))
  {
    hide Step, Owned, LeakOf, Performs, RowDemand, RawRefs;
    var w := ws[0];
    StepLeak(t, mailbox, w, reader, op, t', account, key);
    MailboxStays(t, mailbox, w, reader, op, t');
    var before, after := DemandAt(t, mailbox, account, key), DemandAt(t', mailbox, account, key);
    var later := Hit(KeysLeft(keys, w), ws[1..]);
    forall u | u in later ensures after(u) == before(u) {
      assert u in KeysLeft(keys, w) && u in Rows(t, mailbox);
      assert RowDemand(t', account, key, (mailbox, u)) == RowDemand(t, account, key, (mailbox, u));
    }
    SumCongruent(later, after, before);
    if w.IngestRow? && w.uid in keys {
      SumRemove(Hit(keys, ws), before, w.uid);
      assert Hit(keys, ws) - {w.uid} == later;
    } else {
      assert Hit(keys, ws) == later;
    }
  }

  // ---------- how much a plan overwrites ----------

  lemma {:induction false} DropsHit(keys: set<int>, uids: seq<int>)
    ensures Hit(keys, Drops(uids)) == {} && Left(keys, Drops(uids)) == keys - set u | u in uids
    decreases |uids|
  {
    if uids != [] {
      assert Drops(uids)[1..] == Drops(uids[1..]);
      DropsHit(keys - {uids[0]}, uids[1..]);
      assert (set u | u in uids) == {uids[0]} + set u | u in uids[1..];
    }
  }

  lemma {:induction false} DropsRepeat(put: map<int, string>, uids: seq<int>, reader: Reader, key: string)
    ensures Repeated(put, Drops(uids), reader, key) == 0
    ensures put == map[] ==> PutByAll(put, Drops(uids)) == map[]
    decreases |uids|
  {
    if uids != [] {
      assert Drops(uids)[1..] == Drops(uids[1..]);
      DropsRepeat(put - {uids[0]}, uids[1..], reader, key);
    }
  }

  lemma UidHit(keys: set<int>, base: Local, up: Upstream, last: int, uid: int)
    requires uid in up.messages
    ensures var plan, fetched := UidPlan(base, up, last, uid), if uid > last then {uid} else {};
      Hit(keys, plan) == keys * fetched && Left(keys, plan) == keys - fetched
  {
    hide NormalizeFlags, LocalFor, Ascend;
    var flags, fetch := FlagPlan(base, up, uid), FetchPlan(up, last, uid);
    HitConcat(keys, flags, fetch);
    if flags != [] { assert flags[1..] == []; }
    if fetch != [] { assert fetch[1..] == []; }
  }

  lemma UidRepeat(put: map<int, string>, base: Local, up: Upstream, last: int, uid: int, reader: Reader, key: string)
    requires uid in up.messages
    ensures var plan := UidPlan(base, up, last, uid);
      && Repeated(put, plan, reader, key) == (if uid > last && uid in put then RawRefs(reader, put[uid], key) else 0)
      && PutByAll(put, plan) == if uid > last then put[uid := up.messages[uid].raw] else put
  {
    hide NormalizeFlags, LocalFor, Ascend, RawRefs;
    var flags, fetch := FlagPlan(base, up, uid), FetchPlan(up, last, uid);
    RepeatedConcat(put, flags, fetch, reader, key);
    if flags != [] { assert flags[1..] == []; }
    if fetch != [] { assert fetch[1..] == []; }
  }

  ghost function Past(last: int, reply: seq<int>): set<int> { set u | u in reply && u > last }

  lemma {:induction false} LoopHit(keys: set<int>, base: Local, up: Upstream, last: int, reply: seq<int>, n: nat)
    requires n <= |reply| && forall i :: 0 <= i < |reply| ==> reply[i] in up.messages
    ensures var plan, past := LoopPlan(base, up, last, reply, n), Past(last, reply[..n]);
      Hit(keys, plan) == keys * past && Left(keys, plan) == keys - past
  {
    hide UidPlan;
    if n > 0 {
      hide Hit, Left;
      LoopHit(keys, base, up, last, reply, n - 1);
      var uid, before := reply[n - 1], LoopPlan(base, up, last, reply, n - 1);
      HitConcat(keys, before, UidPlan(base, up, last, uid));
      UidHit(Left(keys, before), base, up, last, uid);
      assert reply[..n] == reply[..n - 1] + [uid];
      assert Past(last, reply[..n]) == Past(last, reply[..n - 1]) + if uid > last then {uid} else {};
    }
  }

  /** For each entry past the checkpoint that came before in the reply, the references of the
      message ingested for it. */
  ghost function RepeatsOf(up: Upstream, last: int, reply: seq<int>, n: nat, reader: Reader, key: string): int
    requires n <= |reply| && forall i :: 0 <= i < |reply| ==> reply[i] in up.messages
  {
    if n == 0 then 0
    else
      RepeatsOf(up, last, reply, n - 1, reader, key)
      + if reply[n - 1] > last && reply[n - 1] in reply[..n - 1] then RawRefs(reader, up.messages[reply[n - 1]].raw, key) else 0
  }

  /** The rows put in place are the given UIDs, with upstream's raw texts. */
  ghost predicate PutFrom(put: map<int, string>, up: Upstream, uids: set<int>) {
    put.Keys == uids && forall u :: u in put ==> u in up.messages && put[u] == up.messages[u].raw
  }

  lemma PastSnoc(last: int, reply: seq<int>, uid: int)
    ensures Past(last, reply + [uid]) == Past(last, reply) + if uid > last then {uid} else {}
  {}

  lemma {:induction false} LoopRepeat(base: Local, up: Upstream, last: int, reply: seq<int>, n: nat, reader: Reader, key: string)
    requires n <= |reply| && forall i :: 0 <= i < |reply| ==> reply[i] in up.messages
    ensures var plan := LoopPlan(base, up, last, reply, n);
      && Repeated(map[], plan, reader, key) == RepeatsOf(up, last, reply, n, reader, key)
      && PutFrom(PutByAll(map[], plan), up, Past(last, reply[..n]))
  {
    hide LoopPlan, RepeatsOf, UidPlan, RawRefs;
    LoopUnfolds(base, up, last, reply, n, reader, key);
    if n > 0 {
      hide Repeated, PutByAll, Past, PutFrom;
      LoopRepeat(base, up, last, reply, n - 1, reader, key);
      var uid, before := reply[n - 1], LoopPlan(base, up, last, reply, n - 1);
      var put := PutByAll(map[], before);
      RepeatedConcat(map[], before, UidPlan(base, up, last, uid), reader, key);
      UidRepeat(put, base, up, last, uid, reader, key);
      assert reply[..n] == reply[..n - 1] + [uid];
      PastSnoc(last, reply[..n - 1], uid);
      PutStep(put, up, last, reply[..n - 1], uid);
    }
  }

  lemma LoopUnfolds(base: Local, up: Upstream, last: int, reply: seq<int>, n: nat, reader: Reader, key: string)
    requires n <= |reply| && forall i :: 0 <= i < |reply| ==> reply[i] in up.messages
    ensures n == 0 ==> LoopPlan(base, up, last, reply, n) == [] && RepeatsOf(up, last, reply, n, reader, key) == 0
    ensures n > 0 ==>
      LoopPlan(base, up, last, reply, n) == LoopPlan(base, up, last, reply, n - 1) + UidPlan(base, up, last, reply[n - 1])
    ensures n > 0 ==>
      var again := reply[n - 1] > last && reply[n - 1] in reply[..n - 1];
      var leak := if again then RawRefs(reader, up.messages[reply[n - 1]].raw, key) else 0;
      RepeatsOf(up, last, reply, n, reader, key) == RepeatsOf(up, last, reply, n - 1, reader, key) + leak
  {
    hide UidPlan, RawRefs;
  }

  lemma PutStep(put: map<int, string>, up: Upstream, last: int, reply: seq<int>, uid: int)
    requires uid in up.messages && PutFrom(put, up, Past(last, reply))
    ensures uid > last ==> (uid in put <==> uid in reply)
    ensures uid in put ==> put[uid] == up.messages[uid].raw
    ensures PutFrom(if uid > last then put[uid := up.messages[uid].raw] else put, up, Past(last, reply + [uid]))
  {
    PastSnoc(last, reply, uid);
  }

  lemma ClearHit(l: Local, reported: Option<int>, reader: Reader, key: string)
    ensures Hit(l.mailbox.rows.Keys, ClearPlan(l, reported)) == {}
    ensures Left(l.mailbox.rows.Keys, ClearPlan(l, reported)) == BaseKeys(l, reported)
    ensures Repeated(map[], ClearPlan(l, reported), reader, key) == 0 && PutByAll(map[], ClearPlan(l, reported)) == map[]
  {
    hide Synced, Ascend, Drops, Perform;
    if EpochChanged(l, reported) {
      var uids := Synced(l.mailbox, Uids(l.mailbox));
      DropsHit(l.mailbox.rows.Keys, uids);
      DropsKeys(l, uids);
      DropsRepeat(map[], uids, reader, key);
    }
  }

  lemma SavesHit(keys: set<int>, put: map<int, string>, l: Local, a: Answers, reader: Reader, key: string)
    ensures Hit(keys, SavePart(l, a)) == {} && Left(keys, SavePart(l, a)) == keys
    ensures Repeated(put, SavePart(l, a), reader, key) == 0
  {
    hide Newest, EpochChanged, Hit, Left, Repeated, PutByAll;
    var saves := SavePart(l, a);
    assert saves == [saves[0]] + [saves[1]];
    Quiet(keys, saves[0]);
    Quiet(keys, saves[1]);
    HitConcat(keys, [saves[0]], [saves[1]]);
    QuietRepeat(put, saves[0], reader, key);
    QuietRepeat(put, saves[1], reader, key);
    RepeatedConcat(put, [saves[0]], [saves[1]], reader, key);
  }

  lemma QuietRepeat(put: map<int, string>, w: Write, reader: Reader, key: string)
    requires !w.IngestRow? && !w.DropRow?
    ensures Repeated(put, [w], reader, key) == 0 && PutByAll(put, [w]) == put
  {
    assert [w][1..] == [];
  }

  /** The rows a run ingests over: past the checkpoint, upstream, and in the mailbox already. */
  ghost function Overwritten(l: Local, a: Answers): set<int> {
    BaseKeys(l, a.reported) * Past(EffectiveLast(l, a.reported), a.reply)
  }

  lemma PlanHit(l: Local, a: Answers, reader: Reader, key: string)
    requires a.Valid()
    ensures Hit(l.mailbox.rows.Keys, Plan(l, a)) == Overwritten(l, a)
    ensures Repeated(map[], Plan(l, a), reader, key)
      == RepeatsOf(a.up, EffectiveLast(l, a.reported), a.reply, |a.reply|, reader, key)
  {
    hide LoopPlan, ClearPlan, SavePart, BaseKeys, PerformAll, Hit, Left, Repeated, PutByAll, Stale, Ascend, EffectiveLast, RepeatsOf;
    var keys := l.mailbox.rows.Keys;
    var clear, fetch, save, drops := ClearPlan(l, a.reported), FetchPart(l, a), SavePart(l, a), ReconcilePart(l, a);
    ClearHit(l, a.reported, reader, key);
    HitConcat(keys, clear, fetch);
    RepeatedConcat(map[], clear, fetch, reader, key);
    LoopHit(BaseKeys(l, a.reported), Base(l, a.reported), a.up, EffectiveLast(l, a.reported), a.reply, |a.reply|);
    LoopRepeat(Base(l, a.reported), a.up, EffectiveLast(l, a.reported), a.reply, |a.reply|, reader, key);
    assert a.reply[..|a.reply|] == a.reply;
    HitConcat(keys, clear + fetch, save);
    RepeatedConcat(map[], clear + fetch, save, reader, key);
    SavesHit(Left(keys, clear + fetch), PutByAll(map[], clear + fetch), l, a, reader, key);
    HitConcat(keys, clear + fetch + save, drops);
    RepeatedConcat(map[], clear + fetch + save, drops, reader, key);
    var saved := PerformAll(l, UpToSave(l, a)).mailbox;
    DropsHit(Left(keys, clear + fetch + save), Stale(saved, Uids(saved), a.reply));
    DropsRepeat(PutByAll(map[], clear + fetch + save), Stale(saved, Uids(saved), a.reply), reader, key);
  }

  /** A complete run leaves each count above the live references by exactly the references of the
      rows it ingests over: those that were in the mailbox past the checkpoint before the run, and,
      once for each repeat in the reply, those it had put there itself. */
  lemma SyncLeaksExactly(l: Local, a: Answers, states: seq<Tables>, ops: seq<Op>, mailbox: int, reader: Reader,
                         account: int, key: string)
    requires a.Valid() && RunOn(states, ops, mailbox, Plan(l, a), reader)
    requires Conserved(states[0]) && Owned(states[0], mailbox) && Rows(states[0], mailbox) == l.mailbox.rows.Keys
    ensures Total(states[|ops|].cache, account, key) == Demand(states[|ops|], account, key)
      + SumOver(Overwritten(l, a), DemandAt(states[0], mailbox, account, key))
      + Own(states[0], mailbox, account, RepeatsOf(a.up, EffectiveLast(l, a.reported), a.reply, |a.reply|, reader, key))
  {
    hide Plan, Conserved, Performs, Total, Demand, Overwritten, EffectiveLast, Hit, RepeatsOf, Repeated;
    PlanUids(l, a);
    PlanHit(l, a, reader, key);
    assert Tracked(states[0], mailbox, reader, l.mailbox.rows.Keys, map[], account, key);
    LeakAmount(states, ops, mailbox, Plan(l, a), reader, l.mailbox.rows.Keys, map[], account, key);
    RunIsCounted(states, ops, mailbox, Plan(l, a), reader);
    BalanceFrom(states, ops, |ops|, account, key);
  }
}
