/**
 Every successful sync run leaves the mailbox equal to upstream, over every history of
 upstream changes, UIDVALIDITY epochs, local flag changes and runs cut short at any write.
 */
module MirrorConvergence {
  import opened Wrappers
  import opened Ordering
  import opened MailboxStore
  import opened Mirror

  // ---------- mailboxes filled by sync only ----------

  ghost predicate SyncOnly(l: Local) {
    && (forall u :: u in l.mailbox.rows ==>
          u >= 1 && l.mailbox.rows[u].upstreamUid == Some(u) && l.mailbox.rows[u].messageId in l.bodies)
    && (forall id :: id in l.bodies ==> id < l.nextId)
  }

  ghost function Body(l: Local, u: int): string
    requires SyncOnly(l) && u in l.mailbox.rows
  {
    l.bodies[l.mailbox.rows[u].messageId]
  }

  /** Same UIDs, same bodies, same flags after normalisation. */
  ghost predicate Mirrored(l: Local, up: Upstream)
    requires SyncOnly(l)
  {
    && l.mailbox.rows.Keys == up.messages.Keys
    && forall u :: u in up.messages ==>
         && Body(l, u) == up.messages[u].raw
         && NormalizeFlags(l.mailbox.rows[u].flags) == NormalizeFlags(up.messages[u].flags)
  }

  lemma {:induction false} DropsResult(l: Local, uids: seq<int>)
    requires SyncOnly(l)
    ensures var after := PerformAll(l, Drops(uids));
      && SyncOnly(after) && after.bodies == l.bodies && after.checkpoint == l.checkpoint
      && after.mailbox.rows == l.mailbox.rows - set u | u in uids
    decreases |uids|
  {
    hide NormalizeFlags;
    if uids != [] {
      assert Drops(uids)[1..] == Drops(uids[1..]);
      var next := Perform(l, DropRow(uids[0]));
      assert next.mailbox.rows == l.mailbox.rows - {uids[0]};
      DropsResult(next, uids[1..]);
      assert (set u | u in uids) == {uids[0]} + set u | u in uids[1..];
    } else {
      assert l.mailbox.rows == l.mailbox.rows - {};
    }
  }

  lemma RowLookup(l: Local, u: int)
    requires SyncOnly(l)
    ensures LocalFor(l.mailbox, Uids(l.mailbox), u) == if u in l.mailbox.rows then Some(u) else None
  {
    AscendSpec(l.mailbox.rows.Keys);
    var found := LocalFor(l.mailbox, Uids(l.mailbox), u);
    if u in l.mailbox.rows { assert u in Uids(l.mailbox); }
  }

  lemma BaseResult(l: Local, reported: Option<int>)
    requires SyncOnly(l)
    ensures var base := Base(l, reported);
      && SyncOnly(base) && base.checkpoint == l.checkpoint
      && (EpochChanged(l, reported) ==> base.mailbox.rows == map[])
      && (!EpochChanged(l, reported) ==> base == l)
  {
    hide Perform;
    if EpochChanged(l, reported) {
      var uids := Synced(l.mailbox, Uids(l.mailbox));
      DropsResult(l, uids);
      AscendSpec(l.mailbox.rows.Keys);
      forall u | u in l.mailbox.rows ensures u in uids {
        assert u in Uids(l.mailbox);
      }
    }
  }

  // ---------- the UID loop ----------

  /** A row when the flags of the UIDs in `flagged` have been reconciled and those in `fetched`
      past the checkpoint ingested. */
  ghost predicate RowIs(base: Local, cur: Local, up: Upstream, last: int, flagged: set<int>, fetched: set<int>, u: int)
    requires SyncOnly(base) && SyncOnly(cur) && u in cur.mailbox.rows
  {
    && (if u in flagged
        then u in up.messages && NormalizeFlags(cur.mailbox.rows[u].flags) == NormalizeFlags(up.messages[u].flags)
        else u in base.mailbox.rows && cur.mailbox.rows[u].flags == base.mailbox.rows[u].flags)
    && (if u in fetched && u > last then u in up.messages && Body(cur, u) == up.messages[u].raw
        else u in base.mailbox.rows && Body(cur, u) == Body(base, u))
  }

  function PastOf(seen: set<int>, last: int): set<int> { set u | u in seen && u > last }

  ghost predicate RowsAre(base: Local, cur: Local, up: Upstream, last: int, flagged: set<int>, fetched: set<int>)
    requires SyncOnly(base)
  {
    && SyncOnly(cur) && cur.checkpoint == base.checkpoint
    && cur.mailbox.rows.Keys == base.mailbox.rows.Keys + PastOf(fetched, last)
    && forall u :: u in cur.mailbox.rows ==> RowIs(base, cur, up, last, flagged, fetched, u)
  }

  /** After the loop has handled the UIDs in `seen`. */
  ghost predicate LoopState(base: Local, cur: Local, up: Upstream, last: int, seen: set<int>)
    requires SyncOnly(base) && seen <= up.messages.Keys
  {
    RowsAre(base, cur, up, last, seen, seen)
  }

  lemma FlagEffect(cur: Local, uid: int, flags: seq<string>)
    requires SyncOnly(cur)
    ensures var after := Perform(cur, WriteFlags(uid, flags));
      && SyncOnly(after) && after.checkpoint == cur.checkpoint && after.mailbox.rows.Keys == cur.mailbox.rows.Keys
      && (uid in cur.mailbox.rows ==> after.mailbox.rows[uid].flags == flags)
      && forall u :: u in cur.mailbox.rows ==>
           Body(after, u) == Body(cur, u) && (u != uid ==> after.mailbox.rows[u].flags == cur.mailbox.rows[u].flags)
  {}

  lemma OneWrite(l: Local, w: Write)
    ensures PerformAll(l, [w]) == Perform(l, w) && PerformAll(l, []) == l
  {
    PerformSnoc(l, [], w);
    assert [] + [w] == [w];
  }

  /** Reconciling the flags of `uid`. */
  lemma FlagStep(base: Local, cur: Local, up: Upstream, last: int, seen: set<int>, uid: int)
    requires SyncOnly(base) && seen <= up.messages.Keys && uid in up.messages
    requires LoopState(base, cur, up, last, seen)
    ensures RowsAre(base, PerformAll(cur, FlagPlan(base, up, uid)), up, last, seen + {uid}, seen)
  {
    hide NormalizeFlags, LocalFor, Ascend, Perform, PerformAll, SyncOnly, Body, PastOf, FlagPlan;
    FlagPlanIs(base, up, uid);
    var plan := FlagPlan(base, up, uid);
    OneWrite(cur, WriteFlags(uid, NormalizeFlags(up.messages[uid].flags)));
    NormalizeTwice(up.messages[uid].flags);
    FlagEffect(cur, uid, NormalizeFlags(up.messages[uid].flags));
    var after := PerformAll(cur, plan);
    forall u | u in after.mailbox.rows ensures RowIs(base, after, up, last, seen + {uid}, seen, u) {
      assert RowIs(base, cur, up, last, seen, seen, u);
    }
  }

  lemma FlagPlanIs(base: Local, up: Upstream, uid: int)
    requires SyncOnly(base) && uid in up.messages
    ensures var fetched := NormalizeFlags(up.messages[uid].flags);
      FlagPlan(base, up, uid) ==
        if uid in base.mailbox.rows && NormalizeFlags(base.mailbox.rows[uid].flags) != fetched
        then [WriteFlags(uid, fetched)] else []
  {
    hide NormalizeFlags, LocalFor, Ascend;
    RowLookup(base, uid);
  }

  lemma IngestEffect(mid: Local, uid: int, raw: string, flags: seq<string>)
    requires SyncOnly(mid) && uid >= 1
    ensures var after := Perform(mid, IngestRow(uid, raw, flags));
      && SyncOnly(after) && after.checkpoint == mid.checkpoint
      && after.mailbox.rows.Keys == mid.mailbox.rows.Keys + {uid}
      && Body(after, uid) == raw && after.mailbox.rows[uid].flags == flags
      && forall u :: u in mid.mailbox.rows && u != uid ==>
           after.mailbox.rows[u].flags == mid.mailbox.rows[u].flags && Body(after, u) == Body(mid, u)
  {}

  lemma PastStep(seen: set<int>, last: int, uid: int)
    ensures PastOf(seen + {uid}, last) == PastOf(seen, last) + if uid > last then {uid} else {}
  {}

  /** Ingesting `uid` if it is past the checkpoint. */
  lemma FetchStep(base: Local, mid: Local, up: Upstream, last: int, seen: set<int>, uid: int)
    requires SyncOnly(base) && seen <= up.messages.Keys && uid in up.messages && uid >= 1
    requires RowsAre(base, mid, up, last, seen + {uid}, seen)
    ensures LoopState(base, PerformAll(mid, FetchPlan(up, last, uid)), up, last, seen + {uid})
  {
    hide NormalizeFlags, Perform, PerformAll, SyncOnly, Body, PastOf;
    var m := up.messages[uid];
    OneWrite(mid, IngestRow(uid, m.raw, NormalizeFlags(m.flags)));
    NormalizeTwice(m.flags);
    IngestEffect(mid, uid, m.raw, NormalizeFlags(m.flags));
    PastStep(seen, last, uid);
    var after := PerformAll(mid, FetchPlan(up, last, uid));
    forall u | u in after.mailbox.rows ensures RowIs(base, after, up, last, seen + {uid}, seen + {uid}, u) {
      assert u in mid.mailbox.rows ==> RowIs(base, mid, up, last, seen + {uid}, seen, u);
    }
  }

  lemma UidStep(base: Local, cur: Local, up: Upstream, last: int, seen: set<int>, uid: int)
    requires SyncOnly(base) && seen <= up.messages.Keys && uid in up.messages && uid >= 1
    requires LoopState(base, cur, up, last, seen)
    ensures LoopState(base, PerformAll(cur, UidPlan(base, up, last, uid)), up, last, seen + {uid})
  {
    hide NormalizeFlags, FlagPlan, FetchPlan, Perform, PerformAll, LoopState, RowsAre;
    FlagStep(base, cur, up, last, seen, uid);
    FetchStep(base, PerformAll(cur, FlagPlan(base, up, uid)), up, last, seen, uid);
    PerformConcat(cur, FlagPlan(base, up, uid), FetchPlan(up, last, uid));
  }

  ghost function FirstOf(reply: seq<int>, n: nat): set<int>
    requires n <= |reply|
  {
    set u | u in reply[..n]
  }

  lemma {:induction false} LoopResult(base: Local, up: Upstream, last: int, reply: seq<int>, n: nat)
    requires SyncOnly(base) && n <= |reply|
    requires forall i :: 0 <= i < |reply| ==> reply[i] in up.messages && reply[i] >= 1
    ensures FirstOf(reply, n) <= up.messages.Keys
    ensures LoopState(base, PerformAll(base, LoopPlan(base, up, last, reply, n)), up, last, FirstOf(reply, n))
  {
    hide NormalizeFlags, UidPlan, Perform;
    if n == 0 {
      assert FirstOf(reply, 0) == {};
      assert base.mailbox.rows.Keys + {} == base.mailbox.rows.Keys;
    } else {
      LoopResult(base, up, last, reply, n - 1);
      var before := LoopPlan(base, up, last, reply, n - 1);
      UidStep(base, PerformAll(base, before), up, last, FirstOf(reply, n - 1), reply[n - 1]);
      PerformConcat(base, before, UidPlan(base, up, last, reply[n - 1]));
      assert reply[..n] == reply[..n - 1] + [reply[n - 1]];
      assert FirstOf(reply, n) == FirstOf(reply, n - 1) + {reply[n - 1]};
    }
  }

  // ---------- one run ----------

  /** The local state once the UID loop is through. */
  ghost function Fetched(l: Local, a: Answers): Local
    requires a.Valid()
  {
    PerformAll(Base(l, a.reported), FetchPart(l, a))
  }

  lemma ReplyMembers(a: Answers)
    requires a.Valid()
    ensures forall u :: u in a.reply <==> u in a.up.messages
  {
    forall u ensures u in a.reply <==> u in a.up.messages {
      if u in a.reply { var i :| 0 <= i < |a.reply| && a.reply[i] == u; }
    }
  }

  lemma FetchedState(l: Local, a: Answers)
    requires SyncOnly(l) && a.Valid()
    ensures SyncOnly(Base(l, a.reported))
    ensures LoopState(Base(l, a.reported), Fetched(l, a), a.up, EffectiveLast(l, a.reported), a.up.messages.Keys)
  {
    hide LoopPlan, Perform, LoopState;
    BaseResult(l, a.reported);
    LoopResult(Base(l, a.reported), a.up, EffectiveLast(l, a.reported), a.reply, |a.reply|);
    assert a.reply[..|a.reply|] == a.reply;
    ReplyMembers(a);
    forall u ensures u in FirstOf(a.reply, |a.reply|) <==> u in a.up.messages.Keys {
      assert u in a.reply[..|a.reply|] <==> u in a.reply;
    }
    assert FirstOf(a.reply, |a.reply|) == a.up.messages.Keys;
  }

  lemma SaveEffect(l: Local, fetched: Local, a: Answers)
    ensures var saved := PerformAll(fetched, SavePart(l, a));
      && saved.mailbox.rows == fetched.mailbox.rows && saved.bodies == fetched.bodies && saved.nextId == fetched.nextId
      && saved.checkpoint == Some(Checkpoint(a.reported, Newest(a.reply, EffectiveLast(l, a.reported), |a.reply|)))
  {
    hide EpochChanged, Newest;
    var saves := SavePart(l, a);
    PerformSnoc(fetched, [], saves[0]);
    PerformSnoc(fetched, [saves[0]], saves[1]);
    assert [] + [saves[0]] == [saves[0]] && [saves[0]] + [saves[1]] == saves;
    assert PerformAll(fetched, []) == fetched;
  }

  lemma SavedState(l: Local, a: Answers)
    requires SyncOnly(l) && a.Valid()
    ensures var saved, fetched := PerformAll(l, UpToSave(l, a)), Fetched(l, a);
      && SyncOnly(saved) && saved.mailbox.rows == fetched.mailbox.rows && saved.bodies == fetched.bodies
      && saved.checkpoint == Some(Checkpoint(a.reported, Newest(a.reply, EffectiveLast(l, a.reported), |a.reply|)))
  {
    hide LoopPlan, Perform, PerformAll, SavePart;
    FetchedState(l, a);
    PerformConcat(l, ClearPlan(l, a.reported), FetchPart(l, a));
    PerformConcat(l, ClearPlan(l, a.reported) + FetchPart(l, a), SavePart(l, a));
    SaveEffect(l, Fetched(l, a), a);
  }

  lemma StaleRows(saved: Local, a: Answers, u: int)
    requires SyncOnly(saved) && a.Valid() && u in saved.mailbox.rows
    ensures u in Stale(saved.mailbox, Uids(saved.mailbox), a.reply) <==> u !in a.up.messages
  {
    hide Stale, Ascend;
    AscendSpec(saved.mailbox.rows.Keys);
    assert u in Uids(saved.mailbox);
    ReplyMembers(a);
  }

  /** Reconciliation removes exactly the rows upstream no longer has. */
  lemma FinalState(l: Local, a: Answers)
    requires SyncOnly(l) && a.Valid()
    ensures var final, saved := PerformAll(l, Plan(l, a)), PerformAll(l, UpToSave(l, a));
      && SyncOnly(saved) && SyncOnly(final) && final.bodies == saved.bodies && final.checkpoint == saved.checkpoint
      && final.mailbox.rows == map u | u in saved.mailbox.rows && u in a.up.messages :: saved.mailbox.rows[u]
  {
    hide UpToSave, Perform, PerformAll, Stale, Ascend, Drops, SyncOnly;
    var saved := PerformAll(l, UpToSave(l, a));
    SavedState(l, a);
    PerformConcat(l, UpToSave(l, a), ReconcilePart(l, a));
    var uids := Stale(saved.mailbox, Uids(saved.mailbox), a.reply);
    DropsResult(saved, uids);
    forall u | u in saved.mailbox.rows ensures u in uids <==> u !in a.up.messages {
      StaleRows(saved, a, u);
    }
  }

  /** Nothing at or below the checkpoint in force is missing from the mailbox or differs in body. */
  ghost predicate CheckpointHonest(l: Local, a: Answers)
    requires SyncOnly(l)
  {
    EpochChanged(l, a.reported) ||
    forall u :: u in a.up.messages && u <= SavedLast(l) ==>
      u in l.mailbox.rows && Body(l, u) == a.up.messages[u].raw
  }

  /** One upstream message after a complete run: it is there if it was before or was past the
      checkpoint, its flags are right, and its body is new exactly past the checkpoint. */
  lemma FinalRow(l: Local, a: Answers, u: int)
    requires SyncOnly(l) && a.Valid() && u in a.up.messages
    ensures var base, final, last := Base(l, a.reported), PerformAll(l, Plan(l, a)), EffectiveLast(l, a.reported);
      && SyncOnly(base) && SyncOnly(final)
      && (u in final.mailbox.rows <==> u in base.mailbox.rows || u > last)
      && (u in final.mailbox.rows ==>
            && NormalizeFlags(final.mailbox.rows[u].flags) == NormalizeFlags(a.up.messages[u].flags)
            && Body(final, u) == if u > last then a.up.messages[u].raw else Body(base, u))
  {
    hide Base, Plan, UpToSave, Perform, PerformAll, NormalizeFlags, Fetched, EpochChanged;
    BaseResult(l, a.reported);
    FetchedState(l, a);
    SavedState(l, a);
    FinalState(l, a);
  }

  lemma FinalKeys(l: Local, a: Answers)
    requires SyncOnly(l) && a.Valid()
    ensures SyncOnly(PerformAll(l, Plan(l, a))) && PerformAll(l, Plan(l, a)).mailbox.rows.Keys <= a.up.messages.Keys
  {
    hide Plan, UpToSave, Perform, PerformAll, SyncOnly;
    FinalState(l, a);
  }

  /** A complete run mirrors upstream, whatever the order of the SEARCH reply, exactly when the
      checkpoint it started from was honest. */
  lemma RunMirrorsIff(l: Local, a: Answers)
    requires SyncOnly(l) && a.Valid()
    ensures SyncOnly(PerformAll(l, Plan(l, a)))
    ensures Mirrored(PerformAll(l, Plan(l, a)), a.up) <==> CheckpointHonest(l, a)
  {
    hide Base, Plan, PerformAll, NormalizeFlags, SyncOnly, Body;
    var final := PerformAll(l, Plan(l, a));
    BaseResult(l, a.reported);
    FinalKeys(l, a);
    forall u | u in a.up.messages
      ensures (u in final.mailbox.rows && Body(final, u) == a.up.messages[u].raw) <==>
        EpochChanged(l, a.reported) || u > SavedLast(l) || (u in l.mailbox.rows && Body(l, u) == a.up.messages[u].raw)
      ensures u in final.mailbox.rows ==> NormalizeFlags(final.mailbox.rows[u].flags) == NormalizeFlags(a.up.messages[u].flags)
    {
      FinalRow(l, a, u);
    }
    if forall u :: u in a.up.messages ==> u in final.mailbox.rows {
      assert final.mailbox.rows.Keys == a.up.messages.Keys;
    }
  }

  // ---------- histories ----------

  datatype World = World(up: Upstream, local: Local)

  /** `Sync` performs the first `writes` writes of its plan: fewer than all is a failed run. */
  datatype Event =
    | Arrive(uid: int, message: UpstreamMessage)
    | Vanish(uid: int)
    | Reflag(uid: int, flags: seq<string>)
    | NewEpoch(next: Upstream)
    | StoreLocally(uid: int, flags: seq<string>)
    | Sync(reply: seq<int>, highest: Option<int>, writes: nat)

  ghost predicate ValidUpstream(up: Upstream) {
    up.uidnext >= 1 && forall u :: u in up.messages ==> 1 <= u < up.uidnext
  }

  ghost function AnswersOf(w: World, e: Event): Answers
    requires e.Sync?
  {
    Answers(w.up, Some(w.up.uidvalidity), e.highest, e.reply)
  }

  /** UIDs ascend within an epoch and epochs carry growing UIDVALIDITY values (section 2.3.1.1
      of RFC 3501); a SEARCH reply lists every message, in any order, repeats allowed. */
  ghost predicate Possible(w: World, e: Event) {
    match e
    case Arrive(uid, _) => uid >= w.up.uidnext && uid >= 1
    case NewEpoch(next) => next.uidvalidity > w.up.uidvalidity && ValidUpstream(next)
    case Reflag(uid, _) => uid in w.up.messages
    case Sync(reply, _, writes) => AnswersOf(w, e).Valid() && writes <= |Plan(w.local, AnswersOf(w, e))|
    case _ => true
  }

  ghost function Next(w: World, e: Event): World
    requires Possible(w, e)
  {
    match e
    case Arrive(uid, m) => w.(up := w.up.(messages := w.up.messages[uid := m], uidnext := uid + 1))
    case Vanish(uid) => w.(up := w.up.(messages := w.up.messages - {uid}))
    case Reflag(uid, flags) =>
      w.(up := w.up.(messages := w.up.messages[uid := w.up.messages[uid].(flags := flags)]))
    case NewEpoch(next) => w.(up := next)
    case StoreLocally(uid, flags) => w.(local := w.local.(mailbox := SetFlags(w.local.mailbox, uid, flags)))
    case Sync(_, _, writes) => w.(local := PerformAll(w.local, Plan(w.local, AnswersOf(w, e))[..writes]))
  }

  /** What every reachable state satisfies: a checkpoint of the current epoch is behind
      `uidnext`, has every upstream message up to it in the mailbox, and mirrored bodies are right. */
  ghost predicate Inv(w: World) {
    && SyncOnly(w.local) && ValidUpstream(w.up)
    && (w.local.checkpoint.Some? ==>
          && SavedValidity(w.local).Some? && SavedValidity(w.local).value <= w.up.uidvalidity
          && (SavedValidity(w.local).value == w.up.uidvalidity ==> Current(w)))
  }

  ghost predicate Current(w: World)
    requires SyncOnly(w.local)
  {
    && SavedLast(w.local) < w.up.uidnext
    && (forall u :: u in w.up.messages && u <= SavedLast(w.local) ==> u in w.local.mailbox.rows)
    && (forall u :: u in w.local.mailbox.rows ==> u < w.up.uidnext)
    && (forall u :: u in w.local.mailbox.rows && u in w.up.messages ==> Body(w.local, u) == w.up.messages[u].raw)
  }

  lemma UpstreamStepKeepsInv(w: World, e: Event)
    requires Inv(w) && Possible(w, e) && !e.Sync?
    ensures Inv(Next(w, e))
  {
    var w' := Next(w, e);
    if e.StoreLocally? {
      forall u | u in w.local.mailbox.rows ensures Body(w'.local, u) == Body(w.local, u) {}
    } else {
      assert w'.local == w.local;
    }
  }

  // ---------- a run cut short ----------

  /** Writes of the UID loop never lose a row and only write bodies upstream has. */
  ghost predicate Gentle(w: Write, up: Upstream) {
    || w.WriteFlags?
    || (w.IngestRow? && w.uid in up.messages && w.uid >= 1 && w.raw == up.messages[w.uid].raw)
  }

  ghost predicate Grown(base: Local, l: Local, up: Upstream)
    requires SyncOnly(base)
  {
    && SyncOnly(l) && l.checkpoint == base.checkpoint
    && base.mailbox.rows.Keys <= l.mailbox.rows.Keys
    && forall u :: u in l.mailbox.rows ==>
         || (u in base.mailbox.rows && Body(l, u) == Body(base, u))
         || (u in up.messages && Body(l, u) == up.messages[u].raw)
  }

  lemma GentleStep(base: Local, l: Local, up: Upstream, w: Write)
    requires SyncOnly(base) && Grown(base, l, up) && Gentle(w, up)
    ensures Grown(base, Perform(l, w), up)
  {
    if w.IngestRow? {
      hide Perform;
      IngestEffect(l, w.uid, w.raw, w.flags);
    } else {
      var after := Perform(l, w);
      forall u | u in l.mailbox.rows ensures Body(after, u) == Body(l, u) {}
    }
  }

  lemma {:induction false} GentleAll(base: Local, l: Local, up: Upstream, ws: seq<Write>)
    requires SyncOnly(base) && Grown(base, l, up) && forall i :: 0 <= i < |ws| ==> Gentle(ws[i], up)
    ensures Grown(base, PerformAll(l, ws), up)
    decreases |ws|
  {
    hide Perform, Grown, Gentle;
    if ws != [] {
      GentleStep(base, l, up, ws[0]);
      GentleAll(base, Perform(l, ws[0]), up, ws[1..]);
    }
  }

  lemma {:induction false} LoopGentle(base: Local, up: Upstream, last: int, reply: seq<int>, n: nat)
    requires n <= |reply| && forall i :: 0 <= i < |reply| ==> reply[i] in up.messages && reply[i] >= 1
    ensures forall i :: 0 <= i < |LoopPlan(base, up, last, reply, n)| ==> Gentle(LoopPlan(base, up, last, reply, n)[i], up)
  {
    hide NormalizeFlags, LocalFor, Ascend;
    if n > 0 { LoopGentle(base, up, last, reply, n - 1); }
  }

  /** What a run is told, as upstream stands. */
  ghost predicate AsksNow(w: World, a: Answers) {
    a.Valid() && a.up == w.up && a.reported == Some(w.up.uidvalidity)
  }

  /** Up to the checkpoint write, the old checkpoint still describes the mailbox. */
  lemma CutInFetch(w: World, a: Answers, k: nat)
    requires Inv(w) && AsksNow(w, a) && k <= |FetchPart(w.local, a)|
    ensures Inv(w.(local := PerformAll(Base(w.local, a.reported), FetchPart(w.local, a)[..k])))
  {
    hide Perform, PerformAll, LoopPlan, NormalizeFlags;
    var base := Base(w.local, a.reported);
    BaseResult(w.local, a.reported);
    LoopGentle(base, a.up, EffectiveLast(w.local, a.reported), a.reply, |a.reply|);
    GentleAll(base, base, a.up, FetchPart(w.local, a)[..k]);
  }

  lemma CutInClear(w: World, a: Answers, k: nat)
    requires Inv(w) && AsksNow(w, a) && k <= |ClearPlan(w.local, a.reported)|
    ensures Inv(w.(local := PerformAll(w.local, ClearPlan(w.local, a.reported)[..k])))
  {
    hide Perform;
    var plan := ClearPlan(w.local, a.reported);
    if EpochChanged(w.local, a.reported) {
      var uids := Synced(w.local.mailbox, Uids(w.local.mailbox));
      assert plan[..k] == Drops(uids[..k]);
      DropsResult(w.local, uids[..k]);
    } else {
      assert plan[..k] == [];
    }
  }

  lemma {:induction false} NewestBound(reply: seq<int>, last: int, n: nat, limit: int)
    requires n <= |reply| && last < limit && forall i :: 0 <= i < |reply| ==> reply[i] < limit
    ensures Newest(reply, last, n) < limit
  {
    if n > 0 { NewestBound(reply, last, n - 1, limit); }
  }

  /** The checkpoint a run starts from is behind `uidnext`. */
  lemma LastBound(w: World, a: Answers)
    requires Inv(w) && AsksNow(w, a)
    ensures EffectiveLast(w.local, a.reported) < w.up.uidnext
    ensures Newest(a.reply, EffectiveLast(w.local, a.reported), |a.reply|) < w.up.uidnext
  {
    hide Newest, Body;
    NewestBound(a.reply, EffectiveLast(w.local, a.reported), |a.reply|, w.up.uidnext);
  }

  /** Once the UID loop is through, the mailbox has every upstream message, nothing beyond
      `uidnext`, and the right bodies. */
  lemma FetchedRows(w: World, a: Answers, u: int)
    requires Inv(w) && AsksNow(w, a)
    ensures SyncOnly(Fetched(w.local, a))
    ensures u in w.up.messages ==> u in Fetched(w.local, a).mailbox.rows
    ensures u in Fetched(w.local, a).mailbox.rows ==> u < w.up.uidnext
    ensures u in Fetched(w.local, a).mailbox.rows && u in w.up.messages ==> Body(Fetched(w.local, a), u) == w.up.messages[u].raw
  {
    hide Fetched, Base, Body, NormalizeFlags;
    BaseResult(w.local, a.reported);
    FetchedState(w.local, a);
  }

  /** The mailbox at the moment the new checkpoint is written. */
  lemma SavedIsCurrent(w: World, a: Answers, saved: Local)
    requires Inv(w) && AsksNow(w, a)
    requires SyncOnly(saved) && saved.bodies == Fetched(w.local, a).bodies
    requires saved.checkpoint == Some(Checkpoint(a.reported, Newest(a.reply, EffectiveLast(w.local, a.reported), |a.reply|)))
    requires saved.mailbox.rows.Keys <= Fetched(w.local, a).mailbox.rows.Keys
    requires forall u :: u in saved.mailbox.rows ==> saved.mailbox.rows[u] == Fetched(w.local, a).mailbox.rows[u]
    requires forall u :: u in Fetched(w.local, a).mailbox.rows && u in a.up.messages ==> u in saved.mailbox.rows
    ensures Inv(w.(local := saved))
  {
    hide Fetched, Newest, SyncOnly;
    LastBound(w, a);
    forall u
      ensures u in w.up.messages ==> u in saved.mailbox.rows
      ensures u in saved.mailbox.rows ==> u < w.up.uidnext
      ensures u in saved.mailbox.rows && u in w.up.messages ==> Body(saved, u) == w.up.messages[u].raw
    {
      FetchedRows(w, a, u);
    }
  }

  lemma CutInSave(w: World, a: Answers, k: nat)
    requires Inv(w) && AsksNow(w, a) && k <= 2
    ensures Inv(w.(local := PerformAll(Fetched(w.local, a), SavePart(w.local, a)[..k])))
  {
    hide FetchPart, Newest, Perform, PerformAll;
    var fetched, saves := Fetched(w.local, a), SavePart(w.local, a);
    FetchedState(w.local, a);
    if k == 0 {
      assert saves[..0] == [];
      CutInFetch(w, a, |FetchPart(w.local, a)|);
      assert FetchPart(w.local, a)[..|FetchPart(w.local, a)|] == FetchPart(w.local, a);
      NoWrites(fetched);
    } else {
      CheckpointEffect(w.local, fetched, a, k);
      SavedIsCurrent(w, a, PerformAll(fetched, saves[..k]));
    }
  }

  lemma NoWrites(l: Local)
    ensures PerformAll(l, []) == l
  {}

  lemma CheckpointEffect(l: Local, fetched: Local, a: Answers, k: nat)
    requires 1 <= k <= 2
    ensures var saved := PerformAll(fetched, SavePart(l, a)[..k]);
      && saved.mailbox.rows == fetched.mailbox.rows && saved.bodies == fetched.bodies && saved.nextId == fetched.nextId
      && saved.checkpoint == Some(Checkpoint(a.reported, Newest(a.reply, EffectiveLast(l, a.reported), |a.reply|)))
  {
    hide EpochChanged, Newest;
    var saves := SavePart(l, a);
    if k == 2 {
      assert saves[..2] == saves;
      SaveEffect(l, fetched, a);
    } else {
      PerformSnoc(fetched, [], saves[0]);
      assert saves[..1] == [] + [saves[0]];
    }
  }

  lemma CutInReconcile(w: World, a: Answers, k: nat)
    requires Inv(w) && AsksNow(w, a) && k <= |ReconcilePart(w.local, a)|
    ensures Inv(w.(local := PerformAll(PerformAll(w.local, UpToSave(w.local, a)), ReconcilePart(w.local, a)[..k])))
  {
    hide UpToSave, Perform, PerformAll, Stale, Ascend, LoopPlan, FetchPart;
    var saved := PerformAll(w.local, UpToSave(w.local, a));
    SavedState(w.local, a);
    var uids := Stale(saved.mailbox, Uids(saved.mailbox), a.reply);
    assert ReconcilePart(w.local, a)[..k] == Drops(uids[..k]);
    DropsResult(saved, uids[..k]);
    var after := PerformAll(saved, Drops(uids[..k]));
    forall u | u in saved.mailbox.rows && u in a.up.messages ensures u in after.mailbox.rows {
      StaleRows(saved, a, u);
      assert u !in uids[..k];
    }
    SavedIsCurrent(w, a, after);
  }

  /** Wherever a run stops, the invariant holds. */
  lemma SyncKeepsInv(w: World, e: Event)
    requires Inv(w) && e.Sync? && Possible(w, e)
    ensures Inv(Next(w, e))
  {
    hide Inv, Perform, PerformAll, ClearPlan, FetchPart, ReconcilePart, SavePart;
    var a, k := AnswersOf(w, e), e.writes;
    var clear, fetch, save, drop :=
      ClearPlan(w.local, a.reported), FetchPart(w.local, a), SavePart(w.local, a), ReconcilePart(w.local, a);
    var plan := Plan(w.local, a);
    assert plan == clear + fetch + save + drop;
    TwoSaves(w.local, a);
    if k <= |clear| {
      CutInClear(w, a, k);
      assert plan[..k] == clear[..k];
    } else if k <= |clear| + |fetch| {
      var i := k - |clear|;
      CutInFetch(w, a, i);
      assert plan[..k] == clear + fetch[..i];
      PerformConcat(w.local, clear, fetch[..i]);
    } else if k <= |clear| + |fetch| + 2 {
      var i := k - |clear| - |fetch|;
      CutInSave(w, a, i);
      assert plan[..k] == clear + fetch + save[..i];
      PerformConcat(w.local, clear, fetch);
      PerformConcat(w.local, clear + fetch, save[..i]);
    } else {
      var i := k - |clear| - |fetch| - 2;
      CutInReconcile(w, a, i);
      assert plan[..k] == clear + fetch + save + drop[..i];
      PerformConcat(w.local, clear + fetch + save, drop[..i]);
    }
  }

  lemma TwoSaves(l: Local, a: Answers)
    ensures |SavePart(l, a)| == 2
  {}

  // ---------- whole histories ----------

  ghost predicate History(w: World, es: seq<Event>)
    decreases |es|
  {
    es == [] || (Possible(w, es[0]) && History(Next(w, es[0]), es[1..]))
  }

  ghost function After(w: World, es: seq<Event>): World
    requires History(w, es)
    decreases |es|
  {
    if es == [] then w else After(Next(w, es[0]), es[1..])
  }

  lemma {:induction false} HistoryKeepsInv(w: World, es: seq<Event>)
    requires Inv(w) && History(w, es)
    ensures Inv(After(w, es))
    decreases |es|
  {
    hide Inv, Next, Possible;
    if es != [] {
      if es[0].Sync? { SyncKeepsInv(w, es[0]); } else { UpstreamStepKeepsInv(w, es[0]); }
      HistoryKeepsInv(Next(w, es[0]), es[1..]);
    }
  }

  /** An account's first contact with a mailbox. */
  ghost predicate Fresh(w: World) {
    ValidUpstream(w.up) && w.local.mailbox.rows == map[] && w.local.bodies == map[] && w.local.checkpoint == None
  }

  /** After any history at all, a run that completes leaves the mailbox equal to upstream. */
  lemma EverySuccessfulRunMirrors(w: World, es: seq<Event>, run: Event)
    requires Fresh(w) && History(w, es) && run.Sync? && Possible(After(w, es), run)
    requires run.writes == |Plan(After(w, es).local, AnswersOf(After(w, es), run))|
    ensures var final := Next(After(w, es), run);
      SyncOnly(final.local) && Mirrored(final.local, final.up)
  {
    hide Plan, Perform, PerformAll, NormalizeFlags, Mirrored;
    HistoryKeepsInv(w, es);
    var before := After(w, es);
    var a := AnswersOf(before, run);
    assert Plan(before.local, a)[..run.writes] == Plan(before.local, a);
    RunMirrorsIff(before.local, a);
  }

  // ---------- rows deleted locally ----------

  /** The row of a UID at or below the checkpoint is gone, and the checkpoint is of this epoch. */
  ghost predicate GoneBehind(l: Local, uid: int, validity: int, last: int) {
    l.checkpoint.Some? && SavedValidity(l) == Some(validity) && uid <= last <= SavedLast(l) && uid !in l.mailbox.rows
  }

  /** A write that keeps the epoch and the checkpoint's progress and ingests past it only. */
  ghost predicate Onward(w: Write, validity: int, last: int) {
    match w
    case IngestRow(uid, _, _) => uid > last && uid >= 1
    case SaveCheckpoint(cp) => cp.uidvalidity == Some(validity) && cp.lastUid >= last
    case _ => true
  }

  ghost predicate AllOnward(ws: seq<Write>, validity: int, last: int) {
    forall i :: 0 <= i < |ws| ==> Onward(ws[i], validity, last)
  }

  lemma OnwardConcat(a: seq<Write>, b: seq<Write>, validity: int, last: int)
    requires AllOnward(a, validity, last) && AllOnward(b, validity, last)
    ensures AllOnward(a + b, validity, last)
  {
    hide Onward;
  }

  lemma {:induction false} OnwardKeepsGone(l: Local, ws: seq<Write>, uid: int, validity: int, last: int)
    requires GoneBehind(l, uid, validity, last) && AllOnward(ws, validity, last)
    ensures GoneBehind(PerformAll(l, ws), uid, validity, last)
    decreases |ws|
  {
    if ws != [] { OnwardKeepsGone(Perform(l, ws[0]), ws[1..], uid, validity, last); }
  }

  lemma {:induction false} LoopOnward(base: Local, up: Upstream, last: int, reply: seq<int>, n: nat, validity: int)
    requires n <= |reply| && forall i :: 0 <= i < |reply| ==> reply[i] in up.messages && reply[i] >= 1
    ensures AllOnward(LoopPlan(base, up, last, reply, n), validity, last)
  {
    hide NormalizeFlags, LocalFor, Ascend;
    if n > 0 {
      LoopOnward(base, up, last, reply, n - 1, validity);
      var flags, fetch := FlagPlan(base, up, reply[n - 1]), FetchPlan(up, last, reply[n - 1]);
      OnwardConcat(flags, fetch, validity, last);
      OnwardConcat(LoopPlan(base, up, last, reply, n - 1), flags + fetch, validity, last);
    }
  }

  lemma {:induction false} NewestForward(reply: seq<int>, last: int, n: nat)
    requires n <= |reply|
    ensures Newest(reply, last, n) >= last
  {
    if n > 0 { NewestForward(reply, last, n - 1); }
  }

  lemma PlanOnward(l: Local, a: Answers, validity: int)
    requires a.Valid() && a.reported == Some(validity) && SavedValidity(l) == Some(validity)
    ensures AllOnward(Plan(l, a), validity, SavedLast(l))
  {
    hide LoopPlan, Newest, PerformAll, Stale, Ascend;
    var last := SavedLast(l);
    LoopOnward(Base(l, a.reported), a.up, last, a.reply, |a.reply|, validity);
    NewestForward(a.reply, last, |a.reply|);
    var clear, fetch, save, drops := ClearPlan(l, a.reported), FetchPart(l, a), SavePart(l, a), ReconcilePart(l, a);
    assert AllOnward(clear, validity, last) && AllOnward(save, validity, last) && AllOnward(drops, validity, last);
    OnwardConcat(clear, fetch, validity, last);
    OnwardConcat(clear + fetch, save, validity, last);
    OnwardConcat(clear + fetch + save, drops, validity, last);
  }

  /** No event of the same epoch brings the row back, a run cut short at any write included. */
  lemma StepKeepsGone(w: World, e: Event, uid: int)
    requires Possible(w, e) && !e.NewEpoch? && GoneBehind(w.local, uid, w.up.uidvalidity, uid)
    ensures Next(w, e).up.uidvalidity == w.up.uidvalidity
    ensures GoneBehind(Next(w, e).local, uid, w.up.uidvalidity, uid)
  {
    if e.Sync? {
      hide Plan, PerformAll, Onward;
      var a := AnswersOf(w, e);
      var last := SavedLast(w.local);
      PlanOnward(w.local, a, w.up.uidvalidity);
      OnwardKeepsGone(w.local, Plan(w.local, a)[..e.writes], uid, w.up.uidvalidity, last);
    }
  }

  lemma {:induction false} HistoryKeepsGone(w: World, es: seq<Event>, uid: int)
    requires History(w, es) && (forall i :: 0 <= i < |es| ==> !es[i].NewEpoch?)
    requires GoneBehind(w.local, uid, w.up.uidvalidity, uid)
    ensures GoneBehind(After(w, es).local, uid, w.up.uidvalidity, uid)
    decreases |es|
  {
    hide Possible, Next, GoneBehind;
    if es != [] {
      StepKeepsGone(w, es[0], uid);
      HistoryKeepsGone(Next(w, es[0]), es[1..], uid);
    }
  }

  ghost function DeletedLocally(w: World, uid: int): World {
    w.(local := w.local.(mailbox := Delete(w.local.mailbox, uid)))
  }

  /** A message deleted locally at or below the checkpoint stays missing through every later
      history of the epoch, whatever runs complete or fail: a sync never heals the mailbox while
      upstream still has the message. */
  lemma LocalDeleteIsNotHealed(w: World, uid: int, es: seq<Event>)
    requires w.local.checkpoint.Some? && SavedValidity(w.local) == Some(w.up.uidvalidity) && uid <= SavedLast(w.local)
    requires History(DeletedLocally(w, uid), es) && forall i :: 0 <= i < |es| ==> !es[i].NewEpoch?
    ensures var final := After(DeletedLocally(w, uid), es);
      && uid !in final.local.mailbox.rows
      && (SyncOnly(final.local) && uid in final.up.messages ==> !Mirrored(final.local, final.up))
  {
    hide Mirrored;
    HistoryKeepsGone(DeletedLocally(w, uid), es, uid);
    var final := After(DeletedLocally(w, uid), es);
    if SyncOnly(final.local) && uid in final.up.messages { MissingRow(final.local, final.up, uid); }
  }

  lemma MissingRow(l: Local, up: Upstream, uid: int)
    requires SyncOnly(l) && uid !in l.mailbox.rows && uid in up.messages
    ensures !Mirrored(l, up)
  {
    hide NormalizeFlags;
  }

  /** A new epoch heals: its first complete run mirrors upstream whatever was deleted before. */
  lemma NewEpochHeals(l: Local, a: Answers)
    requires SyncOnly(l) && a.Valid() && EpochChanged(l, a.reported)
    ensures SyncOnly(PerformAll(l, Plan(l, a))) && Mirrored(PerformAll(l, Plan(l, a)), a.up)
  {
    hide Plan, PerformAll, Mirrored;
    RunMirrorsIff(l, a);
  }

  /** An upstream that reports no UIDVALIDITY makes a complete run drop nothing but the rows
      upstream no longer lists, and refetch nothing at or below the checkpoint. */
  lemma SilentUpstreamKeepsRows(l: Local, a: Answers, u: int)
    requires SyncOnly(l) && a.Valid() && a.reported == None
    requires u in l.mailbox.rows && u in a.up.messages && u <= SavedLast(l)
    ensures var final := PerformAll(l, Plan(l, a));
      SyncOnly(final) && u in final.mailbox.rows && Body(final, u) == Body(l, u)
  {
    hide Plan, PerformAll, Base, NormalizeFlags;
    BaseResult(l, a.reported);
    FinalRow(l, a, u);
  }
}
