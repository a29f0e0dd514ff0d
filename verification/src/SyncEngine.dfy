/**
 `sync_mailbox_inner` and its helpers (crates/sync/src/lib.rs) as imperative code over the
 local state.  Every network or database step may fail, at any point; `budget` counts the
 steps that still succeed.
 */
module SyncEngine {
  import opened Wrappers
  import opened MailboxStore
  import opened Mirror

  class Engine {
    var local: Local
    var budget: nat

    constructor (local: Local, budget: nat)
      ensures this.local == local && this.budget == budget
    {
      this.local, this.budget := local, budget;
    }

    /** A read, or a write that changes nothing modelled here. */
    method Step() returns (ok: bool)
      modifies this`budget
      ensures ok <==> old(budget) > 0
      ensures budget == if ok then old(budget) - 1 else 0
    {
      ok := budget > 0;
      if ok { budget := budget - 1; }
    }

    method Store(w: Write) returns (ok: bool)
      modifies this
      ensures ok <==> old(budget) > 0
      ensures budget == if ok then old(budget) - 1 else 0
      ensures local == if ok then Perform(old(local), w) else old(local)
    {
      ok := budget > 0;
      if ok {
        budget := budget - 1;
        match w
        case DropRow(uid) => local := local.(mailbox := Delete(local.mailbox, uid));
        case WriteFlags(uid, flags) => local := local.(mailbox := SetFlags(local.mailbox, uid, flags));
        case IngestRow(uid, raw, flags) =>
          var id := local.nextId;
          local := local.(bodies := local.bodies[id := raw], nextId := id + 1);
          local := local.(mailbox := Upsert(local.mailbox, uid, id, Some(uid), None, flags, []));
        case SaveCheckpoint(cp) => local := local.(checkpoint := Some(cp));
        case SaveMetadata(highest) =>
          if highest.Some? { local := local.(mailbox := local.mailbox.(highest := highest)); }
      }
    }

    /** The deletion loop shared by clearing and reconciling. */
    method DropAll(uids: seq<int>) returns (ok: bool, ghost done: seq<Write>)
      modifies this
      ensures done <= Drops(uids) && local == PerformAll(old(local), done)
      ensures ok <==> old(budget) >= |uids|
      ensures ok ==> done == Drops(uids) && budget == old(budget) - |uids|
    {
      done := [];
      for i := 0 to |uids|
        invariant done == Drops(uids)[..i] && local == PerformAll(old(local), done)
        invariant budget == old(budget) - i
      {
        ok := Store(DropRow(uids[i]));
        if !ok { return; }
        PerformSnoc(old(local), done, DropRow(uids[i]));
        done := done + [DropRow(uids[i])];
      }
      ok := true;
    }

    /** The UID loop: reconcile flags of known messages, ingest those past the checkpoint. */
    method FetchAll(a: Answers, base: Local, last: int)
      returns (ok: bool, synced: nat, newest: Option<int>, ghost done: seq<Write>)
      requires a.Valid() && local == base
      modifies this
      ensures done <= LoopPlan(base, a.up, last, a.reply, |a.reply|) && local == PerformAll(base, done)
      ensures ok <==> old(budget) >= LoopCost(base, a.up, last, a.reply, |a.reply|)
      ensures ok ==> budget == old(budget) - LoopCost(base, a.up, last, a.reply, |a.reply|)
      ensures ok ==> done == LoopPlan(base, a.up, last, a.reply, |a.reply|)
      ensures ok ==> synced == Ingested(a.reply, last, |a.reply|)
      ensures ok ==> newest.GetOr(last) == Newest(a.reply, last, |a.reply|)
    {
      hide UidPlan, UidCost, Perform;
      done, synced, newest := [], 0, None;
      var i := 0;
      while i < |a.reply|
        invariant 0 <= i <= |a.reply|
        invariant done == LoopPlan(base, a.up, last, a.reply, i) && local == PerformAll(base, done)
        invariant synced == Ingested(a.reply, last, i) && newest.GetOr(last) == Newest(a.reply, last, i)
        invariant budget == old(budget) - LoopCost(base, a.up, last, a.reply, i)
      {
        var uid := a.reply[i];
        LoopPrefix(base, a.up, last, a.reply, i + 1);
        ghost var step;
        ok, step := FetchOne(a, base, last, uid);
        PerformConcat(base, done, step);
        done := done + step;
        if !ok { return; }
        if uid > last {
          synced := synced + 1;
          newest := Some(uid);
        }
        i := i + 1;
      }
      ok := true;
    }

    method FetchOne(a: Answers, base: Local, last: int, uid: int) returns (ok: bool, ghost done: seq<Write>)
      requires uid in a.up.messages
      modifies this
      ensures done <= UidPlan(base, a.up, last, uid) && local == PerformAll(old(local), done)
      ensures ok <==> old(budget) >= UidCost(base, a.up, last, uid)
      ensures ok ==> budget == old(budget) - UidCost(base, a.up, last, uid)
      ensures ok ==> done == UidPlan(base, a.up, last, uid)
    {
      done := [];
      ok := Step();
      if !ok { return; }
      var fetched := NormalizeFlags(a.up.messages[uid].flags);
      var row := LocalFor(base.mailbox, Uids(base.mailbox), uid);
      if row.Some? && NormalizeFlags(base.mailbox.rows[row.value].flags) != fetched {
        ok := Store(WriteFlags(row.value, fetched));
        if !ok { return; }
        PerformSnoc(old(local), done, WriteFlags(row.value, fetched));
        done := done + [WriteFlags(row.value, fetched)];
      }
      assert done == FlagPlan(base, a.up, uid);
      assert local == PerformAll(old(local), done);
      if uid <= last {
        return;
      }
      ok := Step();
      if !ok { return; }
      ghost var w := IngestRow(uid, a.up.messages[uid].raw, fetched);
      ok := Store(IngestRow(uid, a.up.messages[uid].raw, fetched));
      if !ok { return; }
      PerformSnoc(old(local), done, w);
      done := done + [w];
    }

    /** `clear_synced_mailbox_messages`, on a new UIDVALIDITY only. */
    method ClearIfChanged(reported: Option<int>) returns (ok: bool, ghost done: seq<Write>)
      modifies this
      ensures var plan, listing := ClearPlan(old(local), reported), if EpochChanged(old(local), reported) then 1 else 0;
        && done <= plan && local == PerformAll(old(local), done)
        && (ok <==> old(budget) >= |plan| + listing)
        && (ok ==> done == plan && budget == old(budget) - |plan| - listing)
    {
      ok, done := true, [];
      if EpochChanged(local, reported) {
        ok := Step();
        if !ok { return; }
        ok, done := DropAll(Synced(local.mailbox, Uids(local.mailbox)));
      }
    }

    /** Checkpoint, metadata, then `reconcile_missing_upstream_messages_with_set` and the recount. */
    method SaveAndReconcile(a: Answers, checkpoint: Checkpoint) returns (ok: bool, ghost done: seq<Write>)
      modifies this
      ensures var saves := [SaveCheckpoint(checkpoint), SaveMetadata(a.highest)];
        var saved := PerformAll(old(local), saves).mailbox;
        var drops := Drops(Stale(saved, Uids(saved), a.reply));
        && done <= saves + drops && local == PerformAll(old(local), done)
        && (ok <==> old(budget) >= |drops| + 4)
        && (ok ==> done == saves + drops)
    {
      hide Perform, Stale, Ascend;
      ghost var start := local;
      ghost var saves := [SaveCheckpoint(checkpoint), SaveMetadata(a.highest)];
      done := [];
      ok := Store(SaveCheckpoint(checkpoint));
      if !ok { return; }
      PerformSnoc(start, done, SaveCheckpoint(checkpoint));
      done := done + [SaveCheckpoint(checkpoint)];
      ok := Store(SaveMetadata(a.highest));
      if !ok { return; }
      PerformSnoc(start, done, SaveMetadata(a.highest));
      done := done + [SaveMetadata(a.highest)];
      assert done == saves;
      ok := Step();
      if !ok { return; }
      ghost var drops;
      ok, drops := DropAll(Stale(local.mailbox, Uids(local.mailbox), a.reply));
      PerformConcat(start, saves, drops);
      done := saves + drops;
      if !ok { return; }
      ok := Step();
    }

    /** A run performs a prefix of its plan, all of it exactly when no step fails. */
    method SyncMailbox(a: Answers) returns (synced: Option<nat>, ghost done: seq<Write>)
      requires a.Valid()
      modifies this
      ensures done <= Plan(old(local), a) && local == PerformAll(old(local), done)
      ensures synced.Some? <==> old(budget) >= Cost(old(local), a)
      ensures synced.Some? ==> done == Plan(old(local), a)
      ensures synced.Some? ==> synced.value == IngestCount(done)
    {
      hide LoopPlan, LoopCost, Perform, PerformAll, Stale, Synced, Ascend, Newest, Ingested, IngestCount;
      ghost var start := local;
      var last := EffectiveLast(local, a.reported);
      synced, done := None, [];
      PlanParts(start, a);
      PlanIngests(start, a);
      var ok := Step();
      if ok { ok := Step(); }
      if !ok { return; }
      ok, done := ClearIfChanged(a.reported);
      if !ok { return; }
      ok := Step();
      if ok { ok := Step(); }
      if !ok { return; }
      ghost var part;
      var count, newest;
      ok, count, newest, part := FetchAll(a, local, last);
      PerformConcat(start, done, part);
      done := done + part;
      if !ok { return; }
      ok, part := SaveAndReconcile(a, Checkpoint(a.reported, newest.GetOr(last)));
      PerformConcat(start, done, SavePart(start, a));
      PerformConcat(start, done, part);
      done := done + part;
      if !ok { return; }
      synced := Some(count);
    }
  }

  /** A longer part of the loop extends the plan and costs no less. */
  lemma {:induction false} LoopPrefix(base: Local, up: Upstream, last: int, reply: seq<int>, n: nat)
    requires n <= |reply| && forall i :: 0 <= i < |reply| ==> reply[i] in up.messages
    ensures LoopPlan(base, up, last, reply, n) <= LoopPlan(base, up, last, reply, |reply|)
    ensures LoopCost(base, up, last, reply, n) <= LoopCost(base, up, last, reply, |reply|)
    decreases |reply| - n
  {
    hide UidPlan, UidCost;
    if n < |reply| { LoopPrefix(base, up, last, reply, n + 1); }
  }

  lemma PlanParts(l: Local, a: Answers)
    requires a.Valid()
    ensures PerformAll(l, []) == l
    ensures Plan(l, a) == ClearPlan(l, a.reported) + FetchPart(l, a) + (SavePart(l, a) + ReconcilePart(l, a))
  {
    hide LoopPlan, Perform, Stale, Synced, Ascend, Newest;
  }
}
