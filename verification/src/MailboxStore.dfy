/**
 One mailbox of the local store: its live rows keyed by local UID and its modification
 counter, with the effect of each repository transaction on it
 (crates/db/src/repository.rs).  Rows are physically deleted, so every stored row is live.
 */
module MailboxStore {
  import opened Wrappers
  import opened Ordering
  import opened Text

  datatype Row = Row(messageId: int, upstreamUid: Option<int>, modseq: int,
                     flags: seq<string>, keywords: seq<string>)

  datatype Mailbox = Mailbox(account: int, highest: Option<int>, rows: map<int, Row>) {
    function Counter(): int { highest.GetOr(0) }
  }

  // ---------- counters and identifiers ----------

  function SaturatingSucc(n: int): int { if n < I64_MAX then n + 1 else I64_MAX }

  /** Returns the mailbox with its counter moved on, and the modseq to store. */
  function AssignModseq(mb: Mailbox, requested: Option<int>): (r: (Mailbox, int))
    ensures r.1 == r.0.Counter() >= mb.Counter()
    ensures requested.Some? ==> r.1 == requested.value || (r.1 == mb.Counter() && requested.value <= r.1)
    ensures r.0 == mb.(highest := r.0.highest)
  {
    var current := mb.Counter();
    var wanted := if requested.Some? then requested.value else SaturatingSucc(current);
    var next := if wanted > current then wanted else current;
    (if next != current then mb.(highest := Some(next)) else mb, next)
  }

  lemma {:induction false} HasLeast(s: set<int>)
    requires s != {}
    ensures exists m :: m in s && forall x :: x in s ==> m <= x
    decreases s
  {
    assert exists y :: y in s by {
      if forall y :: y !in s {}
    }
    var y :| y in s;
    var rest := s - {y};
    if rest == {} {
      assert s == {y};
    } else {
      HasLeast(rest);
      var m :| m in rest && forall x :: x in rest ==> m <= x;
      var least := if y < m then y else m;
      forall x | x in s ensures least <= x {
        assert x == y || x in rest;
      }
    }
  }

  function Least(s: set<int>): (m: int)
    requires s != {}
    ensures m in s && forall x :: x in s ==> m <= x
  {
    HasLeast(s);
    var m :| m in s && forall x :: x in s ==> m <= x;
    m
  }

  /** A finite set of UIDs in `ORDER BY local_uid ASC` order. */
  function Ascend(s: set<int>): seq<int> {
    if s == {} then [] else [Least(s)] + Ascend(s - {Least(s)})
  }

  lemma {:induction false} AscendSpec(s: set<int>)
    ensures forall x :: x in Ascend(s) <==> x in s
    ensures Ascending(IntLess, Ascend(s))
  {
    if s != {} {
      var rest := Ascend(s - {Least(s)});
      AscendSpec(s - {Least(s)});
      forall k | 0 <= k < |rest| ensures Least(s) < rest[k] {
        assert rest[k] in rest;
      }
    }
  }

  function Uids(mb: Mailbox): seq<int> { Ascend(mb.rows.Keys) }

  /** `MAX(local_uid)`, or 0 for an empty mailbox. */
  function MaxUid(mb: Mailbox): (max: int)
    ensures mb.rows == map[] ==> max == 0
    ensures mb.rows != map[] ==> max in mb.rows
    ensures forall u :: u in mb.rows ==> u <= max
  {
    var uids := Uids(mb);
    AscendSpec(mb.rows.Keys);
    if uids == [] then
      assert forall u :: u in mb.rows ==> u in uids;
      0
    else
      assert uids[|uids| - 1] in uids;
      assert forall u :: u in mb.rows ==> u in uids;
      uids[|uids| - 1]
  }

  /** `MAX(local_uid) + 1`, or 1 for an empty mailbox. */
  function NextUid(mb: Mailbox): (uid: int)
    ensures uid !in mb.rows && forall u :: u in mb.rows ==> u < uid
    ensures if mb.rows == map[] then uid == 1 else uid - 1 in mb.rows
  {
    MaxUid(mb) + 1
  }

  /** One more than the number of rows before `uid`. */
  function SequenceNumber(mb: Mailbox, uid: int): int {
    |set u | u in mb.rows && u < uid| + 1
  }

  // ---------- transactions ----------

  /** `upsert_mailbox_message`: a requested UID of 0 asks for the next free one; an occupied
      UID is overwritten. */
  function UpsertUid(mb: Mailbox, requestedUid: int): int {
    if requestedUid == 0 then NextUid(mb) else requestedUid
  }

  function Upsert(mb: Mailbox, requestedUid: int, messageId: int, upstreamUid: Option<int>,
                  requestedModseq: Option<int>, flags: seq<string>, keywords: seq<string>): Mailbox
  {
    var uid := UpsertUid(mb, requestedUid);
    var (counted, modseq) := AssignModseq(mb, requestedModseq);
    counted.(rows := counted.rows[uid := Row(messageId, upstreamUid, modseq, flags, keywords)])
  }

  /** `update_mailbox_message_flags`: the counter moves even when no row matches. */
  function SetFlags(mb: Mailbox, uid: int, flags: seq<string>): Mailbox {
    var (counted, modseq) := AssignModseq(mb, None);
    if uid in mb.rows
    then counted.(rows := counted.rows[uid := mb.rows[uid].(flags := flags, modseq := modseq)])
    else counted
  }

  /** The destination side of `copy_mailbox_message`: the copy has no upstream UID. */
  function CopyIn(mb: Mailbox, source: Row): Mailbox {
    Upsert(mb, 0, source.messageId, None, None, source.flags, source.keywords)
  }

  /** `delete_mailbox_message`: nothing happens, counter included, when no row matches. */
  function Delete(mb: Mailbox, uid: int): Mailbox {
    if uid in mb.rows
    then var (counted, _) := AssignModseq(mb, None); counted.(rows := counted.rows - {uid})
    else mb
  }

  /** Every row but the given one is as before. */
  ghost predicate OthersStay(mb: Mailbox, after: Mailbox, uid: int) {
    && after.account == mb.account
    && forall u :: u != uid ==> (u in after.rows <==> u in mb.rows) && (u in mb.rows ==> after.rows[u] == mb.rows[u])
  }

  /** An upserted row holds what was given and the counter's new value, under the UID asked for or,
      for 0, one more than the largest. */
  lemma UpsertWrites(mb: Mailbox, requested: int, messageId: int, upstreamUid: Option<int>, modseq: Option<int>,
                     flags: seq<string>, keywords: seq<string>)
    ensures var uid, after := UpsertUid(mb, requested), Upsert(mb, requested, messageId, upstreamUid, modseq, flags, keywords);
      && (if requested != 0 then uid == requested else if mb.rows == map[] then uid == 1 else uid !in mb.rows && uid - 1 in mb.rows)
      && uid in after.rows && OthersStay(mb, after, uid) && after.Counter() >= mb.Counter()
      && after.rows[uid].messageId == messageId && after.rows[uid].upstreamUid == upstreamUid
      && after.rows[uid].flags == flags && after.rows[uid].keywords == keywords && after.rows[uid].modseq == after.Counter()
  {}

  /** New flags leave the row's message, keywords and upstream UID alone. */
  lemma FlagsWrite(mb: Mailbox, uid: int, flags: seq<string>)
    requires uid in mb.rows
    ensures var after := SetFlags(mb, uid, flags);
      && uid in after.rows && OthersStay(mb, after, uid)
      && after.rows[uid].flags == flags && after.rows[uid].modseq == after.Counter() >= mb.Counter()
      && after.rows[uid].messageId == mb.rows[uid].messageId && after.rows[uid].keywords == mb.rows[uid].keywords
      && after.rows[uid].upstreamUid == mb.rows[uid].upstreamUid
  {}

  /** A copy shows the same message with the same flags and keywords, above every row, and knows no
      upstream UID. */
  lemma CopyKeeps(mb: Mailbox, source: Row)
    ensures var uid, after := NextUid(mb), CopyIn(mb, source);
      && uid in after.rows && OthersStay(mb, after, uid) && (forall u :: u in mb.rows ==> u < uid)
      && after.rows[uid].messageId == source.messageId && after.rows[uid].upstreamUid == None
      && after.rows[uid].flags == source.flags && after.rows[uid].keywords == source.keywords
  {}

  datatype Change =
    | Put(uid: int, messageId: int, upstreamUid: Option<int>, flags: seq<string>, keywords: seq<string>)
    | Copied(source: Row)
    | Flagged(uid: int, flags: seq<string>)
    | Removed(uid: int)

  function Apply(mb: Mailbox, c: Change): Mailbox {
    match c
    case Put(uid, messageId, upstreamUid, flags, keywords) =>
      Upsert(mb, uid, messageId, upstreamUid, None, flags, keywords)
    case Copied(source) => CopyIn(mb, source)
    case Flagged(uid, flags) => SetFlags(mb, uid, flags)
    case Removed(uid) => Delete(mb, uid)
  }

  function Run(mb: Mailbox, cs: seq<Change>): Mailbox
    decreases |cs|
  {
    if cs == [] then mb else Run(Apply(mb, cs[0]), cs[1..])
  }

  // ---------- positions ----------

  function RemoveAt<T>(s: seq<T>, k: nat): seq<T>
    requires k < |s|
  {
    s[..k] + s[k + 1..]
  }

  lemma AscendAppend(s: set<int>, u: int)
    requires forall x :: x in s ==> x < u
    ensures Ascend(s + {u}) == Ascend(s) + [u]
  {
    AscendSpec(s);
    AscendSpec(s + {u});
    var a := Ascend(s) + [u];
    assert forall k :: 0 <= k < |Ascend(s)| ==> Ascend(s)[k] in Ascend(s);
    AscendingUnique(IntLess, Ascend(s + {u}), a);
  }

  lemma RemoveAtAscending(a: seq<int>, k: nat)
    requires Ascending(IntLess, a) && k < |a|
    ensures Ascending(IntLess, RemoveAt(a, k))
  {
    var r := RemoveAt(a, k);
    forall i, j | 0 <= i < j < |r| ensures IntLess(r[i], r[j]) {
      assert r[i] == a[if i < k then i else i + 1] && r[j] == a[if j < k then j else j + 1];
    }
  }

  lemma RemoveAtMembers(a: seq<int>, k: nat, x: int)
    requires Ascending(IntLess, a) && k < |a|
    ensures x in RemoveAt(a, k) <==> x in a && x != a[k]
  {
    var r := RemoveAt(a, k);
    if x in r {
      var i :| 0 <= i < |r| && r[i] == x;
      var j := if i < k then i else i + 1;
      assert a[j] == x && j != k;
      assert IntLess(a[j], a[k]) || IntLess(a[k], a[j]);
    }
    if x in a && x != a[k] {
      var j :| 0 <= j < |a| && a[j] == x;
      assert r[if j < k then j else j - 1] == x;
    }
  }

  lemma AscendRemove(s: set<int>, k: nat)
    requires k < |Ascend(s)|
    ensures Ascend(s - {Ascend(s)[k]}) == RemoveAt(Ascend(s), k)
  {
    var a := Ascend(s);
    AscendSpec(s);
    AscendSpec(s - {a[k]});
    RemoveAtAscending(a, k);
    forall x ensures x in RemoveAt(a, k) <==> x in Ascend(s - {a[k]}) {
      RemoveAtMembers(a, k, x);
    }
    AscendingUnique(IntLess, Ascend(s - {a[k]}), RemoveAt(a, k));
  }

  lemma {:induction false} AscendingCard(a: seq<int>, k: nat)
    requires Ascending(IntLess, a) && k <= |a|
    ensures |set i | 0 <= i < k :: a[i]| == k
  {
    if k > 0 {
      AscendingCard(a, k - 1);
      var before := set i | 0 <= i < k - 1 :: a[i];
      assert (set i | 0 <= i < k :: a[i]) == before + {a[k - 1]};
      assert a[k - 1] !in before;
    }
  }

  /** Counting the rows below a UID finds its place in the listing. */
  lemma SequenceNumberIsPosition(mb: Mailbox, k: nat)
    requires k < |Uids(mb)|
    ensures SequenceNumber(mb, Uids(mb)[k]) == k + 1
  {
    var a := Uids(mb);
    AscendSpec(mb.rows.Keys);
    AscendingCard(a, k);
    assert (set u | u in mb.rows && u < a[k]) == set i | 0 <= i < k :: a[i] by {
      forall u | u in mb.rows && u < a[k] ensures u in set i | 0 <= i < k :: a[i] {
        assert u in a;
        var i :| 0 <= i < |a| && a[i] == u;
      }
      forall i | 0 <= i < k ensures a[i] in mb.rows && a[i] < a[k] {
        assert a[i] in a;
      }
    }
  }
}
