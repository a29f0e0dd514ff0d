/**
 Reference counts of stored blobs (crates/db/src/repository.rs): one row of the cache table
 per account, object type and key.  The tables are values here; Repository updates them.
 */
module BlobLedger {
  import opened Wrappers
  import opened Sums
  import opened MailboxStore

  datatype Kind = Rfc822 | Attachment | MimePart

  datatype Ref = Ref(kind: Kind, key: string)

  datatype Message = Message(account: int, rfc822Key: string, parts: seq<Ref>)

  datatype CacheId = CacheId(account: int, kind: Kind, key: string)

  type Cache = map<CacheId, int>

  datatype Tables = Tables(mailboxes: map<int, Mailbox>, messages: map<int, Message>, cache: Cache)

  // ---------- counting ----------

  function Count(c: Cache, id: CacheId): int { if id in c then c[id] else 0 }

  /** The count of a key in an account, over its object types. */
  function Total(c: Cache, account: int, key: string): int {
    Count(c, CacheId(account, Rfc822, key)) + Count(c, CacheId(account, Attachment, key))
    + Count(c, CacheId(account, MimePart, key))
  }

  /** How often a list of references names a key. */
  function Mult(refs: seq<Ref>, key: string): int {
    var m := multiset(refs);
    m[Ref(Rfc822, key)] + m[Ref(Attachment, key)] + m[Ref(MimePart, key)]
  }

  ghost predicate Positive(c: Cache) { forall id :: id in c ==> c[id] >= 1 }

  predicate Holds(c: Cache, account: int, key: string) {
    exists id :: id in c && id.account == account && id.key == key
  }

  /** With positive counts a row exists exactly when the total is not zero. */
  lemma HoldsIffTotal(c: Cache, account: int, key: string)
    requires Positive(c)
    ensures Holds(c, account, key) <==> Total(c, account, key) > 0
    ensures Total(c, account, key) >= 0
  {
    if Holds(c, account, key) {
      var id :| id in c && id.account == account && id.key == key;
      assert id == CacheId(account, id.kind, key);
      match id.kind case Rfc822 => case Attachment => case MimePart =>
    }
    if Total(c, account, key) > 0 {
      assert exists kind :: CacheId(account, kind, key) in c by {
        assert CacheId(account, Rfc822, key) in c || CacheId(account, Attachment, key) in c
            || CacheId(account, MimePart, key) in c;
      }
    }
  }

  /** `list_message_cache_objects`: the message blob and its parts, if the account owns the message. */
  function Refs(t: Tables, account: int, messageId: int): seq<Ref> {
    if messageId in t.messages && t.messages[messageId].account == account
    then [Ref(Rfc822, t.messages[messageId].rfc822Key)] + t.messages[messageId].parts else []
  }

  // ---------- taking and releasing references ----------

  /** `upsert_cache_object` with a count of one. */
  function AddRef(c: Cache, account: int, ref: Ref): Cache {
    var id := CacheId(account, ref.kind, ref.key);
    c[id := Count(c, id) + 1]
  }

  function AddRefs(c: Cache, account: int, refs: seq<Ref>): Cache
    decreases |refs|
  {
    if refs == [] then c else AddRefs(AddRef(c, account, refs[0]), account, refs[1..])
  }

  /** The row left by `delete_cache_object_for_account`. */
  function Decrement(c: Cache, id: CacheId): Cache
    requires id in c
  {
    if c[id] > 1 then c[id := c[id] - 1] else c - {id}
  }

  /** `delete_cache_object_for_account` selects by account and key; when several object types
      share the key, any of their rows may be the one it finds. */
  ghost predicate Released(c: Cache, account: int, key: string, c': Cache) {
    if Holds(c, account, key)
    then exists id :: id in c && id.account == account && id.key == key && c' == Decrement(c, id)
    else c' == c
  }

  ghost predicate ReleasedAll(c: Cache, account: int, refs: seq<Ref>, c': Cache)
    decreases |refs|
  {
    if refs == [] then c' == c
    else exists mid :: Released(c, account, refs[0].key, mid) && ReleasedAll(mid, account, refs[1..], c')
  }

  /** One row counts one more, every other as before. */
  lemma AddRefCounts(c: Cache, account: int, ref: Ref, id: CacheId)
    ensures Count(AddRef(c, account, ref), id) == Count(c, id)
      + if id.account == account && id.kind == ref.kind && id.key == ref.key then 1 else 0
  {}

  lemma AddRefTotal(c: Cache, account: int, ref: Ref, a: int, key: string)
    ensures Total(AddRef(c, account, ref), a, key) == Total(c, a, key) + if a == account && key == ref.key then 1 else 0
  {
    match ref.kind case Rfc822 => case Attachment => case MimePart =>
  }

  lemma MultCons(ref: Ref, refs: seq<Ref>, key: string)
    ensures Mult([ref] + refs, key) == Mult(refs, key) + if key == ref.key then 1 else 0
  {
    assert multiset([ref] + refs) == multiset{ref} + multiset(refs);
    match ref.kind case Rfc822 => case Attachment => case MimePart =>
  }

  lemma {:induction false} AddRefsTotal(c: Cache, account: int, refs: seq<Ref>, a: int, key: string)
    ensures Total(AddRefs(c, account, refs), a, key) == Total(c, a, key) + if a == account then Mult(refs, key) else 0
    ensures Positive(c) ==> Positive(AddRefs(c, account, refs))
    decreases |refs|
  {
    hide Total, Mult;
    if refs == [] {
      assert Mult([], key) == 0 by { EmptyMult(key); }
    } else {
      AddRefTotal(c, account, refs[0], a, key);
      MultCons(refs[0], refs[1..], key);
      assert refs == [refs[0]] + refs[1..];
      AddRefsTotal(AddRef(c, account, refs[0]), account, refs[1..], a, key);
    }
  }

  lemma NoRefs(c: Cache, account: int)
    ensures AddRefs(c, account, []) == c
  {}

  lemma {:induction false} AddRefsSnoc(c: Cache, account: int, refs: seq<Ref>, ref: Ref)
    ensures AddRefs(c, account, refs + [ref]) == AddRef(AddRefs(c, account, refs), account, ref)
    decreases |refs|
  {
    hide AddRef;
    if refs == [] {
      assert refs + [ref] == [ref] && [ref][1..] == [];
    } else {
      assert (refs + [ref])[1..] == refs[1..] + [ref];
      AddRefsSnoc(AddRef(c, account, refs[0]), account, refs[1..], ref);
    }
  }

  lemma EmptyMult(key: string)
    ensures Mult([], key) == 0
  {}

  lemma ReleaseTotal(c: Cache, account: int, key: string, c': Cache, a: int, k: string)
    requires Positive(c) && Released(c, account, key, c')
    ensures Positive(c')
    ensures Total(c', a, k) == Total(c, a, k) - if a == account && k == key && Total(c, a, k) > 0 then 1 else 0
  {
    HoldsIffTotal(c, account, key);
    if Holds(c, account, key) {
      var id :| id in c && id.account == account && id.key == key && c' == Decrement(c, id);
      assert id == CacheId(account, id.kind, key);
      match id.kind case Rfc822 => case Attachment => case MimePart =>
    }
  }

  function NotBelowZero(n: int): int { if n < 0 then 0 else n }

  /** Releasing a list takes away its multiplicities, as far as the counts go. */
  lemma {:induction false} ReleaseAllTotal(c: Cache, account: int, refs: seq<Ref>, c': Cache, a: int, k: string)
    requires Positive(c) && ReleasedAll(c, account, refs, c')
    ensures Positive(c')
    ensures Total(c', a, k) == if a == account then NotBelowZero(Total(c, a, k) - Mult(refs, k)) else Total(c, a, k)
    decreases |refs|
  {
    hide Total, Mult, Released, Positive;
    if refs == [] {
      EmptyMult(k);
      HoldsIffTotal(c, a, k);
    } else {
      var mid :| Released(c, account, refs[0].key, mid) && ReleasedAll(mid, account, refs[1..], c');
      assert refs == [refs[0]] + refs[1..];
      MultCons(refs[0], refs[1..], k);
      MultNonNegative(refs[1..], k);
      HoldsIffTotal(c, a, k);
      ReleaseTotal(c, account, refs[0].key, mid, a, k);
      ReleaseAllTotal(mid, account, refs[1..], c', a, k);
    }
  }

  lemma MultNonNegative(refs: seq<Ref>, key: string)
    ensures Mult(refs, key) >= 0
  {}

  // ---------- the conservation law ----------

  ghost function Live(t: Tables): set<(int, int)> {
    set m, u | m in t.mailboxes && u in t.mailboxes[m].rows :: (m, u)
  }

  ghost function RowDemand(t: Tables, account: int, key: string, row: (int, int)): int {
    if row.0 in t.mailboxes && row.1 in t.mailboxes[row.0].rows && t.mailboxes[row.0].account == account
    then Mult(Refs(t, account, t.mailboxes[row.0].rows[row.1].messageId), key) else 0
  }

  ghost function DemandOf(t: Tables, account: int, key: string): ((int, int)) -> int {
    row => RowDemand(t, account, key, row)
  }

  /** References to a key from the account's live mailbox rows, with multiplicity. */
  ghost function Demand(t: Tables, account: int, key: string): int {
    SumOver(Live(t), DemandOf(t, account, key))
  }

  /** Rows refer to stored messages. */
  ghost predicate Linked(t: Tables) {
    forall m, u :: m in t.mailboxes && u in t.mailboxes[m].rows ==> t.mailboxes[m].rows[u].messageId in t.messages
  }

  ghost predicate Conserved(t: Tables) {
    Linked(t) && Positive(t.cache)
    && forall account, key :: Total(t.cache, account, key) == Demand(t, account, key)
  }

  /** Conservation in the words of the table: a key has rows exactly when something live refers to it. */
  lemma RowExactlyWhenDemanded(t: Tables, account: int, key: string)
    requires Conserved(t)
    ensures Holds(t.cache, account, key) <==> Demand(t, account, key) > 0
    ensures Demand(t, account, key) >= 0
  {
    HoldsIffTotal(t.cache, account, key);
  }

  // ---------- the three operations ----------

  /** `ingest_parsed_message` for a message row with a new id: parts, mailbox row, message blob. */
  function Ingest(t: Tables, mailbox: int, uid: int, id: int, m: Message, upstreamUid: Option<int>, flags: seq<string>): Tables
    requires mailbox in t.mailboxes
  {
    Tables(t.mailboxes[mailbox := Upsert(t.mailboxes[mailbox], uid, id, upstreamUid, None, flags, [])],
           t.messages[id := m],
           AddRef(AddRefs(t.cache, m.account, m.parts), m.account, Ref(Rfc822, m.rfc822Key)))
  }

  function IngestUid(t: Tables, mailbox: int, uid: int): int
    requires mailbox in t.mailboxes
  {
    UpsertUid(t.mailboxes[mailbox], uid)
  }

  /** `copy_mailbox_message`, with the references in the order the query returned them. */
  ghost predicate CopiesMessage(t: Tables, source: int, target: int, uid: int, t': Tables) {
    && source in t.mailboxes && target in t.mailboxes
    && if uid !in t.mailboxes[source].rows then t' == t
       else
         var row := t.mailboxes[source].rows[uid];
         var account := t.mailboxes[target].account;
         && t'.messages == t.messages
         && t'.mailboxes == t.mailboxes[target := CopyIn(t.mailboxes[target], row)]
         && exists refs :: multiset(refs) == multiset(Refs(t, account, row.messageId))
                           && t'.cache == AddRefs(t.cache, account, refs)
  }

  /** `delete_mailbox_message`. */
  ghost predicate DeletesMessage(t: Tables, mailbox: int, uid: int, t': Tables) {
    && mailbox in t.mailboxes
    && if uid !in t.mailboxes[mailbox].rows then t' == t
       else
         var row := t.mailboxes[mailbox].rows[uid];
         var account := t.mailboxes[mailbox].account;
         && t'.messages == t.messages
         && t'.mailboxes == t.mailboxes[mailbox := Delete(t.mailboxes[mailbox], uid)]
         && exists refs :: multiset(refs) == multiset(Refs(t, account, row.messageId))
                           && ReleasedAll(t.cache, account, refs, t'.cache)
  }

  /** Adding one live row adds that row's demand and nothing else. */
  lemma DemandAdds(t: Tables, t': Tables, row: (int, int), account: int, key: string)
    requires row !in Live(t) && Live(t') == Live(t) + {row}
    requires forall r :: r in Live(t) ==> RowDemand(t', account, key, r) == RowDemand(t, account, key, r)
    ensures Demand(t', account, key) == Demand(t, account, key) + RowDemand(t', account, key, row)
  {
    hide RowDemand;
    SumRemove(Live(t'), DemandOf(t', account, key), row);
    assert Live(t') - {row} == Live(t);
    SumCongruent(Live(t), DemandOf(t', account, key), DemandOf(t, account, key));
  }

  /** Rewriting one live row replaces its demand. */
  lemma DemandReplaces(t: Tables, t': Tables, row: (int, int), account: int, key: string)
    requires row in Live(t) && Live(t') == Live(t)
    requires forall r :: r in Live(t) && r != row ==> RowDemand(t', account, key, r) == RowDemand(t, account, key, r)
    ensures Demand(t', account, key) ==
            Demand(t, account, key) - RowDemand(t, account, key, row) + RowDemand(t', account, key, row)
  {
    hide RowDemand;
    SumRemove(Live(t), DemandOf(t, account, key), row);
    SumRemove(Live(t'), DemandOf(t', account, key), row);
    SumCongruent(Live(t) - {row}, DemandOf(t', account, key), DemandOf(t, account, key));
  }

  lemma DemandAtLeast(t: Tables, row: (int, int), account: int, key: string)
    requires row in Live(t)
    ensures RowDemand(t, account, key, row) <= Demand(t, account, key)
  {
    SumRemove(Live(t), DemandOf(t, account, key), row);
    SumNonNegative(Live(t) - {row}, DemandOf(t, account, key));
  }
}
