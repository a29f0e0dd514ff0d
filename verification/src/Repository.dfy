/**
 The repository methods that move mailbox rows and blob references together
 (crates/db/src/repository.rs, ingest in crates/sync/src/lib.rs), and the purge of an
 account's blobs before the account is deleted (src/admin.rs).
 */
module Repository {
  import opened Wrappers
  import opened Sums
  import opened MailboxStore
  import opened BlobLedger
  import opened BlobConservation

  /** Some other account's message, or one of its parts, is stored under the key. */
  predicate ReferencedElsewhere(messages: map<int, Message>, key: string, account: int) {
    exists id :: id in messages && messages[id].account != account && UsesKey(messages[id], key)
  }

  predicate UsesKey(m: Message, key: string) {
    m.rfc822Key == key || exists i :: 0 <= i < |m.parts| && m.parts[i].key == key
  }

  /** What becomes of an ingest: quota refuses it, a step fails after so many table writes, or no
      step fails. */
  datatype Fate = Refused | FailsAfter(writes: nat) | Succeeds

  /** The table writes it gets to do: the message, two for each part, the mailbox row if there is
      such a mailbox, and the count of the message blob. */
  function WritesOf(fate: Fate, parts: nat, mailboxExists: bool): nat {
    var all := 2 * parts + if mailboxExists then 3 else 1;
    match fate
    case Refused => 0
    case FailsAfter(n) => AtMost(n, all)
    case Succeeds => all
  }

  lemma WritesBound(fate: Fate, parts: nat, mailboxExists: bool)
    ensures WritesOf(fate, parts, mailboxExists) <= 2 * parts + if mailboxExists then 3 else 1
    ensures fate == Succeeds ==> WritesOf(fate, parts, mailboxExists) == 2 * parts + if mailboxExists then 3 else 1
    ensures fate == Refused ==> WritesOf(fate, parts, mailboxExists) == 0
    ensures fate.FailsAfter? && fate.writes <= 2 * parts + 1 ==> WritesOf(fate, parts, mailboxExists) == fate.writes
  {}

  /** The tables at each stage of an ingest. */
  lemma IngestStages(t: Tables, mailbox: int, uid: int, id: int, m: Message, upstreamUid: Option<int>, flags: seq<string>, w: nat)
    requires w <= IngestWriteCount(m) && (w >= 2 * |m.parts| + 2 ==> mailbox in t.mailboxes)
    ensures var t', n := IngestUpTo(t, mailbox, uid, id, m, upstreamUid, flags, w), |m.parts|;
      && (w == 0 ==> t' == t)
      && (1 <= w ==> t'.messages == t.messages[id := Message(m.account, m.rfc822Key, m.parts[..AtMost(w / 2, n)])])
      && (1 <= w < 2 * n + 3 ==> t'.cache == AddRefs(t.cache, m.account, m.parts[..AtMost((w - 1) / 2, n)]))
      && (w < 2 * n + 2 ==> t'.mailboxes == t.mailboxes)
      && (w >= 2 * n + 2 ==>
            t'.mailboxes == t.mailboxes[mailbox := Upsert(t.mailboxes[mailbox], uid, id, upstreamUid, None, flags, [])])
      && (w == 2 * n + 3 ==>
            t'.cache == AddRef(AddRefs(t.cache, m.account, m.parts[..AtMost((w - 1) / 2, n)]), m.account, Ref(Rfc822, m.rfc822Key)))
  {
    hide AddRefs, AddRef, Upsert;
  }

  class Database {
    var mailboxes: map<int, Mailbox>
    var messages: map<int, Message>
    var cache: Cache
    var nextMessageId: int

    ghost function View(): Tables
      reads this
    {
      Tables(mailboxes, messages, cache)
    }

    ghost predicate Valid()
      reads this
    {
      forall id :: id in messages ==> id < nextMessageId
    }

    constructor ()
      ensures Valid() && View() == Tables(map[], map[], map[])
    {
      mailboxes, messages, cache, nextMessageId := map[], map[], map[], 1;
    }

    method UpsertCacheObject(account: int, ref: Ref)
      modifies this`cache
      ensures cache == AddRef(old(cache), account, ref)
    {
      var id := CacheId(account, ref.kind, ref.key);
      if id in cache {
        cache := cache[id := cache[id] + 1];
      } else {
        cache := cache[id := 1];
      }
    }

    /** Takes one reference away; true when the blob itself may go. */
    method DeleteCacheObjectForAccount(account: int, key: string) returns (deletable: bool)
      modifies this`cache
      ensures Released(old(cache), account, key, cache)
      ensures deletable <==> cache.Keys != old(cache).Keys && !ReferencedElsewhere(messages, key, account)
    {
      if !Holds(cache, account, key) {
        return false;
      }
      var id :| id in cache && id.account == account && id.key == key;
      assert Released(cache, account, key, Decrement(cache, id));
      if cache[id] > 1 {
        cache := cache[id := cache[id] - 1];
        return false;
      }
      cache := cache - {id};
      assert id in old(cache).Keys && id !in cache.Keys;
      deletable := !ReferencedElsewhere(messages, key, account);
    }

    /** The result order of the query is not part of the contract. */
    method ListMessageCacheObjects(account: int, messageId: int) returns (refs: seq<Ref>)
      ensures multiset(refs) == multiset(Refs(View(), account, messageId))
      ensures if messageId in messages && messages[messageId].account == account
        then multiset(refs) == multiset{Ref(Rfc822, messages[messageId].rfc822Key)} + multiset(messages[messageId].parts)
        else refs == []
    {
      if messageId in messages && messages[messageId].account == account {
        refs := messages[messageId].parts + [Ref(Rfc822, messages[messageId].rfc822Key)];
      } else {
        refs := [];
      }
    }

    /** Moves the mailbox's counter on; fails without a mailbox row. */
    method AssignMailboxModseq(mailbox: int, requested: Option<int>) returns (modseq: Result<int>)
      modifies this`mailboxes
      ensures modseq.Ok? <==> mailbox in old(mailboxes)
      ensures modseq.Err? ==> mailboxes == old(mailboxes)
      ensures modseq.Ok? ==>
        && mailboxes == old(mailboxes)[mailbox := AssignModseq(old(mailboxes)[mailbox], requested).0]
        && modseq.value == AssignModseq(old(mailboxes)[mailbox], requested).1
      ensures modseq.Ok? && requested.Some? && requested.value >= old(mailboxes)[mailbox].Counter() ==>
        modseq.value == requested.value
    {
      if mailbox !in mailboxes {
        return Err;
      }
      var current := mailboxes[mailbox].highest.GetOr(0);
      var next := requested.GetOr(SaturatingSucc(current));
      if next < current {
        next := current;
      }
      if next != current {
        mailboxes := mailboxes[mailbox := mailboxes[mailbox].(highest := Some(next))];
      }
      modseq := Ok(next);
    }

    /** Writes a row; the result is the UID it got. */
    method UpsertMailboxMessage(mailbox: int, uid: int, messageId: int, upstreamUid: Option<int>,
                                modseq: Option<int>, flags: seq<string>, keywords: seq<string>) returns (r: Result<int>)
      modifies this`mailboxes
      ensures r.Ok? <==> mailbox in old(mailboxes)
      ensures r.Err? ==> mailboxes == old(mailboxes)
      ensures r.Ok? ==>
        && mailboxes == old(mailboxes)[mailbox :=
             Upsert(old(mailboxes)[mailbox], uid, messageId, upstreamUid, modseq, flags, keywords)]
        && r.value == UpsertUid(old(mailboxes)[mailbox], uid)
    {
      if mailbox !in mailboxes {
        return Err;
      }
      var at := if uid == 0 then NextUid(mailboxes[mailbox]) else uid;
      var stamp := AssignMailboxModseq(mailbox, modseq);
      var rows := mailboxes[mailbox].rows[at := Row(messageId, upstreamUid, stamp.value, flags, keywords)];
      mailboxes := mailboxes[mailbox := mailboxes[mailbox].(rows := rows)];
      r := Ok(at);
    }

    /** Rewrites a row's flags; the result says whether there was such a row. */
    method UpdateMailboxMessageFlags(mailbox: int, uid: int, flags: seq<string>) returns (found: Result<bool>)
      modifies this`mailboxes
      ensures found.Ok? <==> mailbox in old(mailboxes)
      ensures found.Err? ==> mailboxes == old(mailboxes)
      ensures found.Ok? ==>
        && mailboxes == old(mailboxes)[mailbox := SetFlags(old(mailboxes)[mailbox], uid, flags)]
        && found.value == (uid in old(mailboxes)[mailbox].rows)
    {
      var stamp := AssignMailboxModseq(mailbox, None);
      if stamp.Err? {
        return Err;
      }
      var rows := mailboxes[mailbox].rows;
      if uid !in rows {
        return Ok(false);
      }
      rows := rows[uid := rows[uid].(flags := flags, modseq := stamp.value)];
      mailboxes := mailboxes[mailbox := mailboxes[mailbox].(rows := rows)];
      found := Ok(true);
    }

    /** Refused for lack of quota, cut short by a failing step, or carried through; without the
        mailbox it fails after the message and its parts were stored and counted. */
    method IngestParsedMessage(account: int, mailbox: int, uid: int, upstreamUid: Option<int>, rfc822Key: string,
                               parts: seq<Ref>, flags: seq<string>, fate: Fate) returns (r: Result<int>)
      requires Valid()
      modifies this
      ensures Valid()
      ensures r.Ok? <==> fate == Succeeds && mailbox in old(mailboxes)
      ensures r.Ok? ==>
        && r.value !in old(messages)
        && View() == Ingest(old(View()), mailbox, uid, r.value, Message(account, rfc822Key, parts), upstreamUid, flags)
      ensures View() == IngestUpTo(old(View()), mailbox, uid, old(nextMessageId), Message(account, rfc822Key, parts),
                                   upstreamUid, flags, WritesOf(fate, |parts|, mailbox in old(mailboxes)))
    {
      hide AddRefs, AddRef, Upsert, WritesOf, Ingest, IngestUpTo;
      WritesBound(fate, |parts|, mailbox in mailboxes);
      IngestStages(View(), mailbox, uid, nextMessageId, Message(account, rfc822Key, parts), upstreamUid, flags,
                   WritesOf(fate, |parts|, mailbox in mailboxes));
      var id := nextMessageId;
      var left := WritesOf(fate, |parts|, mailbox in mailboxes);
      if left == 0 {
        return Err;
      }
      nextMessageId := nextMessageId + 1;
      messages := messages[id := Message(account, rfc822Key, [])];
      StoreParts(id, account, rfc822Key, parts, left);
      if left < 2 * |parts| + 2 {
        return Err;
      }
      var _ := UpsertMailboxMessage(mailbox, uid, id, upstreamUid, None, flags, []);
      if left == 2 * |parts| + 2 {
        return Err;
      }
      UpsertCacheObject(account, Ref(Rfc822, rfc822Key));
      if fate == Succeeds {
        AllWritesIngest(old(View()), mailbox, uid, id, Message(account, rfc822Key, parts), upstreamUid, flags);
        return Ok(id);
      }
      r := Err;
    }

    /** The parts of a message just stored, a row and a count for each, as far as the writes left
        after the message's own go. */
    method StoreParts(id: int, account: int, rfc822Key: string, parts: seq<Ref>, left: nat)
      requires left >= 1 && id in messages && messages[id] == Message(account, rfc822Key, [])
      modifies this`messages, this`cache
      ensures messages == old(messages)[id := Message(account, rfc822Key, parts[..AtMost(left / 2, |parts|)])]
      ensures cache == AddRefs(old(cache), account, parts[..AtMost((left - 1) / 2, |parts|)])
    {
      hide AddRefs, AddRef;
      NoRefs(cache, account);
      var i := 0;
      while i < |parts|
        invariant 0 <= i <= |parts| && left >= 2 * i + 1
        invariant messages == old(messages)[id := Message(account, rfc822Key, parts[..i])]
        invariant cache == AddRefs(old(cache), account, parts[..i])
      {
        if left == 2 * i + 1 {
          return;
        }
        assert parts[..i + 1] == parts[..i] + [parts[i]];
        messages := messages[id := Message(account, rfc822Key, parts[..i] + [parts[i]])];
        if left == 2 * i + 2 {
          return;
        }
        AddRefsSnoc(old(cache), account, parts[..i], parts[i]);
        UpsertCacheObject(account, parts[i]);
        i := i + 1;
      }
    }

    /** One reference for each entry of the list. */
    method TakeAll(account: int, refs: seq<Ref>)
      modifies this`cache
      ensures cache == AddRefs(old(cache), account, refs)
    {
      var i := 0;
      while i < |refs|
        invariant 0 <= i <= |refs|
        invariant AddRefs(cache, account, refs[i..]) == AddRefs(old(cache), account, refs)
      {
        assert refs[i..][1..] == refs[i + 1..];
        UpsertCacheObject(account, refs[i]);
        i := i + 1;
      }
    }

    method ReleaseAll(account: int, refs: seq<Ref>)
      modifies this`cache
      ensures ReleasedAll(old(cache), account, refs, cache)
      decreases |refs|
    {
      if refs != [] {
        var _ := DeleteCacheObjectForAccount(account, refs[0].key);
        ReleaseAll(account, refs[1..]);
      }
    }

    /** Fails without a destination; copies nothing without a source row. */
    method CopyMailboxMessage(source: int, target: int, uid: int) returns (copied: Result<Option<int>>)
      requires Valid()
      modifies this
      ensures Valid()
      ensures copied.Err? ==> View() == old(View())
      ensures copied.Ok? && copied.value.None? ==>
        View() == old(View()) && (source in mailboxes ==> uid !in mailboxes[source].rows)
      ensures copied.Ok? && copied.value.Some? ==>
        && CopiesMessage(old(View()), source, target, uid, View()) && uid in old(mailboxes)[source].rows
        && copied.value.value == NextUid(old(mailboxes)[target])
      ensures copied.Err? <==> source in old(mailboxes) && uid in old(mailboxes)[source].rows && target !in old(mailboxes)
    {
      if source !in mailboxes || uid !in mailboxes[source].rows {
        return Ok(None);
      }
      if target !in mailboxes {
        return Err;
      }
      var row := mailboxes[source].rows[uid];
      var account := mailboxes[target].account;
      var next := UpsertMailboxMessage(target, 0, row.messageId, None, None, row.flags, row.keywords);
      var refs := ListMessageCacheObjects(account, row.messageId);
      assert Refs(View(), account, row.messageId) == Refs(old(View()), account, row.messageId);
      TakeAll(account, refs);
      copied := Ok(Some(next.value));
    }

    method DeleteMailboxMessage(mailbox: int, uid: int) returns (affected: nat)
      requires Valid()
      modifies this
      ensures Valid()
      ensures mailbox in old(mailboxes) ==> DeletesMessage(old(View()), mailbox, uid, View())
      ensures mailbox !in old(mailboxes) ==> View() == old(View())
      ensures affected == if mailbox in old(mailboxes) && uid in old(mailboxes)[mailbox].rows then 1 else 0
    {
      if mailbox !in mailboxes || uid !in mailboxes[mailbox].rows {
        return 0;
      }
      var id, account := mailboxes[mailbox].rows[uid].messageId, mailboxes[mailbox].account;
      var _ := AssignMailboxModseq(mailbox, None);
      var rows := mailboxes[mailbox].rows - {uid};
      mailboxes := mailboxes[mailbox := mailboxes[mailbox].(rows := rows)];
      var refs := ListMessageCacheObjects(account, id);
      assert Refs(View(), account, id) == Refs(old(View()), account, id);
      ReleaseAll(account, refs);
      affected := 1;
    }

    method ListCacheObjectsForAccount(account: int) returns (ids: seq<CacheId>)
      ensures forall id :: id in ids <==> id in cache && id.account == account
    {
      ids := [];
      var rest := cache.Keys;
      while rest != {}
        invariant rest <= cache.Keys
        invariant forall id :: id in ids <==> id in cache && id !in rest && id.account == account
        decreases rest
      {
        var id :| id in rest;
        if id.account == account { ids := ids + [id]; }
        rest := rest - {id};
      }
    }
  }

  class ObjectStore {
    var blobs: map<string, string>

    constructor ()
      ensures blobs == map[]
    {
      blobs := map[];
    }

    method DeleteBlob(key: string)
      modifies this
      ensures blobs == old(blobs) - {key}
    {
      blobs := blobs - {key};
    }
  }

  // ---------- purging an account ----------

  ghost function AccountIds(c: Cache, account: int): set<CacheId> {
    set id | id in c && id.account == account
  }

  ghost function WeightOf(c: Cache): CacheId -> int {
    id => if id in c && c[id] > 1 then c[id] else 1
  }

  /** The account's reference counts summed up, a row that is due to go counting one. */
  ghost function Weight(c: Cache, account: int): int {
    SumOver(AccountIds(c, account), WeightOf(c))
  }

  lemma WeightPositive(c: Cache, account: int)
    ensures Weight(c, account) >= 0
  {
    SumNonNegative(AccountIds(c, account), WeightOf(c));
  }

  /** Every call that finds a row brings the purge closer to its end. */
  lemma ReleaseLowersWeight(c: Cache, account: int, key: string, c': Cache)
    requires Released(c, account, key, c')
    ensures Holds(c, account, key) ==> Weight(c', account) < Weight(c, account)
    ensures !Holds(c, account, key) ==> c' == c
    ensures forall id :: id in c' ==> id in c
    ensures forall id :: id in c && (id.account != account || id.key != key) ==> id in c' && c'[id] == c[id]
  {
    if Holds(c, account, key) {
      var id :| id in c && id.account == account && id.key == key && c' == Decrement(c, id);
      var ids := AccountIds(c, account);
      SumRemove(ids, WeightOf(c), id);
      SumCongruent(ids - {id}, WeightOf(c), WeightOf(c'));
      if c[id] > 1 {
        assert AccountIds(c', account) == ids;
        SumRemove(ids, WeightOf(c'), id);
      } else {
        assert AccountIds(c', account) == ids - {id};
      }
    }
  }

  function CachedKeys(c: Cache, account: int): set<string> {
    set id | id in c && id.account == account :: id.key
  }

  /** The message and part keys of `list_object_keys_for_account`. */
  function OwnKeys(messages: map<int, Message>, account: int): set<string> {
    (set id | id in messages && messages[id].account == account :: messages[id].rfc822Key)
    + (set id, i | id in messages && messages[id].account == account && 0 <= i < |messages[id].parts|
         :: messages[id].parts[i].key)
  }

  /** Keys the account holds, by a cache row, a message or a part, that no other account's
      message or part refers to. */
  ghost function Doomed(t: Tables, account: int): set<string> {
    set k | k in CachedKeys(t.cache, account) + OwnKeys(t.messages, account)
            && !ReferencedElsewhere(t.messages, k, account)
  }

  function KeysOf(m: Message): set<string> { {m.rfc822Key} + set i | 0 <= i < |m.parts| :: m.parts[i].key }

  /** The blobs a purge removes: those the account holds by a cache row or by a message or part of
      its own, and that no message or part of another account is stored under. */
  lemma DoomedMeans(t: Tables, account: int, key: string)
    ensures ReferencedElsewhere(t.messages, key, account) <==>
      exists id :: id in t.messages && t.messages[id].account != account && key in KeysOf(t.messages[id])
    ensures key in Doomed(t, account) <==>
      && ((exists kind :: CacheId(account, kind, key) in t.cache)
          || exists id :: id in t.messages && t.messages[id].account == account && key in KeysOf(t.messages[id]))
      && !(exists id :: id in t.messages && t.messages[id].account != account && key in KeysOf(t.messages[id]))
  {
    forall id | id in t.messages ensures UsesKey(t.messages[id], key) <==> key in KeysOf(t.messages[id]) {}
    if key in CachedKeys(t.cache, account) {
      var id :| id in t.cache && id.account == account && id.key == key;
      assert CacheId(account, id.kind, key) in t.cache;
    }
  }

  /** Progress of the purge: other accounts' rows stand, the keys without a row any more are
      recorded, and the doomed ones among them are gone. */
  ghost predicate Purging(t: Tables, account: int, c: Cache, keys: set<string>, gone: set<string>) {
    && (forall id :: id in c ==> id in t.cache)
    && (forall id :: id in t.cache && id.account != account ==> id in c && c[id] == t.cache[id])
    && CachedKeys(t.cache, account) - CachedKeys(c, account) <= keys <= CachedKeys(t.cache, account)
    && (CachedKeys(t.cache, account) - CachedKeys(c, account)) * Doomed(t, account) <= gone <= Doomed(t, account)
  }

  lemma ReleasedKeys(c: Cache, account: int, key: string, c': Cache)
    requires Released(c, account, key, c')
    ensures CachedKeys(c', account) <= CachedKeys(c, account) <= CachedKeys(c', account) + {key}
    ensures c'.Keys == c.Keys ==> CachedKeys(c', account) == CachedKeys(c, account)
  {
    ReleaseLowersWeight(c, account, key, c');
    forall k | k in CachedKeys(c, account) && (k != key || c'.Keys == c.Keys) ensures k in CachedKeys(c', account) {
      var id :| id in c && id.account == account && id.key == k;
      assert id in c.Keys;
      assert id in c';
    }
  }

  lemma PurgeStep(t: Tables, account: int, c: Cache, keys: set<string>, gone: set<string>, key: string, c': Cache)
    requires Purging(t, account, c, keys, gone) && key in CachedKeys(t.cache, account) && Released(c, account, key, c')
    ensures var removed := c'.Keys != c.Keys && !ReferencedElsewhere(t.messages, key, account);
      Purging(t, account, c', keys + {key}, if removed then gone + {key} else gone)
  {
    hide ReferencedElsewhere, CachedKeys, Released;
    ReleaseLowersWeight(c, account, key, c');
    ReleasedKeys(c, account, key, c');
    assert key in Doomed(t, account) <==> !ReferencedElsewhere(t.messages, key, account);
  }

  method PurgeAccountObjects(repo: Database, store: ObjectStore, account: int)
    modifies repo`cache, store
    ensures repo.cache == map id | id in old(repo.cache) && id.account != account :: old(repo.cache)[id]
    ensures store.blobs == old(store.blobs) - Doomed(old(repo.View()), account)
  {
    hide Doomed, Weight;
    ghost var t, blobs0 := repo.View(), store.blobs;
    var keys: set<string> := {};
    ghost var gone: set<string> := {};
    while true
      invariant Purging(t, account, repo.cache, keys, gone) && store.blobs == blobs0 - gone
      decreases Weight(repo.cache, account)
    {
      hide Purging;
      var objects := repo.ListCacheObjectsForAccount(account);
      if objects == [] {
        break;
      }
      WeightPositive(repo.cache, account);
      keys, gone := PurgePass(repo, store, account, objects, keys, t, blobs0, gone);
    }
    assert forall id :: id in repo.cache ==> id.account != account;
    PurgeUncached(repo, store, account, keys, t, blobs0, gone);
  }

  /** One pass over a listing: at least its first object still has its row. */
  method PurgePass(repo: Database, store: ObjectStore, account: int, objects: seq<CacheId>, keys0: set<string>,
                   ghost t: Tables, ghost blobs0: map<string, string>, ghost gone0: set<string>)
    returns (keys: set<string>, ghost gone: set<string>)
    requires objects != [] && forall id :: id in objects ==> id in repo.cache && id.account == account
    requires repo.messages == t.messages && Purging(t, account, repo.cache, keys0, gone0) && store.blobs == blobs0 - gone0
    modifies repo`cache, store
    ensures Purging(t, account, repo.cache, keys, gone) && store.blobs == blobs0 - gone
    ensures Weight(repo.cache, account) < Weight(old(repo.cache), account)
  {
    hide Weight, Doomed, ReferencedElsewhere, Released;
    keys, gone := keys0, gone0;
    assert forall id :: id in objects ==> id in t.cache;
    for i := 0 to |objects|
      invariant Purging(t, account, repo.cache, keys, gone) && store.blobs == blobs0 - gone
      invariant i == 0 ==> repo.cache == old(repo.cache)
      invariant i > 0 ==> Weight(repo.cache, account) < Weight(old(repo.cache), account)
    {
      hide Purging;
      var key := objects[i].key;
      assert objects[i] in objects;
      assert i == 0 ==> Holds(repo.cache, account, key);
      ghost var c := repo.cache;
      var deletable := repo.DeleteCacheObjectForAccount(account, key);
      ReleaseLowersWeight(c, account, key, repo.cache);
      PurgeStep(t, account, c, keys, gone, key, repo.cache);
      if deletable {
        store.DeleteBlob(key);
        gone := gone + {key};
        assert blobs0 - (gone - {key}) - {key} == blobs0 - gone;
      }
      keys := keys + {key};
    }
  }

  /** Keys known only from messages and parts. */
  method PurgeUncached(repo: Database, store: ObjectStore, account: int, keys: set<string>,
                       ghost t: Tables, ghost blobs0: map<string, string>, ghost gone0: set<string>)
    requires repo.messages == t.messages && Purging(t, account, repo.cache, keys, gone0) && store.blobs == blobs0 - gone0
    requires forall id :: id in repo.cache ==> id.account != account
    modifies store
    ensures store.blobs == blobs0 - Doomed(t, account)
  {
    hide ReferencedElsewhere;
    ghost var gone := gone0;
    assert CachedKeys(repo.cache, account) == {};
    var candidates := OwnKeys(repo.messages, account) - keys;
    var todo := candidates;
    while todo != {}
      invariant todo <= candidates && store.blobs == blobs0 - gone
      invariant gone0 <= gone <= Doomed(t, account) <= gone + todo + (Doomed(t, account) - candidates)
      decreases todo
    {
      var key :| key in todo;
      if !ReferencedElsewhere(repo.messages, key, account) {
        store.DeleteBlob(key);
        gone := gone + {key};
      }
      todo := todo - {key};
    }
    assert gone == Doomed(t, account);
  }
}
