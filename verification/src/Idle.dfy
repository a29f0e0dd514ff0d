/**
 IDLE (crates/imap-server/src/imap.rs): each change to the selected mailbox publishes an
 event, the session turns the event into at most one untagged line, and a client that
 replays the lines keeps the server's list of messages.
 */
module Idle {
  import opened Wrappers
  import opened Ordering
  import opened MailboxStore

  datatype Detail = UpsertMessage | CopyMessage | UpdateFlags | DeleteMessage

  datatype Event = Event(account: int, mailbox: int, localUid: Option<int>,
                         sequenceNumber: Option<int>, flags: seq<string>, detail: Detail)

  datatype Line = Exists(count: int) | Expunged(number: int) | Fetched(number: int, flags: seq<string>)

  // ---------- events published by the store ----------

  /** A change that matches no row publishes nothing.  A deleted row's number is counted
      before the row goes, every other number after the change. */
  function Published(id: int, mb: Mailbox, c: Change): Option<Event> {
    var after := Apply(mb, c);
    match c
    case Put(uid, _, _, flags, _) =>
      var at := UpsertUid(mb, uid);
      Some(Event(mb.account, id, Some(at), Some(SequenceNumber(after, at)), flags, UpsertMessage))
    case Copied(source) =>
      var at := NextUid(mb);
      Some(Event(mb.account, id, Some(at), Some(SequenceNumber(after, at)), source.flags, CopyMessage))
    case Flagged(uid, flags) =>
      if uid in mb.rows
      then Some(Event(mb.account, id, Some(uid), Some(SequenceNumber(after, uid)), flags, UpdateFlags))
      else None
    case Removed(uid) =>
      if uid in mb.rows
      then Some(Event(mb.account, id, Some(uid), Some(SequenceNumber(mb, uid)), [], DeleteMessage))
      else None
  }

  // ---------- the session ----------

  function IndexOf(s: seq<int>, x: int): (r: Option<nat>)
    ensures r.Some? ==> r.value < |s| && s[r.value] == x
    ensures r.None? ==> x !in s
  {
    if s == [] then None else if s[0] == x then Some(0) else
      match IndexOf(s[1..], x) case Some(k) => Some(k + 1) case None => None
  }

  datatype Snapshot = Snapshot(account: int, mailbox: int, messages: int)

  /** The line for an event, and the remembered message count afterwards. */
  function Notify(snap: Snapshot, live: Mailbox, e: Event): (Option<Line>, Snapshot) {
    var count := |Uids(live)|;
    var seen := snap.(messages := count);
    if e.account != snap.account || e.mailbox != snap.mailbox then (None, snap)
    else if e.detail == DeleteMessage && e.sequenceNumber.Some? then
      (Some(Expunged(e.sequenceNumber.value)), seen)
    else if e.detail == UpdateFlags && e.localUid.Some? && IndexOf(Uids(live), e.localUid.value).Some? then
      (Some(Fetched(IndexOf(Uids(live), e.localUid.value).value + 1, e.flags)), seen)
    else if count > snap.messages then (Some(Exists(count)), seen)
    else if count < snap.messages then (Some(Expunged(snap.messages - count)), seen)
    else (None, snap)
  }

  class Session {
    var snapshot: Snapshot

    constructor (account: int, mailbox: int, live: Mailbox)
      ensures snapshot == Snapshot(account, mailbox, |Uids(live)|)
    {
      snapshot := Snapshot(account, mailbox, |Uids(live)|);
    }

    method NotificationForEvent(live: Mailbox, event: Event) returns (line: Option<Line>)
      modifies this
      ensures (line, snapshot) == Notify(old(snapshot), live, event)
    {
      line := None;
      if event.account != snapshot.account || event.mailbox != snapshot.mailbox {
        return;
      }
      var uids := Uids(live);
      if event.detail == DeleteMessage && event.sequenceNumber.Some? {
        snapshot := snapshot.(messages := |uids|);
        return Some(Expunged(event.sequenceNumber.value));
      }
      if event.detail == UpdateFlags && event.localUid.Some? {
        var position := IndexOf(uids, event.localUid.value);
        if position.Some? {
          snapshot := snapshot.(messages := |uids|);
          return Some(Fetched(position.value + 1, event.flags));
        }
      }
      var previous := snapshot.messages;
      if |uids| > previous {
        snapshot := snapshot.(messages := |uids|);
        line := Some(Exists(|uids|));
      } else if |uids| < previous {
        snapshot := snapshot.(messages := |uids|);
        line := Some(Expunged(previous - |uids|));
      }
    }
  }

  // ---------- the client ----------

  datatype Entry = Entry(uid: int, messageId: int, flags: seq<string>)

  function EntryOf(mb: Mailbox, uid: int): Entry {
    if uid in mb.rows then Entry(uid, mb.rows[uid].messageId, mb.rows[uid].flags) else Entry(uid, 0, [])
  }

  function Entries(mb: Mailbox, uids: seq<int>): (r: seq<Entry>)
    ensures |r| == |uids|
  {
    seq(|uids|, i requires 0 <= i < |uids| => EntryOf(mb, uids[i]))
  }

  function Listing(mb: Mailbox): (r: seq<Entry>)
    ensures |r| == |Uids(mb)|
  {
    Entries(mb, Uids(mb))
  }

  /** EXISTS makes the client fetch the positions it does not know yet; a number outside its
      list is a protocol error. */
  function Receive(client: seq<Entry>, line: Option<Line>, server: seq<Entry>): Option<seq<Entry>> {
    match line
    case None => Some(client)
    case Some(Exists(n)) => if |client| <= n <= |server| then Some(client + server[|client|..n]) else None
    case Some(Expunged(n)) => if 1 <= n <= |client| then Some(RemoveAt(client, n - 1)) else None
    case Some(Fetched(n, flags)) =>
      if 1 <= n <= |client| then Some(client[n - 1 := client[n - 1].(flags := flags)]) else None
  }

  // ---------- every change keeps the replica ----------

  ghost predicate AutoUid(c: Change) { c.Put? ==> c.uid == 0 }

  function Deliver(id: int, mb: Mailbox, c: Change, snap: Snapshot): (Option<Line>, Snapshot) {
    match Published(id, mb, c)
    case None => (None, snap)
    case Some(e) => Notify(snap, Apply(mb, c), e)
  }

  lemma InsertAppends(mb: Mailbox, after: Mailbox, uid: int)
    requires forall u :: u in mb.rows ==> u < uid
    requires after.rows.Keys == mb.rows.Keys + {uid}
    requires forall u :: u in mb.rows ==> after.rows[u] == mb.rows[u]
    ensures Listing(after) == Listing(mb) + [EntryOf(after, uid)]
  {
    AscendAppend(mb.rows.Keys, uid);
    AscendSpec(mb.rows.Keys);
    assert Uids(after) == Uids(mb) + [uid];
    forall i | 0 <= i < |Uids(mb)| ensures Listing(after)[i] == Listing(mb)[i] {
      assert Uids(mb)[i] in Uids(mb);
    }
  }

  lemma ReceiveAppend(client: seq<Entry>, server: seq<Entry>)
    requires |server| == |client| + 1 && server[..|client|] == client
    ensures Receive(client, Some(Exists(|server|)), server) == Some(server)
  {
    assert client + server[|client|..|server|] == server;
  }

  lemma UidPosition(mb: Mailbox, uid: int)
    requires uid in mb.rows
    ensures 1 <= SequenceNumber(mb, uid) <= |Uids(mb)| && Uids(mb)[SequenceNumber(mb, uid) - 1] == uid
  {
    AscendSpec(mb.rows.Keys);
    assert uid in Uids(mb);
    var k :| 0 <= k < |Uids(mb)| && Uids(mb)[k] == uid;
    SequenceNumberIsPosition(mb, k);
  }

  lemma EntriesRemoveAt(mb: Mailbox, uids: seq<int>, k: nat)
    requires k < |uids|
    ensures Entries(mb, RemoveAt(uids, k)) == RemoveAt(Entries(mb, uids), k)
  {}

  lemma EntriesAgree(mb: Mailbox, after: Mailbox, uids: seq<int>)
    requires forall u :: u in uids ==> EntryOf(mb, u) == EntryOf(after, u)
    ensures Entries(mb, uids) == Entries(after, uids)
  {
    forall i | 0 <= i < |uids| ensures Entries(mb, uids)[i] == Entries(after, uids)[i] {
      assert uids[i] in uids;
    }
  }

  lemma RemovalShifts(mb: Mailbox, after: Mailbox, k: nat)
    requires k < |Uids(mb)| && after.rows == mb.rows - {Uids(mb)[k]}
    ensures Listing(after) == RemoveAt(Listing(mb), k)
  {
    AscendRemove(mb.rows.Keys, k);
    assert after.rows.Keys == mb.rows.Keys - {Uids(mb)[k]};
    AscendSpec(after.rows.Keys);
    EntriesAgree(mb, after, Uids(after));
    EntriesRemoveAt(mb, Uids(mb), k);
  }

  lemma EntriesUpdate(mb: Mailbox, after: Mailbox, uids: seq<int>, at: nat)
    requires Ascending(IntLess, uids) && at < |uids|
    requires forall u :: u in uids && u != uids[at] ==> EntryOf(mb, u) == EntryOf(after, u)
    ensures Entries(after, uids) == Entries(mb, uids)[at := EntryOf(after, uids[at])]
  {
    forall i | 0 <= i < |uids| && i != at ensures EntryOf(mb, uids[i]) == EntryOf(after, uids[i]) {
      assert uids[i] in uids;
      assert IntLess(uids[i], uids[at]) || IntLess(uids[at], uids[i]);
    }
  }

  lemma FlagsInPlace(mb: Mailbox, after: Mailbox, uid: int, flags: seq<string>)
    requires uid in mb.rows && after == SetFlags(mb, uid, flags)
    ensures var at := IndexOf(Uids(after), uid);
      && at.Some? && Uids(mb) == Uids(after) && Uids(mb)[at.value] == uid
      && Listing(after) == Listing(mb)[at.value := Listing(mb)[at.value].(flags := flags)]
  {
    AscendSpec(mb.rows.Keys);
    assert after.rows.Keys == mb.rows.Keys;
    assert uid in Uids(mb);
    EntriesUpdate(mb, after, Uids(mb), IndexOf(Uids(after), uid).value);
  }

  /** The line a change causes takes the client from the old list to the new one; FETCH and
      EXPUNGE name the position of the message that changed or left. */
  ghost predicate Kept(id: int, mb: Mailbox, c: Change, snap: Snapshot) {
    var after, (line, snap') := Apply(mb, c), Deliver(id, mb, c, snap);
    && Receive(Listing(mb), line, Listing(after)) == Some(Listing(after))
    && snap' == Snapshot(after.account, id, |Uids(after)|)
    && (line.Some? && line.value.Fetched? ==>
          c.Flagged? && 1 <= line.value.number <= |Uids(after)| && Uids(after)[line.value.number - 1] == c.uid)
    && (line.Some? && line.value.Expunged? ==>
          c.Removed? && 1 <= line.value.number <= |Uids(mb)| && Uids(mb)[line.value.number - 1] == c.uid)
  }

  lemma InsertKept(id: int, mb: Mailbox, c: Change, snap: Snapshot)
    requires snap == Snapshot(mb.account, id, |Uids(mb)|) && AutoUid(c) && (c.Put? || c.Copied?)
    ensures Kept(id, mb, c, snap)
  {
    hide Receive, EntryOf, Entries;
    var after := Apply(mb, c);
    InsertAppends(mb, after, NextUid(mb));
    ReceiveAppend(Listing(mb), Listing(after));
    assert |Uids(after)| == |Uids(mb)| + 1;
  }

  lemma FlagKept(id: int, mb: Mailbox, c: Change, snap: Snapshot)
    requires snap == Snapshot(mb.account, id, |Uids(mb)|) && c.Flagged?
    ensures Kept(id, mb, c, snap)
  {
    var after := Apply(mb, c);
    if c.uid in mb.rows {
      FlagsInPlace(mb, after, c.uid, c.flags);
    } else {
      EntriesAgree(mb, after, Uids(mb));
    }
  }

  lemma RemovalKept(id: int, mb: Mailbox, c: Change, snap: Snapshot)
    requires snap == Snapshot(mb.account, id, |Uids(mb)|) && c.Removed?
    ensures Kept(id, mb, c, snap)
  {
    if c.uid in mb.rows {
      UidPosition(mb, c.uid);
      RemovalShifts(mb, Apply(mb, c), SequenceNumber(mb, c.uid) - 1);
    }
  }

  lemma StepKeepsReplica(id: int, mb: Mailbox, c: Change, snap: Snapshot)
    requires snap == Snapshot(mb.account, id, |Uids(mb)|) && AutoUid(c)
    ensures Kept(id, mb, c, snap)
  {
    match c
    case Put(_, _, _, _, _) => InsertKept(id, mb, c, snap);
    case Copied(_) => InsertKept(id, mb, c, snap);
    case Flagged(_, _) => FlagKept(id, mb, c, snap);
    case Removed(_) => RemovalKept(id, mb, c, snap);
  }

  /** A whole IDLE: the client's list after the last change, replaying line by line. */
  function Follow(id: int, mb: Mailbox, cs: seq<Change>, snap: Snapshot, client: seq<Entry>): Option<seq<Entry>>
    decreases |cs|
  {
    if cs == [] then Some(client) else
      var after := Apply(mb, cs[0]);
      var (line, snap') := Deliver(id, mb, cs[0], snap);
      match Receive(client, line, Listing(after))
      case None => None
      case Some(next) => Follow(id, after, cs[1..], snap', next)
  }

  lemma {:induction false} IdleReplica(id: int, mb: Mailbox, cs: seq<Change>)
    requires forall i :: 0 <= i < |cs| ==> AutoUid(cs[i])
    ensures Follow(id, mb, cs, Snapshot(mb.account, id, |Uids(mb)|), Listing(mb)) == Some(Listing(Run(mb, cs)))
    decreases |cs|
  {
    if cs != [] {
      StepKeepsReplica(id, mb, cs[0], Snapshot(mb.account, id, |Uids(mb)|));
      IdleReplica(id, Apply(mb, cs[0]), cs[1..]);
    }
  }

  /** An event names the row that changed, by UID and by its position in the list that still or
      already has it, with the flags the row now carries. */
  lemma EventDescribesChange(id: int, mb: Mailbox, c: Change)
    ensures Published(id, mb, c) == None <==> (c.Flagged? || c.Removed?) && c.uid !in mb.rows
    ensures Published(id, mb, c).Some? ==>
      var e, list := Published(id, mb, c).value, if c.Removed? then mb else Apply(mb, c);
      && e.account == mb.account && e.mailbox == id && e.localUid.Some? && e.localUid.value in list.rows
      && e.sequenceNumber.Some? && 1 <= e.sequenceNumber.value <= |Uids(list)|
      && Uids(list)[e.sequenceNumber.value - 1] == e.localUid.value
      && (!c.Removed? ==> e.flags == list.rows[e.localUid.value].flags)
  {
    hide Ascend, SequenceNumber;
    if Published(id, mb, c).Some? {
      UidPosition(if c.Removed? then mb else Apply(mb, c), Published(id, mb, c).value.localUid.value);
    }
  }

  // ---------- other mailboxes ----------

  /** An event of another account or mailbox causes no line and leaves the session as it was. */
  lemma ForeignEventIgnored(snap: Snapshot, live: Mailbox, e: Event)
    requires e.account != snap.account || e.mailbox != snap.mailbox
    ensures Notify(snap, live, e) == (None, snap)
  {}

  /** After an event of its own mailbox the session remembers the live count; an EXPUNGE that no
      delete explains counts from the end how many messages are missing. */
  lemma CountNeverDrifts(snap: Snapshot, live: Mailbox, e: Event)
    requires e.account == snap.account && e.mailbox == snap.mailbox
    ensures var (line, after) := Notify(snap, live, e);
      && after == snap.(messages := |Uids(live)|)
      && (line == None ==> snap.messages == |Uids(live)|)
      && (line.Some? && line.value.Exists? ==> line.value.count == |Uids(live)| > snap.messages)
      && (line.Some? && line.value.Expunged? && e.detail != DeleteMessage ==>
            line.value.number + |Uids(live)| == snap.messages)
  {}

  /** One change to one of several mailboxes, and what the session that selected `id` makes of it. */
  datatype Step = Step(mailbox: int, change: Change)

  function Changed(boxes: map<int, Mailbox>, s: Step): map<int, Mailbox> {
    if s.mailbox in boxes then boxes[s.mailbox := Apply(boxes[s.mailbox], s.change)] else boxes
  }

  function Heard(id: int, boxes: map<int, Mailbox>, s: Step, snap: Snapshot): (Option<Line>, Snapshot)
    requires id in boxes
  {
    if s.mailbox !in boxes then (None, snap)
    else match Published(s.mailbox, boxes[s.mailbox], s.change)
      case None => (None, snap)
      case Some(e) => Notify(snap, Changed(boxes, s)[id], e)
  }

  function After(boxes: map<int, Mailbox>, steps: seq<Step>): map<int, Mailbox>
    decreases |steps|
  {
    if steps == [] then boxes else After(Changed(boxes, steps[0]), steps[1..])
  }

  /** A client of mailbox `id` replaying its lines while all mailboxes change. */
  function FollowOne(id: int, boxes: map<int, Mailbox>, steps: seq<Step>, snap: Snapshot, client: seq<Entry>): Option<seq<Entry>>
    requires id in boxes
    decreases |steps|
  {
    if steps == [] then Some(client)
    else
      var boxes' := Changed(boxes, steps[0]);
      var (line, snap') := Heard(id, boxes, steps[0], snap);
      match Receive(client, line, Listing(boxes'[id]))
      case None => None
      case Some(next) => FollowOne(id, boxes', steps[1..], snap', next)
  }

  lemma OtherBoxSilent(id: int, boxes: map<int, Mailbox>, s: Step, snap: Snapshot)
    requires id in boxes && s.mailbox != id && snap.mailbox == id
    ensures Heard(id, boxes, s, snap) == (None, snap) && Changed(boxes, s)[id] == boxes[id]
  {
    hide Notify;
    if s.mailbox in boxes {
      var e := Published(s.mailbox, boxes[s.mailbox], s.change);
      if e.Some? { ForeignEventIgnored(snap, Changed(boxes, s)[id], e.value); }
    }
  }

  /** Whatever happens to other mailboxes and accounts in between, a client following one mailbox
      never meets a bad number and ends with that mailbox's list. */
  lemma {:induction false} ReplicaAmongMailboxes(id: int, boxes: map<int, Mailbox>, steps: seq<Step>)
    requires id in boxes && forall i :: 0 <= i < |steps| && steps[i].mailbox == id ==> AutoUid(steps[i].change)
    ensures id in After(boxes, steps)
    ensures FollowOne(id, boxes, steps, Snapshot(boxes[id].account, id, |Uids(boxes[id])|), Listing(boxes[id]))
      == Some(Listing(After(boxes, steps)[id]))
    decreases |steps|
  {
    hide Notify, Receive, Published, Listing, Apply, Ascend;
    if steps != [] {
      var s, snap := steps[0], Snapshot(boxes[id].account, id, |Uids(boxes[id])|);
      if s.mailbox == id {
        StepKeepsReplica(id, boxes[id], s.change, snap);
      } else {
        OtherBoxSilent(id, boxes, s, snap);
        NoLine(Listing(boxes[id]));
      }
      ReplicaAmongMailboxes(id, Changed(boxes, s), steps[1..]);
    }
  }

  lemma NoLine(client: seq<Entry>)
    ensures Receive(client, None, client) == Some(client)
  {}

  ghost predicate SameEntry(mb: Mailbox, c: Change)
    requires c.Put?
  {
    c.uid in mb.rows && mb.rows[c.uid].messageId == c.messageId && mb.rows[c.uid].flags == c.flags
  }

  /** A row written under a chosen UID keeps the replica exactly when the UID is beyond every
      live one, or the write changes neither message nor flags of a live one. */
  lemma ChosenUidReplicaIff(id: int, mb: Mailbox, c: Change, snap: Snapshot)
    requires snap == Snapshot(mb.account, id, |Uids(mb)|) && c.Put? && c.uid != 0
    ensures var after, (line, _) := Apply(mb, c), Deliver(id, mb, c, snap);
      Receive(Listing(mb), line, Listing(after)) == Some(Listing(after))
      <==> (forall u :: u in mb.rows ==> u < c.uid) || SameEntry(mb, c)
  {
    hide Ascend, EntryOf, SequenceNumber;
    var after := Apply(mb, c);
    if forall u :: u in mb.rows ==> u < c.uid {
      InsertAppends(mb, after, c.uid);
      ReceiveAppend(Listing(mb), Listing(after));
    } else if c.uid in mb.rows {
      OverwriteUnseen(mb, c);
    } else {
      InsertInside(mb, after, c.uid);
    }
  }

  /** Overwriting a live UID causes no line. */
  lemma OverwriteUnseen(mb: Mailbox, c: Change)
    requires c.Put? && c.uid != 0 && c.uid in mb.rows
    ensures Uids(Apply(mb, c)) == Uids(mb)
    ensures Listing(Apply(mb, c)) == Listing(mb) <==> SameEntry(mb, c)
  {
    var after := Apply(mb, c);
    assert after.rows.Keys == mb.rows.Keys;
    AscendSpec(mb.rows.Keys);
    assert c.uid in Uids(mb);
    var k :| 0 <= k < |Uids(mb)| && Uids(mb)[k] == c.uid;
    assert Listing(after)[k] == Listing(mb)[k] <==> SameEntry(mb, c);
    if SameEntry(mb, c) {
      forall i | 0 <= i < |Uids(mb)| ensures Listing(after)[i] == Listing(mb)[i] {
        assert Uids(mb)[i] in Uids(mb);
      }
    }
  }

  /** A new UID below a live one is announced as if it came last. */
  lemma InsertInside(mb: Mailbox, after: Mailbox, uid: int)
    requires uid !in mb.rows && after.rows.Keys == mb.rows.Keys + {uid}
    requires exists u :: u in mb.rows && u > uid
    ensures |Listing(after)| == |Listing(mb)| + 1
    ensures Listing(after)[..|Listing(mb)|] != Listing(mb)
  {
    AscendSpec(after.rows.Keys);
    var k := FindUid(after, uid);
    AscendRemove(after.rows.Keys, k);
    assert after.rows.Keys - {uid} == mb.rows.Keys;
    var u :| u in mb.rows && u > uid;
    var j := FindUid(after, u);
    InsideDiffers(Uids(after), k, j);
    assert Listing(after)[k].uid == Uids(after)[k] && Listing(mb)[k].uid == Uids(mb)[k];
    assert Listing(after)[..|Listing(mb)|][k] == Listing(after)[k];
  }

  lemma FindUid(mb: Mailbox, uid: int) returns (k: nat)
    requires uid in mb.rows
    ensures k < |Uids(mb)| && Uids(mb)[k] == uid
  {
    UidPosition(mb, uid);
    k := SequenceNumber(mb, uid) - 1;
  }

  lemma InsideDiffers(uids: seq<int>, k: nat, j: nat)
    requires Ascending(IntLess, uids) && k < |uids| && j < |uids| && uids[k] < uids[j]
    ensures k + 1 < |uids| && RemoveAt(uids, k)[k] != uids[k]
  {
    assert j < k ==> IntLess(uids[j], uids[k]);
    assert IntLess(uids[k], uids[k + 1]);
  }
}
