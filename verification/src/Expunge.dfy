/**
 EXPUNGE and UID EXPUNGE (crates/imap-server/src/imap.rs): the untagged lines a client
 receives let it replay the removals (section 7.4.1 of RFC 3501).
 */
module Expunge {
  import opened Wrappers
  import opened Ordering
  import opened Text
  import opened MailboxStore
  import NumberSet

  predicate ContainsDeleted(flags: seq<string>) {
    exists i :: 0 <= i < |flags| && EqIgnoreCase(flags[i], "\\Deleted")
  }

  /** What a client does with each `* n EXPUNGE`: drop entry n, or give up on a bad number. */
  function Replay(view: seq<int>, lines: seq<int>): Option<seq<int>>
    decreases |lines|
  {
    if lines == [] then Some(view)
    else if 1 <= lines[0] <= |view| then Replay(RemoveAt(view, lines[0] - 1), lines[1..])
    else None
  }

  lemma {:induction false} ReplaySnoc(view: seq<int>, lines: seq<int>, line: int)
    requires Replay(view, lines).Some?
    ensures Replay(view, lines + [line]) ==
      var v := Replay(view, lines).value;
      if 1 <= line <= |v| then Some(RemoveAt(v, line - 1)) else None
    decreases |lines|
  {
    if lines == [] {
      assert lines + [line] == [line] && [line][1..] == [];
    } else {
      assert (lines + [line])[1..] == lines[1..] + [line];
      ReplaySnoc(RemoveAt(view, lines[0] - 1), lines[1..], line);
    }
  }

  /** Positions in ascending order, each naming an entry of the listing. */
  ghost predicate Positions(mb: Mailbox, targets: seq<int>) {
    && Ascending(IntLess, targets)
    && forall i :: 0 <= i < |targets| ==> 1 <= targets[i] <= |Uids(mb)|
  }

  ghost function ChosenUids(mb: Mailbox, targets: seq<int>): set<int>
    requires Positions(mb, targets)
  {
    set i | 0 <= i < |targets| :: Uids(mb)[targets[i] - 1]
  }

  function Reverse(s: seq<int>): seq<int> {
    if s == [] then [] else Reverse(s[1..]) + [s[0]]
  }

  /** The server's list once the targets from the `i`-th on are gone. */
  ghost function ListWithout(mb: Mailbox, targets: seq<int>, i: nat): seq<int>
    requires Positions(mb, targets) && i <= |targets|
  {
    Ascend(mb.rows.Keys - ChosenUids(mb, targets[i..]))
  }

  ghost function Front(mb: Mailbox, targets: seq<int>, i: nat): int
    requires i <= |targets|
  {
    if i == |targets| then |Uids(mb)| else targets[i] - 1
  }

  /** Removing entry `n` of a list that still agrees with `uids` that far. */
  lemma RemoveInFront(keys: set<int>, uids: seq<int>, front: nat, n: nat)
    requires 1 <= n <= front <= |uids| && front <= |Ascend(keys)|
    requires Ascend(keys)[..front] == uids[..front]
    ensures Ascend(keys - {uids[n - 1]}) == RemoveAt(Ascend(keys), n - 1)
    ensures RemoveAt(Ascend(keys), n - 1)[..n - 1] == uids[..n - 1]
  {
    var list := Ascend(keys);
    assert list[n - 1] == list[..front][n - 1] == uids[n - 1];
    AscendRemove(keys, n - 1);
    assert list[..n - 1] == list[..front][..n - 1] == uids[..n - 1];
  }

  /** The list without the targets from the `i`-th on agrees with the full one up to there. */
  ghost predicate FrontKept(mb: Mailbox, targets: seq<int>, i: nat)
    requires Positions(mb, targets) && i <= |targets|
  {
    && 0 <= Front(mb, targets, i) <= |ListWithout(mb, targets, i)|
    && ListWithout(mb, targets, i)[..Front(mb, targets, i)] == Uids(mb)[..Front(mb, targets, i)]
  }

  /** Removing one more target takes away the entry at its position. */
  lemma OneMoreGone(mb: Mailbox, targets: seq<int>, i: nat)
    requires Positions(mb, targets) && i < |targets| && FrontKept(mb, targets, i + 1)
    ensures targets[i] <= |ListWithout(mb, targets, i + 1)|
    ensures ListWithout(mb, targets, i) == RemoveAt(ListWithout(mb, targets, i + 1), targets[i] - 1)
    ensures FrontKept(mb, targets, i)
  {
    hide Ascend, ChosenUids;
    var n := targets[i];
    assert i + 1 < |targets| ==> IntLess(n, targets[i + 1]);
    var keys := mb.rows.Keys - ChosenUids(mb, targets[i + 1..]);
    RemoveInFront(keys, Uids(mb), Front(mb, targets, i + 1), n);
    ChosenStep(mb, targets, i);
    assert mb.rows.Keys - ChosenUids(mb, targets[i..]) == keys - {Uids(mb)[n - 1]};
  }

  /** After each line, announced highest position first, the client's list is the server's
      list of that moment; entries below the last announced position have not moved. */
  lemma {:induction false} ReplayInStep(mb: Mailbox, targets: seq<int>, i: nat)
    requires Positions(mb, targets) && i <= |targets|
    ensures Replay(Uids(mb), Reverse(targets[i..])) == Some(ListWithout(mb, targets, i))
    ensures FrontKept(mb, targets, i)
    decreases |targets| - i
  {
    hide Ascend, Front, RemoveAt;
    if i == |targets| {
      NothingGone(mb, targets);
    } else {
      hide FrontKept, ListWithout;
      ReplayInStep(mb, targets, i + 1);
      OneMoreGone(mb, targets, i);
      assert targets[i..][1..] == targets[i + 1..];
      ReplaySnoc(Uids(mb), Reverse(targets[i + 1..]), targets[i]);
    }
  }

  lemma NothingGone(mb: Mailbox, targets: seq<int>)
    requires Positions(mb, targets)
    ensures ListWithout(mb, targets, |targets|) == Uids(mb) && FrontKept(mb, targets, |targets|)
  {
    assert mb.rows.Keys - ChosenUids(mb, []) == mb.rows.Keys;
  }

  lemma ChosenStep(mb: Mailbox, targets: seq<int>, i: nat)
    requires Positions(mb, targets) && i < |targets|
    ensures ChosenUids(mb, targets[i..]) == ChosenUids(mb, targets[i + 1..]) + {Uids(mb)[targets[i] - 1]}
  {
    var all, rest := targets[i..], targets[i + 1..];
    assert all[0] == targets[i];
    forall k | 0 <= k < |rest| ensures all[k + 1] == rest[k] {}
    forall k | 1 <= k < |all| ensures all[k] == rest[k - 1] {}
  }

  /** The removal loop. */
  method ExpungeTargets(mb: Mailbox, targets: seq<int>) returns (after: Mailbox, lines: seq<int>)
    requires Positions(mb, targets)
    ensures after.rows == mb.rows - ChosenUids(mb, targets)
    ensures lines == Reverse(targets)
    ensures Replay(Uids(mb), lines) == Some(Uids(after))
  {
    var uids := Uids(mb);
    after, lines := mb, [];
    var i := |targets|;
    assert ChosenUids(mb, targets[i..]) == {};
    while i > 0
      invariant 0 <= i <= |targets|
      invariant lines == Reverse(targets[i..])
      invariant after.rows == mb.rows - ChosenUids(mb, targets[i..])
    {
      i := i - 1;
      ChosenStep(mb, targets, i);
      assert targets[i..][1..] == targets[i + 1..];
      after := Delete(after, uids[targets[i] - 1]);
      lines := lines + [targets[i]];
    }
    assert targets[0..] == targets;
    ReplayInStep(mb, targets, 0);
    assert after.rows.Keys == mb.rows.Keys - ChosenUids(mb, targets);
  }

  /** Positions of rows carrying \Deleted, restricted to `uids` for UID EXPUNGE. */
  method DeletedTargets(mb: Mailbox, only: Option<seq<int>>) returns (targets: seq<int>)
    ensures Positions(mb, targets)
    ensures forall p :: p in targets <==>
      && 1 <= p <= |Uids(mb)| && Marked(mb, Uids(mb)[p - 1])
      && (only.None? || Uids(mb)[p - 1] in only.value)
  {
    var uids := Uids(mb);
    targets := [];
    for index := 0 to |uids|
      invariant Ascending(IntLess, targets)
      invariant forall p :: p in targets <==>
        1 <= p <= index && Marked(mb, uids[p - 1]) && (only.None? || uids[p - 1] in only.value)
    {
      assert forall k :: 0 <= k < |targets| ==> targets[k] in targets;
      assert uids[index] in uids;
      if Marked(mb, uids[index]) && (only.None? || uids[index] in only.value) {
        targets := targets + [index + 1];
      }
    }
    assert forall k :: 0 <= k < |targets| ==> targets[k] in targets;
  }

  predicate Marked(mb: Mailbox, uid: int) {
    uid in mb.rows && ContainsDeleted(mb.rows[uid].flags)
  }

  /** `resolve_sequence_targets`: the numbers of the set that name an entry. */
  method SequenceTargets(mb: Mailbox, sequenceSet: string) returns (targets: seq<int>)
    ensures Positions(mb, targets)
    ensures forall p :: p in targets <==> p <= |Uids(mb)| && NumberSet.Denotes(sequenceSet, |Uids(mb)|, p)
  {
    var numbers := NumberSet.ParseNumberSet(sequenceSet, |Uids(mb)|);
    targets := [];
    for i := 0 to |numbers|
      invariant Ascending(IntLess, targets)
      invariant forall p :: p in targets <==> p <= |Uids(mb)| && p in numbers[..i]
    {
      assert numbers[..i + 1] == numbers[..i] + [numbers[i]];
      assert numbers[i] in numbers;
      assert forall k :: 0 <= k < |targets| ==> targets[k] in targets;
      assert forall p :: p in numbers[..i] ==> IntLess(p, numbers[i]);
      if numbers[i] <= |Uids(mb)| {
        targets := targets + [numbers[i]];
      }
    }
    assert numbers[..|numbers|] == numbers;
    assert forall k :: 0 <= k < |targets| ==> targets[k] in targets;
  }

  /** EXPUNGE: with an argument it removes the numbered messages, flagged or not. */
  method ExpungeCommand(mb: Mailbox, argument: Option<string>) returns (after: Mailbox, lines: seq<int>)
    ensures Replay(Uids(mb), lines) == Some(Uids(after))
    ensures after.rows.Keys <= mb.rows.Keys
    ensures forall u :: u in mb.rows ==>
      if Selected(mb, argument, u) then u !in after.rows else u in after.rows && after.rows[u] == mb.rows[u]
  {
    var targets;
    if argument.Some? {
      targets := SequenceTargets(mb, argument.value);
    } else {
      targets := DeletedTargets(mb, None);
    }
    after, lines := ExpungeTargets(mb, targets);
    forall u | u in mb.rows ensures u in ChosenUids(mb, targets) <==> Selected(mb, argument, u) {
      ChosenByPosition(mb, targets, u);
      MarkedIsDeleted(mb, u);
    }
  }

  /** The message carries the flag \Deleted, in any letter case. */
  ghost predicate IsDeleted(mb: Mailbox, u: int) {
    u in mb.rows && exists i :: 0 <= i < |mb.rows[u].flags| && AsciiLower(mb.rows[u].flags[i]) == "\\deleted"
  }

  lemma MarkedIsDeleted(mb: Mailbox, u: int)
    ensures Marked(mb, u) <==> IsDeleted(mb, u)
  {
    assert AsciiLower("\\Deleted") == "\\deleted";
  }

  ghost predicate Selected(mb: Mailbox, argument: Option<string>, u: int) {
    if argument.Some? then NumberSet.Denotes(argument.value, |Uids(mb)|, SequenceNumber(mb, u))
    else IsDeleted(mb, u)
  }

  /** UID EXPUNGE: the flagged messages among the named UIDs. */
  method UidExpungeCommand(mb: Mailbox, uidSet: string) returns (after: Mailbox, lines: seq<int>)
    ensures Replay(Uids(mb), lines) == Some(Uids(after))
    ensures after.rows.Keys <= mb.rows.Keys
    ensures forall u :: u in mb.rows ==>
      if IsDeleted(mb, u) && NumberSet.Denotes(uidSet, MaxUid(mb), u)
      then u !in after.rows else u in after.rows && after.rows[u] == mb.rows[u]
  {
    var uids := NumberSet.ParseNumberSet(uidSet, MaxUid(mb));
    var targets := DeletedTargets(mb, Some(uids));
    after, lines := ExpungeTargets(mb, targets);
    forall u | u in mb.rows
      ensures u in ChosenUids(mb, targets) <==> IsDeleted(mb, u) && NumberSet.Denotes(uidSet, MaxUid(mb), u)
    {
      ChosenByPosition(mb, targets, u);
      MarkedIsDeleted(mb, u);
    }
  }

  /** A live UID is chosen exactly when its sequence number is a target. */
  lemma ChosenByPosition(mb: Mailbox, targets: seq<int>, u: int)
    requires Positions(mb, targets) && u in mb.rows
    ensures 1 <= SequenceNumber(mb, u) <= |Uids(mb)| && Uids(mb)[SequenceNumber(mb, u) - 1] == u
    ensures u in ChosenUids(mb, targets) <==> SequenceNumber(mb, u) in targets
  {
    hide Ascend, SequenceNumber;
    AscendSpec(mb.rows.Keys);
    assert u in Uids(mb);
    var k :| 0 <= k < |Uids(mb)| && Uids(mb)[k] == u;
    SequenceNumberIsPosition(mb, k);
    if u in ChosenUids(mb, targets) {
      var i :| 0 <= i < |targets| && u == Uids(mb)[targets[i] - 1];
      SequenceNumberIsPosition(mb, targets[i] - 1);
      assert targets[i] == k + 1;
    }
    if SequenceNumber(mb, u) in targets {
      var i :| 0 <= i < |targets| && targets[i] == k + 1;
    }
  }
}
