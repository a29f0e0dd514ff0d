/**
 What THREAD=REFERENCES means, in terms of the messages' header fields alone: which message
 replies to which, when that has no cycles, and where each message belongs.
 */
module ThreadMeaning {
  import opened Wrappers
  import opened Ordering
  import opened Threads
  import opened ThreadForest

  /** Message `i` replies to message `j`: the last id in its References header, or without that
      header the last one in In-Reply-To, is the Message-ID of `j`, another message. */
  ghost predicate Replies(ms: seq<ThreadMessage>, i: nat, j: nat) {
    && i < |ms| && j < |ms| && ms[i].messageId.Some? && ms[j].messageId.Some? && ms[i].messageId != ms[j].messageId
    && if |ms[i].references| > 0 then ms[i].references[|ms[i].references| - 1] == ms[j].messageId.value
       else |ms[i].inReplyTo| > 0 && ms[i].inReplyTo[|ms[i].inReplyTo| - 1] == ms[j].messageId.value
  }

  ghost predicate DistinctIds(ms: seq<ThreadMessage>) {
    forall i, j :: 0 <= i < j < |ms| && ms[i].messageId.Some? && ms[j].messageId.Some? ==> ms[i].messageId != ms[j].messageId
  }

  /** Replies can be ranked above what they reply to. */
  ghost predicate WellFounded(ms: seq<ThreadMessage>) {
    exists rank: seq<nat> :: Ranked(ms, rank)
  }

  ghost predicate Ranked(ms: seq<ThreadMessage>, rank: seq<nat>) {
    |rank| == |ms| && forall i: nat, j: nat :: Replies(ms, i, j) ==> rank[i] > rank[j]
  }

  /** Where message `i` belongs: under the message it replies to, or on top. */
  ghost predicate Belongs(ms: seq<ThreadMessage>, i: nat, p: Place) {
    && i < |ms| && p.uid == ms[i].uid && p.subject == ms[i].subject && p.date == ms[i].date
    && (forall j: nat :: Replies(ms, i, j) ==> p.parent == Some(ms[j].uid))
    && ((forall j: nat :: !Replies(ms, i, j)) ==> p.parent == None)
  }

  /** The forest holds the messages, each once and where it belongs. */
  ghost predicate HoldsEach(ms: seq<ThreadMessage>, forest: seq<Node>) {
    exists places: seq<Place> ::
      && |places| == |ms| && (forall i :: 0 <= i < |ms| ==> Belongs(ms, i, places[i]))
      && Places(forest, None) == multiset(places)
  }

  // ---------- the code's links are the replies ----------

  lemma {:induction false} IdsOf(ms: seq<ThreadMessage>, id: string)
    ensures id in Ids(ms) <==> exists i :: 0 <= i < |ms| && ms[i].messageId == Some(id)
  {
    if ms != [] {
      var front := ms[..|ms| - 1];
      IdsOf(front, id);
      if i :| 0 <= i < |ms| && ms[i].messageId == Some(id) {
        assert i < |ms| - 1 ==> front[i].messageId == Some(id);
      }
      if i :| 0 <= i < |front| && front[i].messageId == Some(id) {
        assert ms[i].messageId == Some(id);
      }
    }
  }

  lemma {:induction false} DistinctNoRepeat(ms: seq<ThreadMessage>)
    requires DistinctIds(ms)
    ensures NoRepeat(Ids(ms))
  {
    if ms != [] {
      var front, m := ms[..|ms| - 1], ms[|ms| - 1];
      DistinctNoRepeat(front);
      if m.messageId.Some? {
        IdsOf(front, m.messageId.value);
        NoRepeatSnoc(Ids(front), m.messageId.value);
      }
    }
  }

  /** A link in the code's graph is a reply, and the other way round. */
  lemma LinkIsReply(ms: seq<ThreadMessage>, i: nat, j: nat)
    requires DistinctIds(ms) && i < |ms| && j < |ms| && ms[i].messageId.Some? && ms[j].messageId.Some?
    ensures Replies(ms, i, j) <==> HasLink(ms[i], Nodes(ms)) && ChosenParent(ms[i]) == ms[j].messageId
  {
    hide Nodes, Ids;
    IdsAreNodes(ms);
    IdsOf(ms, ms[j].messageId.value);
  }

  lemma LinkHasReply(ms: seq<ThreadMessage>, i: nat) returns (j: nat)
    requires DistinctIds(ms) && i < |ms| && HasLink(ms[i], Nodes(ms))
    ensures Replies(ms, i, j) && ChosenParent(ms[i]) == ms[j].messageId
  {
    hide Nodes, Ids;
    IdsAreNodes(ms);
    var parent := ChosenParent(ms[i]).value;
    IdsOf(ms, parent);
    j :| 0 <= j < |ms| && ms[j].messageId == Some(parent);
    LinkIsReply(ms, i, j);
  }

  // ---------- cycles ----------

  lemma {:induction false} RankedEnds(ms: seq<ThreadMessage>, rank: seq<nat>, i: nat)
    requires DistinctIds(ms) && Ranked(ms, rank) && i < |ms| && ms[i].messageId.Some?
    ensures Ends(GraphOf(ms).parents, ms[i].messageId.value)
    decreases rank[i]
  {
    hide Nodes, Ids, Parents, Children, Ends;
    DistinctNoRepeat(ms);
    ParentIs(ms, Nodes(ms), i);
    var id, parents := ms[i].messageId.value, GraphOf(ms).parents;
    if id in parents {
      var j := LinkHasReply(ms, i);
      RankedEnds(ms, rank, j);
      RankStep(parents, id);
    } else {
      TopRank(parents, id);
    }
  }

  ghost function RankOf(ms: seq<ThreadMessage>, i: nat): nat
    requires i < |ms|
  {
    var parents := GraphOf(ms).parents;
    if ms[i].messageId.Some? && Ends(parents, ms[i].messageId.value) then Rank(parents, ms[i].messageId.value) else 0
  }

  lemma AcyclicRanks(ms: seq<ThreadMessage>)
    requires DistinctIds(ms) && Acyclic(GraphOf(ms))
    ensures WellFounded(ms)
  {
    hide Nodes, Ids, Parents, Children, Ends, Rank;
    var rank := seq(|ms|, i requires 0 <= i < |ms| => RankOf(ms, i));
    DistinctNoRepeat(ms);
    forall i: nat, j: nat | Replies(ms, i, j) ensures rank[i] > rank[j] {
      LinkIsReply(ms, i, j);
      ParentIs(ms, Nodes(ms), i);
      KnownInGraph(ms, i);
      KnownInGraph(ms, j);
      RankStep(GraphOf(ms).parents, ms[i].messageId.value);
    }
    assert Ranked(ms, rank);
  }

  lemma WellFoundedIsAcyclic(ms: seq<ThreadMessage>)
    requires DistinctIds(ms)
    ensures WellFounded(ms) <==> Acyclic(GraphOf(ms))
  {
    hide Nodes, Ids, Parents, Children, Ends, Ranked;
    if WellFounded(ms) {
      var rank: seq<nat> :| Ranked(ms, rank);
      forall id | id in GraphOf(ms).nodes ensures Ends(GraphOf(ms).parents, id) {
        IdsAreNodes(ms);
        IdsOf(ms, id);
        var i :| 0 <= i < |ms| && ms[i].messageId == Some(id);
        RankedEnds(ms, rank, i);
      }
    }
    if Acyclic(GraphOf(ms)) { AcyclicRanks(ms); }
  }

  // ---------- places ----------

  lemma PlaceBelongs(ms: seq<ThreadMessage>, i: nat)
    requires DistinctIds(ms) && i < |ms|
    ensures Belongs(ms, i, MessagePlace(ms[i], Nodes(ms)))
    ensures forall p :: Belongs(ms, i, p) ==> p == MessagePlace(ms[i], Nodes(ms))
  {
    hide Nodes, Ids;
    DistinctNoRepeat(ms);
    forall j: nat | Replies(ms, i, j) ensures MessagePlace(ms[i], Nodes(ms)).parent == Some(ms[j].uid) {
      LinkIsReply(ms, i, j);
      NodeIs(ms, j);
    }
    if HasLink(ms[i], Nodes(ms)) {
      var j := LinkHasReply(ms, i);
      assert Replies(ms, i, j);
    }
  }

  function PlacesIn(ms: seq<ThreadMessage>, nodes: map<string, Node>): (r: seq<Place>)
    ensures |r| == |ms| && forall i :: 0 <= i < |r| ==> r[i] == MessagePlace(ms[i], nodes)
  {
    seq(|ms|, i requires 0 <= i < |ms| => MessagePlace(ms[i], nodes))
  }

  lemma {:induction false} ExpectedIs(ms: seq<ThreadMessage>, nodes: map<string, Node>)
    ensures Expected(ms, nodes) == multiset(PlacesIn(ms, nodes))
  {
    hide MessagePlace;
    if ms != [] {
      var front := ms[..|ms| - 1];
      ExpectedIs(front, nodes);
      assert PlacesIn(ms, nodes) == PlacesIn(front, nodes) + [MessagePlace(ms[|ms| - 1], nodes)];
    }
  }

  lemma HoldsExpected(ms: seq<ThreadMessage>, forest: seq<Node>)
    requires DistinctIds(ms)
    ensures HoldsEach(ms, forest) <==> Places(forest, None) == Expected(ms, Nodes(ms))
  {
    hide Belongs, Places, Expected, Nodes, MessagePlace;
    var all := PlacesIn(ms, Nodes(ms));
    ExpectedIs(ms, Nodes(ms));
    forall i | 0 <= i < |ms|
      ensures Belongs(ms, i, all[i]) && forall p :: Belongs(ms, i, p) ==> p == all[i]
    {
      PlaceBelongs(ms, i);
    }
    if HoldsEach(ms, forest) {
      var places: seq<Place> :|
        && |places| == |ms| && (forall i :: 0 <= i < |ms| ==> Belongs(ms, i, places[i]))
        && Places(forest, None) == multiset(places);
      assert places == all;
    }
  }

  /** Siblings in order of date, then subject, then UID, at every level. */
  ghost predicate InOrder(nodes: seq<Node>) {
    && (forall i, j :: 0 <= i < j < |nodes| ==>
          var a, b := nodes[i], nodes[j];
          a.date < b.date ||
          (a.date == b.date && (StringLess(a.subject, b.subject) || (a.subject == b.subject && a.uid <= b.uid))))
    && (forall i :: 0 <= i < |nodes| ==> InOrder(nodes[i].children))
  }

  lemma {:induction false} SortedIsInOrder(nodes: seq<Node>)
    requires Sorted(nodes)
    ensures InOrder(nodes)
    decreases nodes
  {
    forall i, j | 0 <= i < j < |nodes|
      ensures var a, b := nodes[i], nodes[j];
        a.date < b.date ||
        (a.date == b.date && (StringLess(a.subject, b.subject) || (a.subject == b.subject && a.uid <= b.uid)))
    {
      StringLessTotal(nodes[i].subject, nodes[j].subject);
    }
    forall i | 0 <= i < |nodes| ensures InOrder(nodes[i].children) { SortedIsInOrder(nodes[i].children); }
  }

  /** With distinct Message-IDs, the forest holds every message exactly once, directly under the
      message it replies to, if and only if no chain of replies comes back to itself; its levels
      are in order in any case. */
  lemma ForestMeaning(ms: seq<ThreadMessage>)
    requires DistinctIds(ms)
    ensures HoldsEach(ms, Threaded(ms)) <==> WellFounded(ms)
    ensures InOrder(Threaded(ms))
  {
    hide HoldsEach, WellFounded, Threaded, Places, Expected, Nodes, GraphOf, Acyclic, Sorted, Ids, InOrder;
    DistinctNoRepeat(ms);
    ForestIffAcyclic(ms);
    WellFoundedIsAcyclic(ms);
    HoldsExpected(ms, Threaded(ms));
    SortedIsInOrder(Threaded(ms));
  }
}
