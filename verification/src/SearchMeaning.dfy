/**
 What SEARCH criteria mean on a message (crates/imap-server/src/imap.rs), and that
 flattening a term list keeps its meaning.
 */
module SearchMeaning {
  import opened Wrappers
  import opened Text
  import opened SearchQuery

  // ---------- evaluation ----------

  /** A stored message as the evaluator sees it: day numbers for dates, header fields as the
      text their JSON value prints to. */
  datatype View = View(uid: int, flags: seq<string>, keywords: seq<string>, size: int, created: int,
                       internalDay: Option<int>, sentDay: Option<int>, headers: map<string, string>) {
    function Arrived(): int { internalDay.GetOr(created) }

    function Sent(): int { sentDay.GetOr(Arrived()) }

    /** `size_octets as u64`. */
    function Octets(): int { if size < 0 then size + U64_MAX + 1 else size }
  }

  predicate HasFlag(values: seq<string>, needle: string) {
    exists i :: 0 <= i < |values| && EqIgnoreCase(values[i], needle)
  }

  predicate ContainsText(hay: string, needle: string) {
    exists i :: 0 <= i <= |hay| && needle <= hay[i..]
  }

  function HeaderField(field: string): string {
    match field
    case "reply-to" => "reply_to"
    case "message-id" => "message_id"
    case _ => field
  }

  predicate HeaderMatches(v: View, filter: (string, string)) {
    var field := HeaderField(filter.0);
    field in v.headers && ContainsText(AsciiLower(v.headers[field]), AsciiLower(filter.1))
  }

  predicate HasAll(values: seq<string>, needles: seq<string>) {
    forall i :: 0 <= i < |needles| ==> HasFlag(values, needles[i])
  }

  predicate HasNone(values: seq<string>, needles: seq<string>) {
    forall i :: 0 <= i < |needles| ==> !HasFlag(values, needles[i])
  }

  predicate HeadersMatch(v: View, filters: seq<(string, string)>) {
    forall i :: 0 <= i < |filters| ==> HeaderMatches(v, filters[i])
  }

  predicate UidMatches(v: View, q: Query) { q.uidFilter.Some? ==> UidIn(q.uidFilter.value, v.uid) }

  predicate DaysMatch(day: int, before: Option<int>, on: Option<int>, since: Option<int>) {
    && (before.Some? ==> day < before.value)
    && (on.Some? ==> day == on.value)
    && (since.Some? ==> day >= since.value)
  }

  predicate FlagsMatch(v: View, q: Query) {
    && HasAll(v.flags, q.requiredFlags) && HasNone(v.flags, q.forbiddenFlags)
    && HasAll(v.keywords, q.requiredKeywords) && HasNone(v.keywords, q.forbiddenKeywords)
  }

  predicate SizeMatches(v: View, q: Query) {
    && (q.largerThan.Some? ==> v.Octets() > q.largerThan.value)
    && (q.smallerThan.Some? ==> v.Octets() < q.smallerThan.value)
  }

  predicate DatesMatch(v: View, q: Query) {
    && DaysMatch(v.Arrived(), q.before, q.on, q.since)
    && DaysMatch(v.Sent(), q.sentBefore, q.sentOn, q.sentSince)
  }

  /** `matches_search_leaf`: text and recency are judged elsewhere. */
  predicate MatchesLeaf(v: View, q: Query) {
    UidMatches(v, q) && FlagsMatch(v, q) && HeadersMatch(v, q.headerFilters) && SizeMatches(v, q) && DatesMatch(v, q)
  }

  predicate MatchesExpr(v: View, e: Expr) {
    match e
    case Leaf(q) => MatchesLeaf(v, q)
    case And(terms) => forall i :: 0 <= i < |terms| ==> MatchesExpr(v, terms[i])
    case Or(a, b) => MatchesExpr(v, a) || MatchesExpr(v, b)
    case Not(a) => !MatchesExpr(v, a)
  }

  /** `matches_search_view`. */
  predicate Matches(v: View, s: Search) {
    MatchesLeaf(v, s.flat) && (s.expr.Some? ==> MatchesExpr(v, s.expr.value))
  }

  // ---------- flattening ----------

  /** Two fragments the merge can join without changing their meaning: no two different days
      under ON or SENTON, and no two different UID sets. */
  ghost predicate Joinable(a: Query, b: Query) {
    && (a.on.Some? && b.on.Some? ==> a.on == b.on)
    && (a.sentOn.Some? && b.sentOn.Some? ==> a.sentOn == b.sentOn)
    && (a.uidFilter.Some? && b.uidFilter.Some? ==>
          forall u :: UidIn(a.uidFilter.value, u) <==> UidIn(b.uidFilter.value, u))
  }

  lemma AllConcat(values: seq<string>, a: seq<string>, b: seq<string>)
    ensures HasAll(values, a + b) <==> HasAll(values, a) && HasAll(values, b)
    ensures HasNone(values, a + b) <==> HasNone(values, a) && HasNone(values, b)
  {
    hide HasFlag;
    var c := a + b;
    if HasAll(values, c) || HasNone(values, c) {
      assert forall i :: 0 <= i < |a| ==> c[i] == a[i];
      assert forall i :: 0 <= i < |b| ==> c[|a| + i] == b[i];
    }
  }

  lemma HeadersConcat(v: View, a: seq<(string, string)>, b: seq<(string, string)>)
    ensures HeadersMatch(v, a + b) <==> HeadersMatch(v, a) && HeadersMatch(v, b)
  {
    hide HeaderMatches;
    var c := a + b;
    if HeadersMatch(v, c) {
      assert forall i :: 0 <= i < |a| ==> c[i] == a[i];
      assert forall i :: 0 <= i < |b| ==> c[|a| + i] == b[i];
    }
  }

  lemma UidConcat(a: seq<UidRange>, b: seq<UidRange>, u: int)
    ensures UidIn(a + b, u) <==> UidIn(a, u) || UidIn(b, u)
  {
    var c := a + b;
    if UidIn(a, u) { var i :| 0 <= i < |a| && a[i].lo <= u <= a[i].hi; assert c[i] == a[i]; }
    if UidIn(b, u) { var i :| 0 <= i < |b| && b[i].lo <= u <= b[i].hi; assert c[|a| + i] == b[i]; }
  }

  lemma DaysJoin(day: int, b1: Option<int>, o1: Option<int>, s1: Option<int>, b2: Option<int>, o2: Option<int>, s2: Option<int>)
    requires o1.Some? && o2.Some? ==> o1 == o2
    ensures DaysMatch(day, Earliest(b1, b2), First(o1, o2), Latest(s1, s2))
       <==> DaysMatch(day, b1, o1, s1) && DaysMatch(day, b2, o2, s2)
  {}

  lemma FlagsJoin(v: View, a: Query, b: Query)
    ensures FlagsMatch(v, Merge(a, b)) <==> FlagsMatch(v, a) && FlagsMatch(v, b)
    ensures HeadersMatch(v, Merge(a, b).headerFilters) <==> HeadersMatch(v, a.headerFilters) && HeadersMatch(v, b.headerFilters)
  {
    hide HasAll, HasNone, HeadersMatch;
    AllConcat(v.flags, a.requiredFlags, b.requiredFlags);
    AllConcat(v.flags, a.forbiddenFlags, b.forbiddenFlags);
    AllConcat(v.keywords, a.requiredKeywords, b.requiredKeywords);
    AllConcat(v.keywords, a.forbiddenKeywords, b.forbiddenKeywords);
    HeadersConcat(v, a.headerFilters, b.headerFilters);
  }

  lemma BoundsAndDatesJoin(v: View, a: Query, b: Query)
    requires Joinable(a, b)
    ensures SizeMatches(v, Merge(a, b)) <==> SizeMatches(v, a) && SizeMatches(v, b)
    ensures DatesMatch(v, Merge(a, b)) <==> DatesMatch(v, a) && DatesMatch(v, b)
  {
    hide DaysMatch, Latest, Earliest, UidIn;
    DaysJoin(v.Arrived(), a.before, a.on, a.since, b.before, b.on, b.since);
    DaysJoin(v.Sent(), a.sentBefore, a.sentOn, a.sentSince, b.sentBefore, b.sentOn, b.sentSince);
    BoundsJoin(v.Octets(), a.largerThan, b.largerThan, a.smallerThan, b.smallerThan);
  }

  lemma UidsJoin(v: View, a: Query, b: Query)
    requires Joinable(a, b)
    ensures UidMatches(v, Merge(a, b)) <==> UidMatches(v, a) && UidMatches(v, b)
  {
    hide UidIn;
    if a.uidFilter.Some? && b.uidFilter.Some? { UidConcat(a.uidFilter.value, b.uidFilter.value, v.uid); }
  }

  /** Merging joinable fragments means requiring both. */
  lemma MergeMeansBoth(v: View, a: Query, b: Query)
    requires Joinable(a, b)
    ensures MatchesLeaf(v, Merge(a, b)) <==> MatchesLeaf(v, a) && MatchesLeaf(v, b)
  {
    hide Merge, Joinable, UidMatches, FlagsMatch, HeadersMatch, SizeMatches, DatesMatch;
    UidsJoin(v, a, b);
    FlagsJoin(v, a, b);
    BoundsAndDatesJoin(v, a, b);
  }

  lemma BoundsJoin(n: int, l1: Option<int>, l2: Option<int>, s1: Option<int>, s2: Option<int>)
    ensures (Latest(l1, l2).Some? ==> n > Latest(l1, l2).value) <==> (l1.Some? ==> n > l1.value) && (l2.Some? ==> n > l2.value)
    ensures (Earliest(s1, s2).Some? ==> n < Earliest(s1, s2).value) <==> (s1.Some? ==> n < s1.value) && (s2.Some? ==> n < s2.value)
  {}

  ghost predicate AllMatch(v: View, terms: seq<Expr>) {
    forall i :: 0 <= i < |terms| ==> MatchesExpr(v, terms[i])
  }

  // ---------- the three keys that do not merge by conjunction ----------

  /** The days of a list's ON keys, in the order written. */
  function OnDays(terms: seq<Expr>): seq<int> {
    if terms == [] then []
    else
      var last := terms[|terms| - 1];
      OnDays(terms[..|terms| - 1]) + if last.Leaf? && last.query.on.Some? then [last.query.on.value] else []
  }

  function SentOnDays(terms: seq<Expr>): seq<int> {
    if terms == [] then []
    else
      var last := terms[|terms| - 1];
      SentOnDays(terms[..|terms| - 1]) + if last.Leaf? && last.query.sentOn.Some? then [last.query.sentOn.value] else []
  }

  function UidSets(terms: seq<Expr>): seq<seq<UidRange>> {
    if terms == [] then []
    else
      var last := terms[|terms| - 1];
      UidSets(terms[..|terms| - 1]) + if last.Leaf? && last.query.uidFilter.Some? then [last.query.uidFilter.value] else []
  }

  /** A key without its ON, SENTON and UID part. */
  function Rest(q: Query): Query { q.(on := None, sentOn := None, uidFilter := None) }

  /** Every single key matches as far as its other parts go. */
  ghost predicate RestMatches(v: View, terms: seq<Expr>) {
    forall i :: 0 <= i < |terms| && terms[i].Leaf? ==> MatchesLeaf(v, Rest(terms[i].query))
  }

  ghost predicate FirstIs(days: seq<int>, day: int) { days != [] ==> days[0] == day }

  ghost predicate AllAre(days: seq<int>, day: int) { forall i :: 0 <= i < |days| ==> days[i] == day }

  ghost predicate SomeHolds(sets: seq<seq<UidRange>>, u: int) { exists i :: 0 <= i < |sets| && UidIn(sets[i], u) }

  ghost predicate AllHold(sets: seq<seq<UidRange>>, u: int) { forall i :: 0 <= i < |sets| ==> UidIn(sets[i], u) }

  lemma AllAreSnoc(days: seq<int>, d: int, day: int)
    ensures AllAre(days + [d], day) <==> AllAre(days, day) && d == day
  {
    var all := days + [d];
    if AllAre(all, day) {
      assert forall i :: 0 <= i < |days| ==> all[i] == days[i];
      assert all[|days|] == d;
    }
  }

  lemma SetsSnoc(sets: seq<seq<UidRange>>, s: seq<UidRange>, u: int)
    ensures AllHold(sets + [s], u) <==> AllHold(sets, u) && UidIn(s, u)
    ensures SomeHolds(sets + [s], u) <==> SomeHolds(sets, u) || UidIn(s, u)
  {
    hide UidIn;
    var all := sets + [s];
    assert all[|sets|] == s;
    assert forall i :: 0 <= i < |sets| ==> all[i] == sets[i];
  }

  lemma AllThenSome(sets: seq<seq<UidRange>>, u: int)
    requires sets != [] && AllHold(sets, u)
    ensures SomeHolds(sets, u)
  {
    hide UidIn;
    assert UidIn(sets[0], u);
  }

  lemma AllMatchSnoc(v: View, terms: seq<Expr>, last: Expr)
    ensures AllMatch(v, terms + [last]) <==> AllMatch(v, terms) && MatchesExpr(v, last)
  {
    hide MatchesExpr;
    var all := terms + [last];
    if AllMatch(v, all) {
      assert forall i :: 0 <= i < |terms| ==> all[i] == terms[i];
      assert all[|terms|] == last;
    }
  }

  lemma RestMatchesSnoc(v: View, terms: seq<Expr>, last: Expr)
    ensures RestMatches(v, terms + [last]) <==> RestMatches(v, terms) && (last.Leaf? ==> MatchesLeaf(v, Rest(last.query)))
  {
    hide MatchesLeaf, Rest;
    var all := terms + [last];
    if RestMatches(v, all) {
      assert forall i :: 0 <= i < |terms| ==> all[i] == terms[i];
      assert all[|terms|] == last;
    }
  }

  /** A key is its rest and its three special parts. */
  lemma LeafParts(v: View, q: Query)
    ensures MatchesLeaf(v, q) <==>
      && MatchesLeaf(v, Rest(q)) && UidMatches(v, q)
      && (q.on.Some? ==> q.on.value == v.Arrived()) && (q.sentOn.Some? ==> q.sentOn.value == v.Sent())
  {
    hide HasFlag, HeaderMatches, UidIn;
  }

  lemma IdentityMatches(v: View, q: Query)
    requires IsIdentity(q)
    ensures MatchesLeaf(v, q) && MatchesLeaf(v, Rest(q)) && q.on.None? && q.sentOn.None? && q.uidFilter.None?
  {}

  lemma NothingIsIdentity()
    ensures IsIdentity(NOTHING_YET) && IsIdentity(ALL)
  {}

  lemma MatchAllIgnored(v: View, q: Query)
    ensures MatchesLeaf(v, q.(matchAll := false)) <==> MatchesLeaf(v, q)
  {}

  // ---------- what each side asks for ----------

  /** What all terms together ask for. */
  lemma {:induction false} TermsAsk(v: View, terms: seq<Expr>)
    ensures AllMatch(v, terms) <==>
      && RestMatches(v, terms) && AllMatch(v, NestedPart(terms))
      && AllAre(OnDays(terms), v.Arrived()) && AllAre(SentOnDays(terms), v.Sent()) && AllHold(UidSets(terms), v.uid)
  {
    hide MatchesLeaf, Rest, UidIn;
    if terms != [] {
      var front, last := terms[..|terms| - 1], terms[|terms| - 1];
      assert terms == front + [last];
      TermsAsk(v, front);
      AllMatchSnoc(v, front, last);
      RestMatchesSnoc(v, front, last);
      if last.Leaf? {
        LeafParts(v, last.query);
        LastKeys(v, terms);
      } else {
        LastNested(terms);
        AllMatchSnoc(v, NestedPart(front), last);
      }
    }
  }

  lemma LastNested(terms: seq<Expr>)
    requires terms != [] && !terms[|terms| - 1].Leaf?
    ensures var front := terms[..|terms| - 1];
      && NestedPart(terms) == NestedPart(front) + [terms[|terms| - 1]]
      && OnDays(terms) == OnDays(front) && SentOnDays(terms) == SentOnDays(front) && UidSets(terms) == UidSets(front)
  {}

  /** How a last single key adds to the three lists. */
  lemma LastKeys(v: View, terms: seq<Expr>)
    requires terms != [] && terms[|terms| - 1].Leaf?
    ensures var front, q := terms[..|terms| - 1], terms[|terms| - 1].query;
      && NestedPart(terms) == NestedPart(front)
      && (AllAre(OnDays(terms), v.Arrived()) <==>
            AllAre(OnDays(front), v.Arrived()) && (q.on.Some? ==> q.on.value == v.Arrived()))
      && (AllAre(SentOnDays(terms), v.Sent()) <==>
            AllAre(SentOnDays(front), v.Sent()) && (q.sentOn.Some? ==> q.sentOn.value == v.Sent()))
      && (AllHold(UidSets(terms), v.uid) <==> AllHold(UidSets(front), v.uid) && UidMatches(v, q))
  {
    hide UidIn, AllAre, AllHold;
    var front, q := terms[..|terms| - 1], terms[|terms| - 1].query;
    if q.on.Some? { AllAreSnoc(OnDays(front), q.on.value, v.Arrived()); } else { assert OnDays(terms) == OnDays(front); }
    if q.sentOn.Some? {
      AllAreSnoc(SentOnDays(front), q.sentOn.value, v.Sent());
    } else {
      assert SentOnDays(terms) == SentOnDays(front);
    }
    if q.uidFilter.Some? {
      SetsSnoc(UidSets(front), q.uidFilter.value, v.uid);
    } else {
      assert UidSets(terms) == UidSets(front);
    }
  }

  lemma {:induction false} FlatDays(terms: seq<Expr>)
    ensures FlatPart(terms).on == if OnDays(terms) == [] then None else Some(OnDays(terms)[0])
    ensures FlatPart(terms).sentOn == if SentOnDays(terms) == [] then None else Some(SentOnDays(terms)[0])
  {
    if terms != [] { FlatDays(terms[..|terms| - 1]); }
  }

  lemma {:induction false} FlatUids(terms: seq<Expr>, u: int)
    ensures FlatPart(terms).uidFilter.None? <==> UidSets(terms) == []
    ensures FlatPart(terms).uidFilter.Some? ==> (UidIn(FlatPart(terms).uidFilter.value, u) <==> SomeHolds(UidSets(terms), u))
  {
    hide UidIn, SomeHolds;
    if terms != [] {
      var front, last := terms[..|terms| - 1], terms[|terms| - 1];
      FlatUids(front, u);
      if last.Leaf? && last.query.uidFilter.Some? {
        assert !IsIdentity(last.query);
        SetsSnoc(UidSets(front), last.query.uidFilter.value, u);
        if UidSets(front) == [] { NoneHolds(u); } else { UidConcat(FlatPart(front).uidFilter.value, last.query.uidFilter.value, u); }
      } else {
        assert UidSets(terms) == UidSets(front);
      }
    }
  }

  lemma NoneHolds(u: int)
    ensures !SomeHolds([], u)
  {}

  lemma {:induction false} FlatRest(v: View, terms: seq<Expr>)
    ensures MatchesLeaf(v, Rest(FlatPart(terms))) <==> RestMatches(v, terms)
  {
    hide MatchesLeaf, Merge, Rest;
    if terms == [] {
      IdentityMatches(v, NOTHING_YET) by { NothingIsIdentity(); }
    } else {
      var front, last := terms[..|terms| - 1], terms[|terms| - 1];
      assert terms == front + [last];
      FlatRest(v, front);
      RestMatchesSnoc(v, front, last);
      if last.Leaf? {
        if IsIdentity(last.query) {
          IdentityMatches(v, last.query);
        } else {
          RestMerge(v, FlatPart(front), last.query);
        }
      }
    }
  }

  lemma RestMerge(v: View, a: Query, b: Query)
    ensures MatchesLeaf(v, Rest(Merge(a, b))) <==> MatchesLeaf(v, Rest(a)) && MatchesLeaf(v, Rest(b))
  {
    hide MatchesLeaf;
    assert Merge(Rest(a), Rest(b)) == Rest(Merge(a, b));
    MergeMeansBoth(v, Rest(a), Rest(b));
  }

  /** What the compiled query asks for: of the ON days and of the SENTON days only the first, of
      the UID sets only some one. */
  ghost predicate CompiledAsks(v: View, terms: seq<Expr>) {
    && RestMatches(v, terms) && AllMatch(v, NestedPart(terms))
    && FirstIs(OnDays(terms), v.Arrived()) && FirstIs(SentOnDays(terms), v.Sent())
    && (UidSets(terms) == [] || SomeHolds(UidSets(terms), v.uid))
  }

  /** The exact meaning of every compiled term list on every message. */
  lemma FlatteningExactly(v: View, terms: seq<Expr>)
    ensures Matches(v, Compile(terms)) <==> CompiledAsks(v, terms)
  {
    hide MatchesLeaf, IsIdentity, FlatPart, NestedPart, Rest, RestMatches, OnDays, SentOnDays, UidSets, SomeHolds, UidIn;
    var flat, nested := FlatPart(terms), NestedPart(terms);
    FlatDays(terms);
    FlatUids(terms, v.uid);
    FlatRest(v, terms);
    LeafParts(v, flat);
    if nested == [] {
      if IsIdentity(flat) {
        IdentityMatches(v, flat);
        IdentityMatches(v, ALL) by { NothingIsIdentity(); }
      }
    } else {
      MatchAllIgnored(v, flat);
      if |nested| == 1 {
        assert nested == [nested[0]];
      }
    }
  }

  /** A message is accepted that some term rejects if and only if the compiled query's demands
      hold and a further ON or SENTON day, or one of the UID sets, does not fit it. */
  lemma WronglyAcceptedIff(v: View, terms: seq<Expr>)
    ensures Matches(v, Compile(terms)) && !AllMatch(v, terms) <==>
      CompiledAsks(v, terms) &&
      !(AllAre(OnDays(terms), v.Arrived()) && AllAre(SentOnDays(terms), v.Sent()) && AllHold(UidSets(terms), v.uid))
  {
    hide Matches, AllMatch, RestMatches, AllAre, AllHold, FirstIs, SomeHolds, OnDays, SentOnDays, UidSets;
    FlatteningExactly(v, terms);
    TermsAsk(v, terms);
  }

  /** For every term list no message that satisfies all terms is lost. */
  lemma FlatteningNeverLoses(v: View, terms: seq<Expr>)
    requires AllMatch(v, terms)
    ensures Matches(v, Compile(terms))
  {
    hide Matches, AllMatch, RestMatches, UidIn, OnDays, SentOnDays, UidSets, AllHold, SomeHolds;
    FlatteningExactly(v, terms);
    TermsAsk(v, terms);
    if UidSets(terms) != [] { AllThenSome(UidSets(terms), v.uid); }
  }

  // ---------- lists that keep their meaning ----------

  /** Repeated ON keys name one day, repeated SENTON keys one day, repeated UID keys one set. */
  ghost predicate Agree(terms: seq<Expr>) {
    && (forall i, j :: 0 <= i < j < |OnDays(terms)| ==> OnDays(terms)[i] == OnDays(terms)[j])
    && (forall i, j :: 0 <= i < j < |SentOnDays(terms)| ==> SentOnDays(terms)[i] == SentOnDays(terms)[j])
    && SetsAgree(UidSets(terms))
  }

  ghost predicate SetsAgree(sets: seq<seq<UidRange>>) {
    forall u :: SomeHolds(sets, u) ==> AllHold(sets, u)
  }

  /** The compiled search accepts a message exactly when every term does: for every list whose
      repeated ON, SENTON and UID keys agree, nesting of NOT and OR arbitrary. */
  lemma FlatteningKeepsMeaning(v: View, terms: seq<Expr>)
    requires Agree(terms)
    ensures Matches(v, Compile(terms)) <==> AllMatch(v, terms)
  {
    hide Matches, AllMatch, RestMatches, OnDays, SentOnDays, UidSets, UidIn, FirstIs, AllAre, AllHold, SomeHolds;
    FlatteningExactly(v, terms);
    TermsAsk(v, terms);
    SameDays(OnDays(terms), v.Arrived());
    SameDays(SentOnDays(terms), v.Sent());
    if UidSets(terms) == [] {
      NoSets(v.uid);
    } else if AllHold(UidSets(terms), v.uid) {
      AllThenSome(UidSets(terms), v.uid);
    }
  }

  lemma NoSets(u: int)
    ensures AllHold([], u)
  {}

  /** Of equal days the first speaks for all. */
  lemma SameDays(days: seq<int>, day: int)
    requires forall i, j :: 0 <= i < j < |days| ==> days[i] == days[j]
    ensures FirstIs(days, day) <==> AllAre(days, day)
  {}

  /** At most one key each of UID, ON and SENTON always agrees with itself. */
  lemma SingleKeysAgree(terms: seq<Expr>)
    requires |OnDays(terms)| <= 1 && |SentOnDays(terms)| <= 1 && |UidSets(terms)| <= 1
    ensures Agree(terms)
  {
    hide OnDays, SentOnDays, UidSets, UidIn;
  }

  // ---------- lists that do not ----------

  ghost predicate Faithful(terms: seq<Expr>) {
    forall v :: Matches(v, Compile(terms)) <==> AllMatch(v, terms)
  }

  /** Only ON, SENTON and UID keys. */
  ghost predicate PureKeys(terms: seq<Expr>) {
    forall i :: 0 <= i < |terms| ==> terms[i].Leaf? && IsIdentity(Rest(terms[i].query))
  }

  lemma {:induction false} PureKeysAsk(v: View, terms: seq<Expr>)
    requires PureKeys(terms)
    ensures RestMatches(v, terms) && AllMatch(v, NestedPart(terms))
  {
    forall i | 0 <= i < |terms| ensures MatchesLeaf(v, Rest(terms[i].query)) { IdentityMatches(v, Rest(terms[i].query)); }
    NoNested(terms);
  }

  lemma {:induction false} NoNested(terms: seq<Expr>)
    requires forall i :: 0 <= i < |terms| ==> terms[i].Leaf?
    ensures NestedPart(terms) == []
  {
    if terms != [] { NoNested(terms[..|terms| - 1]); }
  }

  lemma PlainView(uid: int, arrived: int, sent: int) returns (v: View)
    ensures v.uid == uid && v.Arrived() == arrived && v.Sent() == sent
  {
    v := View(uid, [], [], 0, arrived, None, Some(sent), map[]);
  }

  /** A list of ON, SENTON and UID keys, any number of each in any order, keeps its meaning if and
      only if repeated keys agree, or there are UID keys and none of them holds any UID. */
  lemma PureKeysIff(terms: seq<Expr>)
    requires PureKeys(terms)
    ensures Faithful(terms) <==> Agree(terms) || (UidSets(terms) != [] && forall u :: !SomeHolds(UidSets(terms), u))
  {
    hide Matches, AllMatch, PureKeys, RestMatches, OnDays, SentOnDays, UidSets, UidIn, AllHold, SomeHolds;
    var sets := UidSets(terms);
    if Agree(terms) {
      forall v ensures Matches(v, Compile(terms)) <==> AllMatch(v, terms) { FlatteningKeepsMeaning(v, terms); }
    } else if sets != [] && forall u :: !SomeHolds(sets, u) {
      forall v ensures Matches(v, Compile(terms)) <==> AllMatch(v, terms) { 
        FlatteningExactly(v, terms);
        TermsAsk(v, terms);
        if AllHold(sets, v.uid) { AllThenSome(sets, v.uid); }
      }
    } else {
      var v := Misjudged(terms);
      PureKeysAsk(v, terms);
      WronglyAcceptedIff(v, terms);
    }
  }

  /** A message on the first days and in some UID set that a further key rejects. */
  lemma Misjudged(terms: seq<Expr>) returns (v: View)
    requires !Agree(terms) && (UidSets(terms) == [] || exists u :: SomeHolds(UidSets(terms), u))
    ensures FirstIs(OnDays(terms), v.Arrived()) && FirstIs(SentOnDays(terms), v.Sent())
    ensures UidSets(terms) == [] || SomeHolds(UidSets(terms), v.uid)
    ensures !(AllAre(OnDays(terms), v.Arrived()) && AllAre(SentOnDays(terms), v.Sent()) && AllHold(UidSets(terms), v.uid))
  {
    hide UidSets, OnDays, SentOnDays, UidIn, SomeHolds, AllHold;
    var days, sent, sets := OnDays(terms), SentOnDays(terms), UidSets(terms);
    var uid := 0;
    if !SetsAgree(sets) {
      uid :| SomeHolds(sets, uid) && !AllHold(sets, uid);
    } else if sets != [] {
      uid :| SomeHolds(sets, uid);
    }
    v := PlainView(uid, if days == [] then 0 else days[0], if sent == [] then 0 else sent[0]);
    DaysDiffer(days);
    DaysDiffer(sent);
  }

  lemma DaysDiffer(days: seq<int>)
    ensures days != [] && AllAre(days, days[0]) ==> forall i, j :: 0 <= i < j < |days| ==> days[i] == days[j]
  {}

  function OnDay(day: int): Expr { Leaf(NOTHING_YET.(on := Some(day))) }

  function OfUids(uids: seq<UidRange>): Expr { Leaf(NOTHING_YET.(uidFilter := Some(uids))) }

  lemma PairLists(x: Expr, y: Expr)
    ensures OnDays([x, y]) == OnDays([x]) + OnDays([y]) && SentOnDays([x, y]) == SentOnDays([x]) + SentOnDays([y])
    ensures UidSets([x, y]) == UidSets([x]) + UidSets([y])
  {
    assert [x, y][..1] == [x] && [x][..0] == [] && [y][..0] == [];
  }

  /** Two ON keys keep their meaning exactly when they name the same day. */
  lemma TwoDaysIff(a: int, b: int)
    ensures Faithful([OnDay(a), OnDay(b)]) <==> a == b
  {
    hide Faithful;
    var terms := [OnDay(a), OnDay(b)];
    PairLists(terms[0], terms[1]);
    NothingIsIdentity();
    PureKeysIff(terms);
    assert Agree(terms) ==> OnDays(terms)[0] == OnDays(terms)[1];
  }

  /** Two UID keys keep their meaning exactly when they denote the same set. */
  lemma TwoUidSetsIff(a: seq<UidRange>, b: seq<UidRange>)
    ensures Faithful([OfUids(a), OfUids(b)]) <==> forall u :: UidIn(a, u) <==> UidIn(b, u)
  {
    hide Faithful, UidIn;
    var terms := [OfUids(a), OfUids(b)];
    PairLists(terms[0], terms[1]);
    assert UidSets(terms) == [a, b];
    NothingIsIdentity();
    PureKeysIff(terms);
    forall u
      ensures SomeHolds([a, b], u) <==> UidIn(a, u) || UidIn(b, u)
      ensures AllHold([a, b], u) <==> UidIn(a, u) && UidIn(b, u)
    {
      assert [a, b][0] == a && [a, b][1] == b;
    }
  }
}
