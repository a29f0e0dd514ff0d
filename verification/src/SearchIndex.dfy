/**
 The text index (crates/search/src/lib.rs, `MailboxIndex`): boolean criteria evaluated by set
 algebra over UID lists.  The text engine is an oracle that ranks the documents it matches.
 */
module SearchIndex {
  import opened Wrappers
  import opened Ordering
  import opened Text
  import opened SearchQuery

  const TOP_DOCS: nat := 1000

  /** `all` and `text(s)` list the UIDs of every document and of those matching a query text, best
      first; a text the engine's query parser refuses has no list. */
  datatype Index = Index(docs: set<int>, all: seq<int>, text: string -> Option<seq<int>>)

  /** Each listed once, and only documents of the index. */
  ghost predicate OnceEach(index: Index, hits: seq<int>) {
    forall i :: 0 <= i < |hits| ==> hits[i] in index.docs && forall j :: 0 <= j < i ==> hits[j] != hits[i]
  }

  /** One document per UID; all of them are listed when all are asked for. */
  ghost predicate Sound(index: Index) {
    && OnceEach(index, index.all)
    && (forall s :: index.text(s).Some? ==> OnceEach(index, index.text(s).value))
    && (forall u :: u in index.docs ==> u in index.all)
  }

  // ---------- what is asked of the engine ----------

  /** `strip_outer_parens`, on trimmed text. */
  function Stripped(s: string): (r: string)
    ensures |r| <= |s|
    ensures !(|r| > 1 && r[0] == '(' && r[|r| - 1] == ')')
    decreases |s|
  {
    if |s| > 1 && s[0] == '(' && s[|s| - 1] == ')'
    then TrimShorter(s[1..|s| - 1]); Stripped(Trim(s[1..|s| - 1]))
    else s
  }

  lemma TrimShorter(s: string)
    ensures |Trim(s)| <= |s|
  {
    TrimStartShorter(s);
    TrimEndShorter(TrimStart(s));
  }

  lemma {:induction false} TrimStartShorter(s: string)
    ensures |TrimStart(s)| <= |s|
  {
    if s != "" { TrimStartShorter(s[1..]); }
  }

  lemma {:induction false} TrimEndShorter(s: string)
    ensures |TrimEnd(s)| <= |s|
  {
    if s != "" { TrimEndShorter(s[..|s| - 1]); }
  }

  method StripOuterParens(value: string) returns (trimmed: string)
    ensures trimmed == Stripped(Trim(value))
  {
    trimmed := Trim(value);
    while |trimmed| > 1 && trimmed[0] == '(' && trimmed[|trimmed| - 1] == ')'
      invariant Stripped(trimmed) == Stripped(Trim(value))
      decreases |trimmed|
    {
      TrimShorter(trimmed[1..|trimmed| - 1]);
      trimmed := Trim(trimmed[1..|trimmed| - 1]);
    }
  }

  /** All documents, those matching a text, or all but those. */
  datatype Ask = AskAll | AskText(text: string) | AskNot(text: string)

  /** The text behind a leading NOT. */
  function Negated(s: string): Option<string> {
    if "NOT " <= s || "NOT(" <= s then Some(Stripped(Trim(Trim(s[4..])))) else None
  }

  function AskOf(q: Query): Ask {
    if q.matchAll || q.queryString.None? || q.queryString.value == "" then AskAll
    else
      var s := Trim(q.queryString.value);
      match Negated(s)
      case Some(inner) => AskNot(inner)
      case None => AskText(s)
  }

  function TextQuery(s: string): Query { NOTHING_YET.(queryString := Some(s)) }

  /** A leading NOT excludes what the rest of the text matches, with or without parentheses around
      it; any other text is asked for as it is, without the spaces around it. */
  lemma NotExcludes(s: string)
    requires s != "" && Trim(s) == s
    ensures AskOf(TextQuery("NOT " + s)) == AskNot(Stripped(s))
    ensures AskOf(TextQuery("NOT (" + s + ")")) == AskOf(TextQuery("NOT " + s))
    ensures !("NOT " <= s) && !("NOT(" <= s) ==> AskOf(TextQuery(s)) == AskText(s)
    ensures AskOf(ALL.(queryString := Some(s))) == AskOf(ALL) == AskOf(TextQuery("")) == AskAll
  {
    hide Stripped, AskOf;
    var group := "(" + s + ")";
    TrimmedEnds(s);
    NotAsks(s);
    assert !IsWhitespace('(') && !IsWhitespace(')');
    assert group[0] == '(' && group[|group| - 1] == ')';
    NotAsks(group);
    StripGroup(s);
    assert "NOT (" + s + ")" == "NOT " + group;
    PlainAsks(s);
  }

  lemma NotAsks(s: string)
    requires s != "" && !IsWhitespace(s[0]) && !IsWhitespace(s[|s| - 1])
    ensures AskOf(TextQuery("NOT " + s)) == AskNot(Stripped(s))
  {
    hide Trim, Stripped, IsWhitespace;
    var text := "NOT " + s;
    TrimKeeps(s);
    NotIsDark();
    assert text[0] == 'N' && text[|text| - 1] == s[|s| - 1];
    TrimKeeps(text);
    assert text[4..] == s && text[..4] == "NOT ";
  }

  lemma NotIsDark()
    ensures !IsWhitespace('N')
  {}

  lemma StripGroup(s: string)
    requires Trim(s) == s
    ensures Stripped("(" + s + ")") == Stripped(s)
  {
    hide Trim;
    var group := "(" + s + ")";
    assert group[1..|group| - 1] == s;
  }

  lemma PlainAsks(s: string)
    requires s != "" && Trim(s) == s
    ensures !("NOT " <= s) && !("NOT(" <= s) ==> AskOf(TextQuery(s)) == AskText(s)
    ensures AskOf(ALL.(queryString := Some(s))) == AskOf(ALL) == AskOf(TextQuery("")) == AskAll
  {
    hide Trim, Stripped;
  }

  lemma TrimKeeps(s: string)
    requires s != "" && !IsWhitespace(s[0]) && !IsWhitespace(s[|s| - 1])
    ensures Trim(s) == s
  {}

  lemma TrimmedEnds(s: string)
    requires s != "" && Trim(s) == s
    ensures !IsWhitespace(s[0]) && !IsWhitespace(s[|s| - 1])
  {
    if IsWhitespace(s[0]) {
      TrimShorter(s[1..]);
    } else if IsWhitespace(s[|s| - 1]) {
      TrimEndShorter(s[..|s| - 1]);
    }
  }

  // ---------- what a search should return ----------

  predicate Passes(q: Query, u: int) { q.uidFilter.Some? ==> UidIn(q.uidFilter.value, u) }

  /** The engine's query parser takes the leaf's text. */
  predicate LeafReads(index: Index, q: Query) {
    match AskOf(q)
    case AskAll => true
    case AskText(s) => index.text(s).Some?
    case AskNot(s) => index.text(s).Some?
  }

  predicate ExprReads(index: Index, e: Expr) {
    match e
    case Leaf(q) => LeafReads(index, q)
    case And(terms) => forall i :: 0 <= i < |terms| ==> ExprReads(index, terms[i])
    case Or(a, b) => ExprReads(index, a) && ExprReads(index, b)
    case Not(a) => ExprReads(index, a)
  }

  function Hits(index: Index, s: string): seq<int> { index.text(s).GetOr([]) }

  ghost predicate FlatMeans(index: Index, q: Query, u: int) {
    Passes(q, u) &&
    match AskOf(q)
    case AskAll => u in index.all
    case AskText(s) => u in Hits(index, s)
    case AskNot(s) => u in index.all && u !in Hits(index, s)
  }

  /** The pointwise reading of an expression. */
  ghost predicate ExprMeans(index: Index, e: Expr, u: int) {
    match e
    case Leaf(q) => FlatMeans(index, q, u)
    case And(terms) => forall i :: 0 <= i < |terms| ==> ExprMeans(index, terms[i], u)
    case Or(a, b) => ExprMeans(index, a, u) || ExprMeans(index, b, u)
    case Not(a) => !ExprMeans(index, a, u)
  }

  /** The documents a whole search should find. */
  ghost predicate SearchMeans(index: Index, s: Search, u: int) {
    FlatMeans(index, s.flat, u) && (s.expr.Some? ==> ExprMeans(index, s.expr.value, u))
  }

  ghost predicate NoEmptyAnd(e: Expr) {
    match e
    case Leaf(_) => true
    case And(terms) => terms != [] && forall i :: 0 <= i < |terms| ==> NoEmptyAnd(terms[i])
    case Or(a, b) => NoEmptyAnd(a) && NoEmptyAnd(b)
    case Not(a) => NoEmptyAnd(a)
  }

  // ---------- what the set algebra finds, at any size ----------

  function Top(hits: seq<int>): seq<int> { if |hits| <= TOP_DOCS then hits else hits[..TOP_DOCS] }

  /** The engine's limit comes first, the UID filter after it. */
  ghost predicate TopMeans(index: Index, q: Query, u: int) {
    Passes(q, u) &&
    match AskOf(q)
    case AskAll => u in Top(index.all)
    case AskText(s) => u in Top(Hits(index, s))
    case AskNot(s) => u in Top(index.all) && u !in Top(Hits(index, s))
  }

  /** Complements are taken within the best thousand documents; an empty conjunction is empty. */
  ghost predicate IndexMeans(index: Index, e: Expr, u: int) {
    match e
    case Leaf(q) => TopMeans(index, q, u)
    case And(terms) => terms != [] && forall i :: 0 <= i < |terms| ==> IndexMeans(index, terms[i], u)
    case Or(a, b) => IndexMeans(index, a, u) || IndexMeans(index, b, u)
    case Not(a) => TopMeans(index, ALL, u) && !IndexMeans(index, a, u)
  }

  // ---------- the algorithms ----------

  function Common(a: seq<int>, b: seq<int>): (r: seq<int>)
    ensures forall u :: u in r <==> u in a && u in b
  {
    if a == [] then [] else (if a[0] in b then [a[0]] else []) + Common(a[1..], b)
  }

  function Without(a: seq<int>, b: seq<int>): (r: seq<int>)
    ensures forall u :: u in r <==> u in a && u !in b
  {
    if a == [] then [] else (if a[0] in b then [] else [a[0]]) + Without(a[1..], b)
  }

  /** `collect_query_uids`, which `search_flat` also does in line. */
  method CollectUids(hits: seq<int>, q: Query) returns (uids: seq<int>)
    ensures forall u :: u in uids <==> u in Top(hits) && Passes(q, u)
  {
    var top := Top(hits);
    uids := [];
    for i := 0 to |top|
      invariant forall u :: u in uids <==> u in top[..i] && Passes(q, u)
    {
      assert top[..i + 1] == top[..i] + [top[i]];
      if Passes(q, top[i]) {
        uids := uids + [top[i]];
      }
    }
    assert top[..|top|] == top;
    uids := SortDedup(IntLess, uids);
  }

  /** `search_flat`: fails exactly on a text the engine refuses. */
  method SearchFlat(index: Index, q: Query) returns (r: Result<seq<int>>)
    ensures r.Ok? <==> LeafReads(index, q)
    ensures r.Ok? ==> forall u :: u in r.value <==> TopMeans(index, q, u)
  {
    hide Passes, Stripped, Trim, Top;
    var hits := index.all;
    if !(q.matchAll || q.queryString.None? || q.queryString.value == "") {
      var trimmed := Trim(q.queryString.value);
      if "NOT " <= trimmed || "NOT(" <= trimmed {
        var inner := StripOuterParens(Trim(trimmed[4..]));
        if index.text(inner).None? {
          return Err;
        }
        var excluded := CollectUids(index.text(inner).value, q);
        var all := CollectUids(index.all, q);
        return Ok(Without(all, excluded));
      }
      if index.text(trimmed).None? {
        return Err;
      }
      hits := index.text(trimmed).value;
    }
    var uids := CollectUids(hits, q);
    r := Ok(uids);
  }

  /** `search_expr_uids`, with sets as accumulators. */
  method SearchExpr(index: Index, e: Expr) returns (r: Result<seq<int>>)
    ensures r.Ok? <==> ExprReads(index, e)
    ensures r.Ok? ==> forall u :: u in r.value <==> IndexMeans(index, e, u)
    decreases e
  {
    hide TopMeans, LeafReads;
    match e
    case Leaf(q) => r := SearchFlat(index, q);
    case And(terms) =>
      if terms == [] {
        return Ok([]);
      }
      r := SearchExpr(index, terms[0]);
      if r.Err? {
        return;
      }
      var uids := r.value;
      for i := 1 to |terms|
        invariant forall k :: 0 <= k < i ==> ExprReads(index, terms[k])
        invariant forall u :: u in uids <==> forall k :: 0 <= k < i ==> IndexMeans(index, terms[k], u)
      {
        var child := SearchExpr(index, terms[i]);
        if child.Err? {
          return Err;
        }
        uids := Common(uids, child.value);
      }
      r := Ok(SortDedup(IntLess, uids));
    case Or(a, b) =>
      var left := SearchExpr(index, a);
      if left.Err? {
        return Err;
      }
      var right := SearchExpr(index, b);
      r := if right.Err? then Err else Ok(SortDedup(IntLess, left.value + right.value));
    case Not(a) =>
      AllReads(index);
      var all := SearchFlat(index, ALL);
      var excluded := SearchExpr(index, a);
      r := if excluded.Err? then Err else Ok(Without(all.value, excluded.value));
  }

  lemma AllReads(index: Index)
    ensures LeafReads(index, ALL)
  {}

  /** The index keeps its books and its documents fit under the engine's limit. */
  ghost predicate Fits(index: Index) { Sound(index) && |index.docs| <= TOP_DOCS }

  /** `MailboxIndex::search`: ascending and without repeats; in an index that fits, exactly the
      documents satisfying the base query and the expression. */
  method SearchMailbox(index: Index, s: Search) returns (r: Result<seq<int>>)
    ensures r.Ok? <==> LeafReads(index, s.flat) && (s.expr.Some? ==> ExprReads(index, s.expr.value))
    ensures r.Ok? ==> Ascending(IntLess, r.value)
    ensures r.Ok? ==> forall u :: u in r.value <==>
      TopMeans(index, s.flat, u) && (s.expr.Some? ==> IndexMeans(index, s.expr.value, u))
    ensures r.Ok? && Fits(index) && (s.expr.Some? ==> NoEmptyAnd(s.expr.value)) ==>
      forall u :: u in r.value <==> SearchMeans(index, s, u)
  {
    hide TopMeans, IndexMeans, Fits, NoEmptyAnd, SearchMeans, LeafReads, ExprReads;
    var base := SearchFlat(index, s.flat);
    if base.Err? {
      return Err;
    }
    var uids := base.value;
    if s.expr.Some? {
      var found := SearchExpr(index, s.expr.value);
      if found.Err? {
        return Err;
      }
      uids := Common(found.value, base.value);
    }
    IntLessOrder();
    SortDedupAscending(IntLess, uids);
    r := Ok(SortDedup(IntLess, uids));
    if Fits(index) && (s.expr.Some? ==> NoEmptyAnd(s.expr.value)) {
      forall u ensures u in r.value <==> SearchMeans(index, s, u) { AlgebraIsPointwise(index, s, u); }
    }
  }

  // ---------- the limit ----------

  lemma {:induction false} DistinctFit(s: seq<int>, all: set<int>, n: nat)
    requires n <= |s| && (forall i, j :: 0 <= j < i < |s| ==> s[j] != s[i]) && forall i :: 0 <= i < |s| ==> s[i] in all
    ensures n <= |all|
    decreases n
  {
    if n > 0 {
      var rest, smaller := s[..n - 1], all - {s[n - 1]};
      assert forall i :: 0 <= i < |rest| ==> rest[i] == s[i] && s[i] in smaller;
      DistinctFit(rest, smaller, n - 1);
    }
  }

  lemma HitsFit(index: Index, hits: seq<int>)
    requires OnceEach(index, hits)
    ensures |hits| <= |index.docs|
  {
    assert forall i, j :: 0 <= j < i < |hits| ==> hits[j] != hits[i];
    DistinctFit(hits, index.docs, |hits|);
  }

  /** A list's entries are its best thousand and those beyond, without overlap. */
  lemma BeyondTop(index: Index, hits: seq<int>, u: int)
    requires OnceEach(index, hits)
    ensures u in hits && u !in Top(hits) <==> exists k :: TOP_DOCS <= k < |hits| && hits[k] == u
  {
    if k :| TOP_DOCS <= k < |hits| && hits[k] == u {
      assert forall j :: 0 <= j < TOP_DOCS ==> hits[j] != hits[k];
    }
    if u in hits && u !in Top(hits) {
      var k :| 0 <= k < |hits| && hits[k] == u;
      if k < TOP_DOCS { InTop(hits, k); }
    }
  }

  lemma InTop(hits: seq<int>, k: nat)
    requires k < |hits| && k < TOP_DOCS
    ensures hits[k] in Top(hits)
  {
    assert Top(hits)[k] == hits[k];
  }

  lemma TopOf(hits: seq<int>, u: int)
    ensures u in Top(hits) ==> u in hits
  {}

  /** The hits of a list beyond the thousandth, for a leaf's UID filter. */
  ghost predicate Beyond(hits: seq<int>, q: Query, k: int) { TOP_DOCS <= k < |hits| && Passes(q, hits[k]) }

  /** What the limit must not cut off: no further hit may pass the UID filter; under a NOT, a
      further document that passes it must be excluded anyway, and a further excluded document
      must not be among the best thousand documents. */
  ghost predicate LimitHarmless(index: Index, q: Query) {
    match AskOf(q)
    case AskAll => forall k :: !Beyond(index.all, q, k)
    case AskText(s) => forall k :: !Beyond(Hits(index, s), q, k)
    case AskNot(s) =>
      && (forall k :: Beyond(index.all, q, k) ==> index.all[k] in Hits(index, s))
      && (forall k :: Beyond(Hits(index, s), q, k) ==> Hits(index, s)[k] !in Top(index.all))
  }

  /** A leaf search is exact if and only if the limit cuts off nothing that matters.  The filter
      comes after the limit, so a UID search in a large index can miss the message it names. */
  lemma TopExactIff(index: Index, q: Query)
    requires Sound(index)
    ensures (forall u :: TopMeans(index, q, u) <==> FlatMeans(index, q, u)) <==> LimitHarmless(index, q)
  {
    hide Passes, AskOf, Sound, Top, Hits;
    match AskOf(q)
    case AskAll =>
      HitsOnce(index, "");
      ListExactIff(index, q, index.all);
      forall u ensures (TopMeans(index, q, u) <==> FlatMeans(index, q, u)) <==>
        (Passes(q, u) ==> (u in Top(index.all) <==> u in index.all)) {}
    case AskText(s) =>
      HitsOnce(index, s);
      ListExactIff(index, q, Hits(index, s));
      forall u ensures (TopMeans(index, q, u) <==> FlatMeans(index, q, u)) <==>
        (Passes(q, u) ==> (u in Top(Hits(index, s)) <==> u in Hits(index, s))) {}
    case AskNot(s) =>
      HitsOnce(index, s);
      NotExactIff(index, q, s);
      forall u ensures (TopMeans(index, q, u) <==> FlatMeans(index, q, u)) <==>
        (Passes(q, u) ==>
           (u in Top(index.all) && u !in Top(Hits(index, s)) <==> u in index.all && u !in Hits(index, s))) {}
  }

  lemma HitsOnce(index: Index, s: string)
    requires Sound(index)
    ensures OnceEach(index, Hits(index, s)) && OnceEach(index, index.all)
    ensures forall u :: u in index.all <==> u in index.docs
    ensures forall u :: u in Hits(index, s) ==> u in index.docs
  {}

  lemma ListExactIff(index: Index, q: Query, hits: seq<int>)
    requires OnceEach(index, hits)
    ensures (forall u :: Passes(q, u) ==> (u in Top(hits) <==> u in hits)) <==> forall k :: !Beyond(hits, q, k)
  {
    hide Passes, OnceEach;
    forall u ensures u in hits && u !in Top(hits) <==> exists k :: TOP_DOCS <= k < |hits| && hits[k] == u {
      BeyondTop(index, hits, u);
    }
    forall u ensures u in Top(hits) ==> u in hits { TopOf(hits, u); }
    if k :| Beyond(hits, q, k) {
      assert Passes(q, hits[k]) && hits[k] in hits && hits[k] !in Top(hits);
    }
    if u :| Passes(q, u) && u in hits && u !in Top(hits) {
      var k :| TOP_DOCS <= k < |hits| && hits[k] == u;
      assert Beyond(hits, q, k);
    }
  }

  lemma NotExactIff(index: Index, q: Query, s: string)
    requires OnceEach(index, index.all) && OnceEach(index, Hits(index, s))
    requires forall u :: u in Hits(index, s) ==> u in index.all
    ensures (forall u :: Passes(q, u) ==>
               (u in Top(index.all) && u !in Top(Hits(index, s)) <==> u in index.all && u !in Hits(index, s)))
      <==> (forall k :: Beyond(index.all, q, k) ==> index.all[k] in Hits(index, s))
           && (forall k :: Beyond(Hits(index, s), q, k) ==> Hits(index, s)[k] !in Top(index.all))
  {
    hide Passes, OnceEach, Top, Hits;
    var all, hits := index.all, Hits(index, s);
    forall u
      ensures u in all && u !in Top(all) <==> exists k :: TOP_DOCS <= k < |all| && all[k] == u
      ensures u in hits && u !in Top(hits) <==> exists k :: TOP_DOCS <= k < |hits| && hits[k] == u
      ensures (u in Top(all) ==> u in all) && (u in Top(hits) ==> u in hits)
    {
      BeyondTop(index, all, u);
      BeyondTop(index, hits, u);
      TopOf(all, u);
      TopOf(hits, u);
    }
    if k :| Beyond(all, q, k) && all[k] !in hits {
      assert Passes(q, all[k]) && all[k] in all && all[k] !in Top(all);
    }
    if k :| Beyond(hits, q, k) && hits[k] in Top(all) {
      assert Passes(q, hits[k]) && hits[k] in hits && hits[k] !in Top(hits);
    }
  }

  /** Without a filter the limit is the number of hits. */
  lemma UnfilteredExactIff(index: Index, q: Query)
    requires Sound(index) && q.uidFilter.None? && AskOf(q).AskText?
    ensures (forall u :: TopMeans(index, q, u) <==> FlatMeans(index, q, u)) <==> |Hits(index, AskOf(q).text)| <= 1000
  {
    hide TopMeans, FlatMeans, Sound, AskOf;
    TopExactIff(index, q);
    if |Hits(index, AskOf(q).text)| > TOP_DOCS { assert Beyond(Hits(index, AskOf(q).text), q, TOP_DOCS); }
  }

  // ---------- refinement ----------

  lemma TopIsFlat(index: Index, q: Query, u: int)
    requires Fits(index)
    ensures TopMeans(index, q, u) <==> FlatMeans(index, q, u)
    ensures FlatMeans(index, q, u) ==> u in index.docs
  {
    hide Passes, AskOf;
    HitsFit(index, index.all);
    match AskOf(q)
    case AskAll =>
    case AskText(s) => HitsFit(index, Hits(index, s));
    case AskNot(s) => HitsFit(index, Hits(index, s));
  }

  lemma AllIsDocs(index: Index, u: int)
    requires Fits(index)
    ensures TopMeans(index, ALL, u) <==> u in index.docs
  {
    HitsFit(index, index.all);
  }

  /** Without empty conjunctions the set algebra is the pointwise meaning on the documents. */
  lemma {:induction false} ExprIsPointwise(index: Index, e: Expr, u: int)
    requires Fits(index) && NoEmptyAnd(e)
    ensures IndexMeans(index, e, u) <==> u in index.docs && ExprMeans(index, e, u)
    decreases e
  {
    hide FlatMeans, TopMeans, Fits;
    match e
    case Leaf(q) => TopIsFlat(index, q, u);
    case And(terms) =>
      forall i | 0 <= i < |terms| ensures IndexMeans(index, terms[i], u) <==> u in index.docs && ExprMeans(index, terms[i], u) {
        ExprIsPointwise(index, terms[i], u);
      }
      assert IndexMeans(index, terms[0], u) ==> u in index.docs;
    case Or(a, b) =>
      ExprIsPointwise(index, a, u);
      ExprIsPointwise(index, b, u);
    case Not(a) =>
      ExprIsPointwise(index, a, u);
      AllIsDocs(index, u);
  }

  lemma AlgebraIsPointwise(index: Index, s: Search, u: int)
    requires Fits(index) && (s.expr.Some? ==> NoEmptyAnd(s.expr.value))
    ensures TopMeans(index, s.flat, u) && (s.expr.Some? ==> IndexMeans(index, s.expr.value, u)) <==> SearchMeans(index, s, u)
  {
    hide FlatMeans, TopMeans, Fits, IndexMeans, ExprMeans, NoEmptyAnd;
    TopIsFlat(index, s.flat, u);
    if s.expr.Some? { ExprIsPointwise(index, s.expr.value, u); }
  }

  /** The one expression on which they part within the limit: an empty conjunction. */
  lemma EmptyAndDiffers(index: Index, u: int)
    ensures ExprMeans(index, And([]), u) && !IndexMeans(index, And([]), u)
  {}

  /** Searches compiled from parsed criteria never contain an empty conjunction. */
  lemma {:induction false} ParsedHasNoEmptyAnd(tokens: seq<string>, dates: string -> Option<int>)
    requires ParseTerms(tokens, dates).Ok?
    ensures var s := Compile(ParseTerms(tokens, dates).value); s.expr.Some? ==> NoEmptyAnd(s.expr.value)
  {
    hide Merge, IsIdentity, FlatPart;
    TermsHaveNoAnd(tokens, dates);
    NestedHaveNoAnd(ParseTerms(tokens, dates).value);
  }

  lemma {:induction false} TermsHaveNoAnd(tokens: seq<string>, dates: string -> Option<int>)
    requires ParseTerms(tokens, dates).Ok?
    ensures forall i :: 0 <= i < |ParseTerms(tokens, dates).value| ==> NoEmptyAnd(ParseTerms(tokens, dates).value[i])
    decreases |tokens|
  {
    hide ParseTerm;
    if tokens != [] {
      TermHasNoAnd(tokens, dates);
      TermsHaveNoAnd(ParseTerm(tokens, dates).value.1, dates);
    }
  }

  lemma {:induction false} TermHasNoAnd(tokens: seq<string>, dates: string -> Option<int>)
    requires ParseTerm(tokens, dates).Ok?
    ensures NoEmptyAnd(ParseTerm(tokens, dates).value.0)
    decreases |tokens|
  {
    hide ArgumentKey, PlainKey, HeaderKey, AsciiUpper;
    var word, rest := AsciiUpper(tokens[0]), tokens[1..];
    if word == "NOT" {
      TermHasNoAnd(rest, dates);
    } else if word == "OR" {
      TermHasNoAnd(rest, dates);
      TermHasNoAnd(ParseTerm(rest, dates).value.1, dates);
    }
  }

  lemma {:induction false} NestedHaveNoAnd(terms: seq<Expr>)
    requires forall i :: 0 <= i < |terms| ==> NoEmptyAnd(terms[i])
    ensures forall i :: 0 <= i < |NestedPart(terms)| ==> NoEmptyAnd(NestedPart(terms)[i])
  {
    if terms != [] { NestedHaveNoAnd(terms[..|terms| - 1]); }
  }
}
