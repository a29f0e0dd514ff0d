/** Laws of the day and UID keys of SEARCH (section 6.4.4 of RFC 3501), and what a merged query
    keeps of the text and recency keys it was made from. */
module SearchKeys {
  import opened Wrappers
  import opened Text
  import opened SearchQuery
  import opened SearchMeaning
  import NumberSet
  import Quoting

  // ---------- days ----------

  lemma OnlyDays(v: View, d: int)
    ensures MatchesLeaf(v, NOTHING_YET.(before := Some(d))) <==> v.Arrived() < d
    ensures MatchesLeaf(v, NOTHING_YET.(on := Some(d))) <==> v.Arrived() == d
    ensures MatchesLeaf(v, NOTHING_YET.(since := Some(d))) <==> v.Arrived() >= d
    ensures MatchesLeaf(v, NOTHING_YET.(sentBefore := Some(d))) <==> v.Sent() < d
    ensures MatchesLeaf(v, NOTHING_YET.(sentOn := Some(d))) <==> v.Sent() == d
    ensures MatchesLeaf(v, NOTHING_YET.(sentSince := Some(d))) <==> v.Sent() >= d
  {
    hide HasFlag, UidIn;
  }

  /** BEFORE, ON and SINCE compare the day of arrival with the given day, their SENT forms the day
      of sending. */
  lemma DayKeysMean(v: View, arg: string, dates: string -> Option<int>)
    requires dates(arg).Some?
    ensures forall word :: word in {"BEFORE", "ON", "SINCE", "SENTBEFORE", "SENTON", "SENTSINCE"} ==> ArgumentKey(word, arg, dates).Some?
    ensures MatchesLeaf(v, ArgumentKey("BEFORE", arg, dates).value) <==> v.Arrived() < dates(arg).value
    ensures MatchesLeaf(v, ArgumentKey("ON", arg, dates).value) <==> v.Arrived() == dates(arg).value
    ensures MatchesLeaf(v, ArgumentKey("SINCE", arg, dates).value) <==> v.Arrived() >= dates(arg).value
    ensures MatchesLeaf(v, ArgumentKey("SENTBEFORE", arg, dates).value) <==> v.Sent() < dates(arg).value
    ensures MatchesLeaf(v, ArgumentKey("SENTON", arg, dates).value) <==> v.Sent() == dates(arg).value
    ensures MatchesLeaf(v, ArgumentKey("SENTSINCE", arg, dates).value) <==> v.Sent() >= dates(arg).value
  {
    hide MatchesLeaf, AnyField, QuoteQuery, UidParts, ParseU64;
    OnlyDays(v, dates(arg).value);
  }

  /** The day keys split the calendar: what is not before a day is since it, and being on a day is
      being since it and before the next one. */
  lemma DayKeysPartition(v: View, arg: string, next: string, dates: string -> Option<int>)
    requires dates(arg).Some? && dates(next) == Some(dates(arg).value + 1)
    ensures forall word :: word in {"BEFORE", "ON", "SINCE", "SENTBEFORE", "SENTON", "SENTSINCE"} ==>
      ArgumentKey(word, arg, dates).Some? && ArgumentKey(word, next, dates).Some?
    ensures MatchesLeaf(v, ArgumentKey("SINCE", arg, dates).value) <==> !MatchesLeaf(v, ArgumentKey("BEFORE", arg, dates).value)
    ensures MatchesLeaf(v, ArgumentKey("ON", arg, dates).value) <==>
      MatchesLeaf(v, ArgumentKey("SINCE", arg, dates).value) && MatchesLeaf(v, ArgumentKey("BEFORE", next, dates).value)
    ensures MatchesLeaf(v, ArgumentKey("SENTSINCE", arg, dates).value) <==>
      !MatchesLeaf(v, ArgumentKey("SENTBEFORE", arg, dates).value)
    ensures MatchesLeaf(v, ArgumentKey("SENTON", arg, dates).value) <==>
      MatchesLeaf(v, ArgumentKey("SENTSINCE", arg, dates).value) && MatchesLeaf(v, ArgumentKey("SENTBEFORE", next, dates).value)
  {
    hide MatchesLeaf, ArgumentKey;
    DayKeysMean(v, arg, dates);
    DayKeysMean(v, next, dates);
  }

  // ---------- UID sets ----------

  /** A range printed for the wire reads back as a UID range. */
  lemma UidPartReadsBack(r: NumberSet.Range)
    requires r.start <= r.end <= U64_MAX
    ensures UidPart(NumberSet.FormatRange(r.start, r.end)) == Some(UidRange(r.start, r.end))
  {
    hide ParseU64, ParseI64, Digits, SplitOnce;
    ParseDigits(r.start);
    ParseDigits(r.end);
    NumberSet.DigitsAreClean(r.start);
    NumberSet.DigitsAreClean(r.end);
    NumberSet.CleanIsTrimmed(Digits(r.start));
    NumberSet.CleanIsTrimmed(Digits(r.end));
    if r.start == r.end {
      SplitOnceMisses(Digits(r.start), ':');
    } else {
      SplitOnceFinds(Digits(r.start), Digits(r.end), ':');
      assert NumberSet.FormatRange(r.start, r.end) == Digits(r.start) + [':'] + Digits(r.end);
    }
  }

  lemma {:induction false} UidPartsReadBack(ranges: seq<NumberSet.Range>)
    requires forall i :: 0 <= i < |ranges| ==> ranges[i].start <= ranges[i].end <= U64_MAX
    ensures UidParts(NumberSet.Render(ranges)) == Some(UidRanges(ranges))
  {
    hide UidPart, NumberSet.FormatRange;
    if ranges != [] {
      UidPartReadsBack(ranges[0]);
      assert NumberSet.Render(ranges)[1..] == NumberSet.Render(ranges[1..]);
      UidPartsReadBack(ranges[1..]);
      assert UidRanges(ranges) == [UidRange(ranges[0].start, ranges[0].end)] + UidRanges(ranges[1..]);
    }
  }

  function UidRanges(ranges: seq<NumberSet.Range>): (r: seq<UidRange>)
    ensures |r| == |ranges| && forall i :: 0 <= i < |r| ==> r[i] == UidRange(ranges[i].start, ranges[i].end)
  {
    seq(|ranges|, i requires 0 <= i < |ranges| => UidRange(ranges[i].start, ranges[i].end))
  }

  lemma {:induction false} RenderedHaveNoComma(ranges: seq<NumberSet.Range>)
    ensures forall i :: 0 <= i < |ranges| ==> ',' !in NumberSet.Render(ranges)[i]
  {
    hide NumberSet.FormatRange;
    forall i | 0 <= i < |ranges| ensures ',' !in NumberSet.Render(ranges)[i] {
      NumberSet.RangeIsClean(ranges[i]);
      NumberSet.CleanIsTrimmed(NumberSet.FormatRange(ranges[i].start, ranges[i].end));
    }
  }

  /** Sending a printed number set back as a UID key selects exactly the messages it lists. */
  lemma PrintedSetSelects(v: View, ranges: seq<NumberSet.Range>, values: iset<int>, dates: string -> Option<int>)
    requires NumberSet.MaximalCover(ranges, values) && ranges != []
    requires forall i :: 0 <= i < |ranges| ==> ranges[i].end <= U64_MAX
    ensures var key := ArgumentKey("UID", Join(NumberSet.Render(ranges), ","), dates);
      key.Some? && (MatchesLeaf(v, key.value) <==> v.uid in values)
  {
    hide Split, Join, NumberSet.Render, UidParts, AnyField, QuoteQuery, HasFlag;
    RenderedHaveNoComma(ranges);
    UidPartsReadBack(ranges);
    RenderSize(ranges);
    SplitJoin(NumberSet.Render(ranges), ',');
    var uids := UidRanges(ranges);
    UidOnly(v, uids);
    if v.uid in values {
      var i :| 0 <= i < |ranges| && ranges[i].Holds(v.uid);
      assert uids[i].lo <= v.uid <= uids[i].hi;
    }
    if UidIn(uids, v.uid) {
      var i :| 0 <= i < |uids| && uids[i].lo <= v.uid <= uids[i].hi;
      assert ranges[i].Holds(v.uid);
    }
  }

  lemma RenderSize(ranges: seq<NumberSet.Range>)
    ensures |NumberSet.Render(ranges)| == |ranges|
  {}

  lemma UidOnly(v: View, uids: seq<UidRange>)
    ensures MatchesLeaf(v, NOTHING_YET.(uidFilter := Some(uids))) <==> UidIn(uids, v.uid)
  {
    hide UidIn, HasFlag;
  }

  // ---------- text and recency through the merge ----------

  /** The text criteria of a list's single keys, in order. */
  function Texts(terms: seq<Expr>): seq<string> {
    if terms == [] then []
    else
      var last := terms[|terms| - 1];
      Texts(terms[..|terms| - 1])
      + if last.Leaf? && last.query.queryString.Some? then [last.query.queryString.value] else []
  }

  /** The merged query asks the text engine for all texts, space-joined in the order written. */
  lemma {:induction false} FlatKeepsTexts(terms: seq<Expr>)
    ensures FlatPart(terms).queryString == if Texts(terms) == [] then None else Some(Join(Texts(terms), " "))
  {
    hide Join;
    if terms != [] {
      var front, last := terms[..|terms| - 1], terms[|terms| - 1];
      FlatKeepsTexts(front);
      if last.Leaf? && last.query.queryString.Some? {
        var text := last.query.queryString.value;
        assert Texts(terms) == Texts(front) + [text];
        if Texts(front) == [] { JoinOne(text); } else { JoinSnoc(Texts(front), text, " "); }
      } else {
        assert Texts(terms) == Texts(front);
      }
    }
  }

  lemma JoinOne(s: string)
    ensures Join([s], " ") == s && [] + [s] == [s]
  {}

  ghost predicate SomeRecent(terms: seq<Expr>) { exists i :: 0 <= i < |terms| && terms[i].Leaf? && terms[i].query.recentOnly }

  ghost predicate SomeOld(terms: seq<Expr>) { exists i :: 0 <= i < |terms| && terms[i].Leaf? && terms[i].query.oldOnly }

  /** The merged query asks for recent (old) messages exactly when some key did. */
  lemma {:induction false} FlatKeepsRecency(terms: seq<Expr>)
    ensures FlatPart(terms).recentOnly <==> SomeRecent(terms)
    ensures FlatPart(terms).oldOnly <==> SomeOld(terms)
  {
    if terms != [] {
      var front, last := terms[..|terms| - 1], terms[|terms| - 1];
      FlatKeepsRecency(front);
      assert forall i :: 0 <= i < |front| ==> front[i] == terms[i];
      assert SomeRecent(terms) <==> SomeRecent(front) || (last.Leaf? && last.query.recentOnly);
      assert SomeOld(terms) <==> SomeOld(front) || (last.Leaf? && last.query.oldOnly);
    }
  }

  // ---------- what the text engine is asked ----------

  /** A term survives the quoting of query texts. */
  lemma QuoteQueryReadsBack(term: string)
    ensures Quoting.Unquoted(QuoteQuery(term)) == term
  {
    if exists c :: c in term && (IsWhitespace(c) || c in ":\"()\\") {
      assert QuoteQuery(term) == Quoting.Quote(term);
      Quoting.UnquoteQuote(term);
    } else {
      assert forall i :: 0 <= i < |term| ==> term[i] in term;
      assert Trim(term) == term;
      assert term != "" ==> term[0] != '"';
    }
  }

  function AskedOfAll(fields: seq<string>, term: string): (r: seq<string>)
    ensures |r| == |fields| && forall i :: 0 <= i < |r| ==> r[i] == Asked(fields[i], term)
  {
    seq(|fields|, i requires 0 <= i < |fields| => Asked(fields[i], term))
  }

  const TEXT_FIELDS: seq<string> := ["body", "subject", "from", "to", "cc", "bcc"]

  /** The text keys ask every text field in turn. */
  lemma AnyFieldAsksAll(term: string)
    ensures AnyField(term) == Join(AskedOfAll(TEXT_FIELDS, term), " OR ")
  {
    hide Asked, Join;
    var all := AskedOfAll(TEXT_FIELDS, term);
    OneJoin(all[0]);
    assert all[..1] == [all[0]];
    JoinNext(all, 1);
    JoinNext(all, 2);
    JoinNext(all, 3);
    JoinNext(all, 4);
    JoinNext(all, 5);
    assert all[..6] == all;
  }

  lemma JoinNext(parts: seq<string>, n: nat)
    requires 1 <= n < |parts|
    ensures Join(parts[..n + 1], " OR ") == Join(parts[..n], " OR ") + " OR " + parts[n]
  {
    assert parts[..n + 1] == parts[..n] + [parts[n]];
    JoinSnoc(parts[..n], parts[n], " OR ");
  }

  lemma OneJoin(s: string)
    ensures Join([s], " OR ") == s
  {}

  /** The address and subject keys ask the field of their own name; BODY and TEXT ask every field. */
  lemma TextKeysAsk(word: string, arg: string, dates: string -> Option<int>)
    ensures word in {"SUBJECT", "FROM", "TO", "CC", "BCC"} ==>
      ArgumentKey(word, arg, dates) == Some(NOTHING_YET.(queryString := Some(Asked(AsciiLower(word), arg))))
    ensures word in {"BODY", "TEXT"} ==>
      ArgumentKey(word, arg, dates) == Some(NOTHING_YET.(queryString := Some(Join(AskedOfAll(TEXT_FIELDS, arg), " OR "))))
  {
    hide QuoteQuery, AnyField, Join;
    AnyFieldAsksAll(arg);
    assert AsciiLower("SUBJECT") == "subject" && AsciiLower("FROM") == "from" && AsciiLower("TO") == "to";
    assert AsciiLower("CC") == "cc" && AsciiLower("BCC") == "bcc";
    assert "subject" + ":" == "subject:" && "from" + ":" == "from:" && "to" + ":" == "to:";
    assert "cc" + ":" == "cc:" && "bcc" + ":" == "bcc:";
  }

  const INDEXED_HEADERS: set<string> :=
    {"subject", "from", "to", "cc", "bcc", "message-id", "message_id", "reply-to", "reply_to"}

  /** A HEADER key asks the engine exactly for the fields it indexes, dashes written as underscores. */
  lemma HeaderKeyAsks(field: string, value: string)
    ensures HeaderKey(field, value).headerFilters == [(AsciiLower(field), value)]
    ensures HeaderKey(field, value).queryString ==
      if AsciiLower(field) in INDEXED_HEADERS then Some(Asked(HeaderField(AsciiLower(field)), value)) else None
  {
    hide QuoteQuery, AsciiLower;
  }
}
