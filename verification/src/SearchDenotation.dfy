/**
 What written SEARCH criteria say about a message (section 6.4.4 of RFC 3501), read directly off
 their syntax, and that parsing, flattening and evaluating them comes to the same.
 */
module SearchDenotation {
  import opened Wrappers
  import opened Text
  import opened SearchQuery
  import opened SearchMeaning
  import opened SearchSyntax
  import SearchKeys

  // ---------- the meaning of criteria ----------

  /** Some value is the name, without regard to ASCII case. */
  ghost predicate Carries(values: seq<string>, name: string) {
    exists i :: 0 <= i < |values| && AsciiLower(values[i]) == AsciiLower(name)
  }

  /** Keys that stand alone; recency and free text are not judged on the message record. */
  ghost predicate WordHolds(v: View, word: string) {
    match word
    case "SEEN" => Carries(v.flags, "\\Seen")
    case "UNSEEN" => !Carries(v.flags, "\\Seen")
    case "NEW" => !Carries(v.flags, "\\Seen")
    case "ANSWERED" => Carries(v.flags, "\\Answered")
    case "UNANSWERED" => !Carries(v.flags, "\\Answered")
    case "FLAGGED" => Carries(v.flags, "\\Flagged")
    case "UNFLAGGED" => !Carries(v.flags, "\\Flagged")
    case "DELETED" => Carries(v.flags, "\\Deleted")
    case "UNDELETED" => !Carries(v.flags, "\\Deleted")
    case _ => true
  }

  function ArrivalDay(v: View): int { if v.internalDay.Some? then v.internalDay.value else v.created }

  function SendingDay(v: View): int { if v.sentDay.Some? then v.sentDay.value else ArrivalDay(v) }

  /** The stored size read as an unsigned 64-bit number. */
  function UnsignedSize(v: View): int { if v.size >= 0 then v.size else v.size + 0x1_0000_0000_0000_0000 }

  /** One end of a UID range; `star` is what `*` stands for there. */
  function End(text: string, star: int): int { if text == "*" then star else ParseU64(text).GetOr(0) }

  /** A piece of a UID set: a number, or a range with its ends in either order, where a leading
      `*` is 1 and a trailing one the largest number. */
  predicate PieceHolds(piece: string, u: int) {
    match SplitOnce(piece, ':')
    case Some((a, b)) => End(a, 1) <= u <= End(b, U64_MAX) || End(b, U64_MAX) <= u <= End(a, 1)
    case None => ParseU64(piece) == Some(u)
  }

  ghost predicate SomePieceHolds(pieces: seq<string>, u: int) {
    exists i :: 0 <= i < |pieces| && PieceHolds(pieces[i], u)
  }

  /** Keys with an argument; of the text keys nothing is judged on the message record. */
  ghost predicate ArgumentHolds(v: View, word: string, arg: string, dates: string -> Option<int>) {
    match word
    case "UID" => SomePieceHolds(Split(arg, ','), v.uid)
    case "KEYWORD" => Carries(v.keywords, arg)
    case "UNKEYWORD" => !Carries(v.keywords, arg)
    case "LARGER" => UnsignedSize(v) > ParseU64(arg).GetOr(0)
    case "SMALLER" => UnsignedSize(v) < ParseU64(arg).GetOr(0)
    case "BEFORE" => ArrivalDay(v) < dates(arg).GetOr(0)
    case "ON" => ArrivalDay(v) == dates(arg).GetOr(0)
    case "SINCE" => ArrivalDay(v) >= dates(arg).GetOr(0)
    case "SENTBEFORE" => SendingDay(v) < dates(arg).GetOr(0)
    case "SENTON" => SendingDay(v) == dates(arg).GetOr(0)
    case "SENTSINCE" => SendingDay(v) >= dates(arg).GetOr(0)
    case _ => true
  }

  /** The name a header field is stored under. */
  function StoredName(field: string): string {
    var name := AsciiLower(field);
    if name == "reply-to" then "reply_to" else if name == "message-id" then "message_id" else name
  }

  ghost predicate HeaderHolds(v: View, field: string, value: string) {
    && StoredName(field) in v.headers
    && exists i :: 0 <= i <= |v.headers[StoredName(field)]| && AsciiLower(value) <= AsciiLower(v.headers[StoredName(field)])[i..]
  }

  ghost predicate TreeHolds(v: View, t: Tree, dates: string -> Option<int>) {
    match t
    case Alone(word) => WordHolds(v, AsciiUpper(word))
    case WithArgument(word, arg) => ArgumentHolds(v, AsciiUpper(word), arg, dates)
    case Header(_, field, value) => HeaderHolds(v, field, value)
    case NotTree(_, inner) => !TreeHolds(v, inner, dates)
    case OrTree(_, a, b) => TreeHolds(v, a, dates) || TreeHolds(v, b, dates)
  }

  // ---------- single keys ----------

  lemma CarriesIsFlag(values: seq<string>, name: string)
    ensures Carries(values, name) <==> HasFlag(values, name)
  {}

  lemma OnlyFlag(v: View, flag: string)
    ensures MatchesLeaf(v, NOTHING_YET.(requiredFlags := [flag])) <==> Carries(v.flags, flag)
    ensures MatchesLeaf(v, NOTHING_YET.(forbiddenFlags := [flag])) <==> !Carries(v.flags, flag)
    ensures MatchesLeaf(v, NOTHING_YET.(recentOnly := true, forbiddenFlags := [flag])) <==> !Carries(v.flags, flag)
    ensures MatchesLeaf(v, NOTHING_YET.(requiredKeywords := [flag])) <==> Carries(v.keywords, flag)
    ensures MatchesLeaf(v, NOTHING_YET.(forbiddenKeywords := [flag])) <==> !Carries(v.keywords, flag)
  {
    hide HasFlag, Carries;
    CarriesIsFlag(v.flags, flag);
    CarriesIsFlag(v.keywords, flag);
    assert [flag][0] == flag;
  }

  lemma Unjudged(v: View, text: Option<string>)
    ensures MatchesLeaf(v, NOTHING_YET.(queryString := text)) && MatchesLeaf(v, ALL)
    ensures MatchesLeaf(v, NOTHING_YET.(recentOnly := true)) && MatchesLeaf(v, NOTHING_YET.(oldOnly := true))
  {}

  lemma OnlySize(v: View, n: int)
    ensures MatchesLeaf(v, NOTHING_YET.(largerThan := Some(n))) <==> UnsignedSize(v) > n
    ensures MatchesLeaf(v, NOTHING_YET.(smallerThan := Some(n))) <==> UnsignedSize(v) < n
  {
    hide HasFlag, UidIn;
  }

  lemma WordMeans(v: View, word: string)
    ensures MatchesLeaf(v, WordKey(word)) <==> WordHolds(v, word)
  {
    hide MatchesLeaf, Carries;
    OnlyFlag(v, "\\Seen");
    OnlyFlag(v, "\\Answered");
    OnlyFlag(v, "\\Flagged");
    OnlyFlag(v, "\\Deleted");
    Unjudged(v, Some(word));
  }

  lemma PieceMeans(piece: string, u: int)
    requires UidPart(piece).Some?
    ensures PieceHolds(piece, u) <==> UidPart(piece).value.lo <= u <= UidPart(piece).value.hi
  {
    hide ParseU64, SplitOnce;
  }

  lemma {:induction false} PiecesMean(pieces: seq<string>, u: int)
    requires UidParts(pieces).Some?
    ensures SomePieceHolds(pieces, u) <==> UidIn(UidParts(pieces).value, u)
  {
    hide PieceHolds, UidPart;
    if pieces != [] {
      PiecesMean(pieces[1..], u);
      PieceMeans(pieces[0], u);
      var ranges, rest := UidParts(pieces).value, UidParts(pieces[1..]).value;
      assert ranges == [UidPart(pieces[0]).value] + rest;
      if i :| 0 <= i < |pieces| && PieceHolds(pieces[i], u) { assert i > 0 ==> PieceHolds(pieces[1..][i - 1], u); }
      if i :| 0 <= i < |pieces[1..]| && PieceHolds(pieces[1..][i], u) { assert PieceHolds(pieces[i + 1], u); }
      UidConcat([UidPart(pieces[0]).value], rest, u);
      assert UidIn([UidPart(pieces[0]).value], u) <==> UidPart(pieces[0]).value.lo <= u <= UidPart(pieces[0]).value.hi by {
        OneRange(UidPart(pieces[0]).value, u);
      }
    }
  }

  lemma OneRange(r: UidRange, u: int)
    ensures UidIn([r], u) <==> r.lo <= u <= r.hi
  {
    assert [r][0] == r;
  }

  lemma ArgumentMeans(v: View, word: string, arg: string, dates: string -> Option<int>)
    requires word in ARGUMENT_WORDS && ArgumentKey(word, arg, dates).Some?
    ensures MatchesLeaf(v, ArgumentKey(word, arg, dates).value) <==> ArgumentHolds(v, word, arg, dates)
  {
    hide MatchesLeaf, Carries, UidParts, SomePieceHolds, QuoteQuery, AnyField, ParseU64, ArrivalDay, SendingDay, UnsignedSize;
    OnlyFlag(v, arg);
    OnlySize(v, ParseU64(arg).GetOr(0));
    SameDays(v);
    SearchKeys.OnlyDays(v, dates(arg).GetOr(0));
    var uids := UidParts(Split(arg, ','));
    if uids.Some? {
      PiecesMean(Split(arg, ','), v.uid);
      SearchKeys.UidOnly(v, uids.value);
    }
    Unjudged(v, ArgumentKey(word, arg, dates).value.queryString);
  }

  lemma SameDays(v: View)
    ensures v.Arrived() == ArrivalDay(v) && v.Sent() == SendingDay(v)
  {}

  lemma HeaderMeans(v: View, field: string, value: string)
    ensures MatchesLeaf(v, HeaderKey(field, value)) <==> HeaderHolds(v, field, value)
  {
    hide HasFlag, UidIn, AsciiLower, HeaderQueryString;
    var name := AsciiLower(field);
    var q := HeaderKey(field, value);
    assert q.headerFilters == [(name, value)] && q.headerFilters[0] == (name, value);
    assert HeadersMatch(v, q.headerFilters) <==> HeaderMatches(v, (name, value));
    assert HeaderField(name) == StoredName(field);
    if StoredName(field) in v.headers {
      LowerLength(v.headers[StoredName(field)]);
    }
  }

  lemma LowerLength(s: string)
    ensures |AsciiLower(s)| == |s|
  {}

  // ---------- whole criteria ----------

  /** Evaluating the parsed form of criteria is what they say. */
  lemma {:induction false} TreeMeans(v: View, t: Tree, dates: string -> Option<int>)
    requires Spelt(t, dates)
    ensures MatchesExpr(v, ExprOf(t, dates)) <==> TreeHolds(v, t, dates)
  {
    hide MatchesLeaf, ArgumentKey, WordKey, HeaderKey, AsciiUpper, WordHolds, ArgumentHolds, HeaderHolds;
    match t
    case Alone(word) => WordMeans(v, AsciiUpper(word));
    case WithArgument(word, arg) => ArgumentMeans(v, AsciiUpper(word), arg, dates);
    case Header(_, field, value) => HeaderMeans(v, field, value);
    case NotTree(_, inner) => TreeMeans(v, inner, dates);
    case OrTree(_, a, b) =>
      TreeMeans(v, a, dates);
      TreeMeans(v, b, dates);
  }

  predicate AllSpelt(ts: seq<Tree>, dates: string -> Option<int>) { forall i :: 0 <= i < |ts| ==> Spelt(ts[i], dates) }

  function PrintAll(ts: seq<Tree>): seq<string> { if ts == [] then [] else Print(ts[0]) + PrintAll(ts[1..]) }

  function ExprsOf(ts: seq<Tree>, dates: string -> Option<int>): (es: seq<Expr>)
    requires AllSpelt(ts, dates)
    ensures |es| == |ts| && forall i :: 0 <= i < |ts| ==> es[i] == ExprOf(ts[i], dates)
  {
    if ts == [] then [] else [ExprOf(ts[0], dates)] + ExprsOf(ts[1..], dates)
  }

  /** A list of criteria parses term by term. */
  lemma {:induction false} ListParses(ts: seq<Tree>, dates: string -> Option<int>)
    requires AllSpelt(ts, dates)
    ensures ParseTerms(PrintAll(ts), dates) == Ok(ExprsOf(ts, dates))
  {
    hide ParseTerm, Print, Spelt, ExprOf;
    if ts != [] {
      ListParses(ts[1..], dates);
      ParsePrint(ts[0], PrintAll(ts[1..]), dates);
      assert PrintAll(ts) == Print(ts[0]) + PrintAll(ts[1..]);
      if PrintAll(ts) == [] { NothingParses(dates); }
    }
  }

  lemma NothingParses(dates: string -> Option<int>)
    ensures ParseTerm([], dates).Err?
  {}

  lemma ListMeans(v: View, ts: seq<Tree>, dates: string -> Option<int>)
    requires AllSpelt(ts, dates)
    ensures AllMatch(v, ExprsOf(ts, dates)) <==> forall i :: 0 <= i < |ts| ==> TreeHolds(v, ts[i], dates)
  {
    hide MatchesExpr, TreeHolds, Spelt, ExprOf;
    forall i | 0 <= i < |ts| ensures MatchesExpr(v, ExprsOf(ts, dates)[i]) <==> TreeHolds(v, ts[i], dates) {
      TreeMeans(v, ts[i], dates);
    }
  }

  /** From the words of a SEARCH command to its verdict on a message: the command is accepted, and,
      where repeated top-level ON, SENTON and UID keys agree, the compiled search takes exactly the
      messages of which every criterion holds.  Without that it still takes all of these. */
  lemma SearchSays(v: View, ts: seq<Tree>, dates: string -> Option<int>)
    requires AllSpelt(ts, dates)
    ensures ParseTerms(PrintAll(ts), dates).Ok?
    ensures var search := Compile(ParseTerms(PrintAll(ts), dates).value);
      && ((forall i :: 0 <= i < |ts| ==> TreeHolds(v, ts[i], dates)) ==> Matches(v, search))
      && (Agree(ExprsOf(ts, dates)) ==>
            (Matches(v, search) <==> forall i :: 0 <= i < |ts| ==> TreeHolds(v, ts[i], dates)))
  {
    hide ParseTerms, Compile, Matches, AllMatch, Agree, TreeHolds, PrintAll, ExprsOf;
    ListParses(ts, dates);
    ListMeans(v, ts, dates);
    var es := ExprsOf(ts, dates);
    if AllMatch(v, es) { FlatteningNeverLoses(v, es); }
    if Agree(es) { FlatteningKeepsMeaning(v, es); }
  }

  // ---------- text and recency ----------

  const PLAIN_WORDS: set<string> :=
    {"ALL", "RECENT", "NEW", "OLD", "SEEN", "UNSEEN", "ANSWERED", "UNANSWERED", "FLAGGED", "UNFLAGGED", "DELETED", "UNDELETED"}

  /** The text a top-level key asks the index for, if any: an unknown word asks for itself. */
  function TextOf(t: Tree): Option<string> {
    match t
    case Alone(word) => if AsciiUpper(word) in PLAIN_WORDS then None else Some(AsciiUpper(word))
    case WithArgument(word, arg) =>
      var w := AsciiUpper(word);
      if w in {"SUBJECT", "FROM", "TO", "CC", "BCC"} then Some(Asked(AsciiLower(w), arg))
      else if w in {"BODY", "TEXT"} then Some(Join(SearchKeys.AskedOfAll(SearchKeys.TEXT_FIELDS, arg), " OR "))
      else None
    case Header(_, field, value) =>
      if AsciiLower(field) in SearchKeys.INDEXED_HEADERS then Some(Asked(StoredName(field), value)) else None
    case _ => None
  }

  function TextsOf(ts: seq<Tree>): seq<string> {
    if ts == [] then []
    else TextsOf(ts[..|ts| - 1]) + if TextOf(ts[|ts| - 1]).Some? then [TextOf(ts[|ts| - 1]).value] else []
  }

  ghost predicate SomeWord(ts: seq<Tree>, words: set<string>) {
    exists i :: 0 <= i < |ts| && ts[i].Alone? && AsciiUpper(ts[i].word) in words
  }

  lemma WordAsks(word: string)
    ensures WordKey(word).queryString == if word in PLAIN_WORDS then None else Some(word)
    ensures WordKey(word).recentOnly <==> word in {"RECENT", "NEW"}
    ensures WordKey(word).oldOnly <==> word == "OLD"
  {}

  lemma ArgumentAsks(word: string, arg: string, dates: string -> Option<int>)
    requires word in ARGUMENT_WORDS && ArgumentKey(word, arg, dates).Some?
    ensures !ArgumentKey(word, arg, dates).value.recentOnly && !ArgumentKey(word, arg, dates).value.oldOnly
    ensures word !in {"SUBJECT", "FROM", "TO", "CC", "BCC", "BODY", "TEXT"} ==>
      ArgumentKey(word, arg, dates).value.queryString == None
  {
    hide QuoteQuery, AnyField, UidParts, ParseU64;
  }

  lemma LeafAsks(t: Tree, dates: string -> Option<int>)
    requires Spelt(t, dates)
    ensures ExprOf(t, dates).Leaf? <==> !t.NotTree? && !t.OrTree?
    ensures ExprOf(t, dates).Leaf? ==>
      var q := ExprOf(t, dates).query;
      && q.queryString == TextOf(t)
      && (q.recentOnly <==> t.Alone? && AsciiUpper(t.word) in {"RECENT", "NEW"})
      && (q.oldOnly <==> t.Alone? && AsciiUpper(t.word) in {"OLD"})
    ensures !ExprOf(t, dates).Leaf? ==> TextOf(t) == None
  {
    hide ArgumentKey, WordKey, HeaderKey, AsciiUpper, Join, Asked, SearchKeys.AskedOfAll;
    match t
    case Alone(word) => WordAsks(AsciiUpper(word));
    case WithArgument(word, arg) =>
      ArgumentAsks(AsciiUpper(word), arg, dates);
      SearchKeys.TextKeysAsk(AsciiUpper(word), arg, dates);
    case Header(_, field, value) =>
      SearchKeys.HeaderKeyAsks(field, value);
      HeaderQuiet(field, value);
      assert HeaderField(AsciiLower(field)) == StoredName(field);
    case NotTree(_, _) =>
    case OrTree(_, _, _) =>
  }

  lemma HeaderQuiet(field: string, value: string)
    ensures !HeaderKey(field, value).recentOnly && !HeaderKey(field, value).oldOnly
  {}

  lemma {:induction false} TextsAgree(ts: seq<Tree>, dates: string -> Option<int>)
    requires AllSpelt(ts, dates)
    ensures SearchKeys.Texts(ExprsOf(ts, dates)) == TextsOf(ts)
  {
    hide Spelt, ExprOf, TextOf;
    if ts != [] {
      var front := ts[..|ts| - 1];
      TextsAgree(front, dates);
      LeafAsks(ts[|ts| - 1], dates);
      assert ExprsOf(ts, dates)[..|ts| - 1] == ExprsOf(front, dates);
    }
  }

  /** What a command asks of the text index and of recency: all the texts of its top-level keys,
      space-joined in the order written, and recent (old) messages exactly when some key does. */
  lemma SearchAsks(ts: seq<Tree>, dates: string -> Option<int>)
    requires AllSpelt(ts, dates)
    ensures ParseTerms(PrintAll(ts), dates).Ok?
    ensures var q := Compile(ParseTerms(PrintAll(ts), dates).value).flat;
      && q.queryString == (if TextsOf(ts) == [] then None else Some(Join(TextsOf(ts), " ")))
      && (q.recentOnly <==> SomeWord(ts, {"RECENT", "NEW"})) && (q.oldOnly <==> SomeWord(ts, {"OLD"}))
  {
    hide ParseTerms, PrintAll, Spelt, ExprOf, TextOf, TextsOf, Join, FlatPart;
    ListParses(ts, dates);
    var es := ExprsOf(ts, dates);
    TextsAgree(ts, dates);
    SearchKeys.FlatKeepsTexts(es);
    SearchKeys.FlatKeepsRecency(es);
    forall i | 0 <= i < |ts|
      ensures es[i].Leaf? <==> !ts[i].NotTree? && !ts[i].OrTree?
      ensures es[i].Leaf? ==> (es[i].query.recentOnly <==> ts[i].Alone? && AsciiUpper(ts[i].word) in {"RECENT", "NEW"})
      ensures es[i].Leaf? ==> (es[i].query.oldOnly <==> ts[i].Alone? && AsciiUpper(ts[i].word) in {"OLD"})
    {
      LeafAsks(ts[i], dates);
    }
  }

  // ---------- the algebra of compiled searches ----------

  lemma CompileOne(v: View, e: Expr)
    ensures Matches(v, Compile([e])) <==> MatchesExpr(v, e)
  {
    hide Matches, MatchesExpr, Compile;
    assert [e][..0] == [];
    SingleKeysAgree([e]);
    FlatteningKeepsMeaning(v, [e]);
    assert [e][0] == e;
  }

  /** OR, NOT and a list of terms are union, complement and intersection of what is found. */
  lemma CompiledAlgebra(v: View, a: Expr, b: Expr)
    ensures Matches(v, Compile([Or(a, b)])) <==> Matches(v, Compile([a])) || Matches(v, Compile([b]))
    ensures Matches(v, Compile([Not(a)])) <==> !Matches(v, Compile([a]))
    ensures Matches(v, Compile([Not(Or(a, b))])) <==> Matches(v, Compile([Not(a), Not(b)]))
    ensures Matches(v, Compile([And([a, b])])) <==> Matches(v, Compile([a])) && Matches(v, Compile([b]))
  {
    hide Matches, Compile;
    CompileOne(v, Or(a, b));
    CompileOne(v, a);
    CompileOne(v, b);
    CompileOne(v, Not(a));
    CompileOne(v, Not(Or(a, b)));
    CompileOne(v, And([a, b]));
    assert [a, b][0] == a && [a, b][1] == b;
    var list := [Not(a), Not(b)];
    PairLists(Not(a), Not(b));
    SingleKeysAgree(list);
    FlatteningKeepsMeaning(v, list);
    assert list[0] == Not(a) && list[1] == Not(b);
  }
}
