/**
 SEARCH criteria (crates/search/src/lib.rs): the query record, the prefix-notation parser and
 the flattening of a term list into one record.
 */
module SearchQuery {
  import opened Wrappers
  import opened Text
  import Quoting

  datatype UidRange = UidRange(lo: int, hi: int)

  /** `UidSet::contains`. */
  predicate UidIn(s: seq<UidRange>, uid: int) { exists i :: 0 <= i < |s| && s[i].lo <= uid <= s[i].hi }

  /** Dates are day numbers. */
  datatype Query = Query(
    matchAll: bool, queryString: Option<string>, uidFilter: Option<seq<UidRange>>, recentOnly: bool, oldOnly: bool,
    headerFilters: seq<(string, string)>, requiredFlags: seq<string>, forbiddenFlags: seq<string>,
    requiredKeywords: seq<string>, forbiddenKeywords: seq<string>, largerThan: Option<int>, smallerThan: Option<int>,
    before: Option<int>, on: Option<int>, since: Option<int>,
    sentBefore: Option<int>, sentOn: Option<int>, sentSince: Option<int>)

  datatype Expr = Leaf(query: Query) | And(terms: seq<Expr>) | Or(left: Expr, right: Expr) | Not(inner: Expr)

  /** A compiled search: the merged leaf terms and the rest. */
  datatype Search = Search(flat: Query, expr: Option<Expr>)

  const ALL: Query :=
    Query(true, None, None, false, false, [], [], [], [], [], None, None, None, None, None, None, None, None)

  const NOTHING_YET: Query := ALL.(matchAll := false)

  // ---------- single keys ----------

  function AsciiUpper(s: string): (r: string)
    ensures |r| == |s|
  {
    seq(|s|, i requires 0 <= i < |s| => if 'a' <= s[i] <= 'z' then s[i] - ' ' else s[i])
  }

  /** Keys that stand alone. */
  function PlainKey(word: string): Option<Query> {
    match word
    case "ALL" => Some(ALL)
    case "RECENT" => Some(NOTHING_YET.(recentOnly := true))
    case "NEW" => Some(NOTHING_YET.(recentOnly := true, forbiddenFlags := ["\\Seen"]))
    case "OLD" => Some(NOTHING_YET.(oldOnly := true))
    case "SEEN" => Some(NOTHING_YET.(requiredFlags := ["\\Seen"]))
    case "UNSEEN" => Some(NOTHING_YET.(forbiddenFlags := ["\\Seen"]))
    case "ANSWERED" => Some(NOTHING_YET.(requiredFlags := ["\\Answered"]))
    case "UNANSWERED" => Some(NOTHING_YET.(forbiddenFlags := ["\\Answered"]))
    case "FLAGGED" => Some(NOTHING_YET.(requiredFlags := ["\\Flagged"]))
    case "UNFLAGGED" => Some(NOTHING_YET.(forbiddenFlags := ["\\Flagged"]))
    case "DELETED" => Some(NOTHING_YET.(requiredFlags := ["\\Deleted"]))
    case "UNDELETED" => Some(NOTHING_YET.(forbiddenFlags := ["\\Deleted"]))
    case _ => None
  }

  const ARGUMENT_WORDS: set<string> :=
    {"UID", "SUBJECT", "FROM", "TO", "CC", "BCC", "BODY", "TEXT", "KEYWORD", "UNKEYWORD", "LARGER", "SMALLER",
     "BEFORE", "SINCE", "ON", "SENTBEFORE", "SENTSINCE", "SENTON"}

  function QuoteQuery(term: string): string {
    if exists c :: c in term && (IsWhitespace(c) || c in ":\"()\\")
    then "\"" + Quoting.Replace(Quoting.Replace(term, '\\', "\\\\"), '"', "\\\"") + "\"" else term
  }

  /** A text asked of one field of the index. */
  function Asked(field: string, term: string): string { field + ":" + QuoteQuery(term) }

  function AnyField(term: string): string {
    Asked("body", term) + " OR " + Asked("subject", term) + " OR " + Asked("from", term) + " OR " + Asked("to", term)
    + " OR " + Asked("cc", term) + " OR " + Asked("bcc", term)
  }

  function UidBound(text: string): Result<Option<int>> {
    if text == "*" then Ok(None)
    else match ParseU64(text) case None => Err case Some(n) => Ok(Some(n))
  }

  function OrderedRange(a: int, b: int): UidRange { if a <= b then UidRange(a, b) else UidRange(b, a) }

  function UidPart(part: string): Option<UidRange> {
    match SplitOnce(part, ':')
    case Some((a, b)) =>
      var lo, hi := UidBound(a), UidBound(b);
      if lo.Err? || hi.Err? then None else Some(OrderedRange(lo.value.GetOr(1), hi.value.GetOr(U64_MAX)))
    case None =>
      var uid := UidBound(part);
      if uid.Err? || uid.value.None? then None else Some(UidRange(uid.value.value, uid.value.value))
  }

  function UidParts(parts: seq<string>): Option<seq<UidRange>> {
    if parts == [] then Some([])
    else
      var first, rest := UidPart(parts[0]), UidParts(parts[1..]);
      if first.None? || rest.None? then None else Some([first.value] + rest.value)
  }

  /** Keys with one argument; `dates` reads an IMAP date. */
  function ArgumentKey(word: string, arg: string, dates: string -> Option<int>): Option<Query> {
    var q := NOTHING_YET;
    match word
    case "UID" =>
      var uids := UidParts(Split(arg, ','));
      if uids.None? then None else Some(q.(uidFilter := uids))
    case "SUBJECT" => Some(q.(queryString := Some("subject:" + QuoteQuery(arg))))
    case "FROM" => Some(q.(queryString := Some("from:" + QuoteQuery(arg))))
    case "TO" => Some(q.(queryString := Some("to:" + QuoteQuery(arg))))
    case "CC" => Some(q.(queryString := Some("cc:" + QuoteQuery(arg))))
    case "BCC" => Some(q.(queryString := Some("bcc:" + QuoteQuery(arg))))
    case "BODY" => Some(q.(queryString := Some(AnyField(arg))))
    case "TEXT" => Some(q.(queryString := Some(AnyField(arg))))
    case "KEYWORD" => Some(q.(requiredKeywords := [arg]))
    case "UNKEYWORD" => Some(q.(forbiddenKeywords := [arg]))
    case "LARGER" => if ParseU64(arg).None? then None else Some(q.(largerThan := ParseU64(arg)))
    case "SMALLER" => if ParseU64(arg).None? then None else Some(q.(smallerThan := ParseU64(arg)))
    case "BEFORE" => if dates(arg).None? then None else Some(q.(before := dates(arg)))
    case "SINCE" => if dates(arg).None? then None else Some(q.(since := dates(arg)))
    case "ON" => if dates(arg).None? then None else Some(q.(on := dates(arg)))
    case "SENTBEFORE" => if dates(arg).None? then None else Some(q.(sentBefore := dates(arg)))
    case "SENTSINCE" => if dates(arg).None? then None else Some(q.(sentSince := dates(arg)))
    case "SENTON" => if dates(arg).None? then None else Some(q.(sentOn := dates(arg)))
    case _ => None
  }

  function HeaderQueryString(field: string, value: string): Option<string> {
    var target :=
      match field
      case "subject" => "subject" case "from" => "from" case "to" => "to" case "cc" => "cc" case "bcc" => "bcc"
      case "message-id" => "message_id" case "message_id" => "message_id"
      case "reply-to" => "reply_to" case "reply_to" => "reply_to"
      case _ => "";
    if target == "" then None else Some(target + ":" + QuoteQuery(value))
  }

  function HeaderKey(field: string, value: string): Query {
    var name := AsciiLower(field);
    NOTHING_YET.(headerFilters := [(name, value)], queryString := HeaderQueryString(name, value))
  }

  /** An unknown word searches for itself. */
  function WordKey(word: string): Query {
    match PlainKey(word)
    case Some(q) => q
    case None => NOTHING_YET.(queryString := Some(word))
  }

  // ---------- the parser ----------

  /** `parse_term` on a token list: the term and the tokens behind it. */
  function ParseTerm(tokens: seq<string>, dates: string -> Option<int>): (r: Result<(Expr, seq<string>)>)
    ensures r.Ok? ==> |r.value.1| < |tokens|
    decreases |tokens|
  {
    if tokens == [] then Err
    else
      var word, rest := AsciiUpper(tokens[0]), tokens[1..];
      if word == "NOT" then
        match ParseTerm(rest, dates)
        case Err => Err
        case Ok((inner, left)) => Ok((Not(inner), left))
      else if word == "OR" then
        match ParseTerm(rest, dates)
        case Err => Err
        case Ok((a, middle)) =>
          match ParseTerm(middle, dates)
          case Err => Err
          case Ok((b, left)) => Ok((Or(a, b), left))
      else if word in ARGUMENT_WORDS then
        if rest == [] || ArgumentKey(word, rest[0], dates).None? then Err
        else Ok((Leaf(ArgumentKey(word, rest[0], dates).value), rest[1..]))
      else if word == "HEADER" then
        if |rest| < 2 then Err else Ok((Leaf(HeaderKey(rest[0], rest[1])), rest[2..]))
      else Ok((Leaf(WordKey(word)), rest))
  }

  /** All terms of a criteria list. */
  function ParseTerms(tokens: seq<string>, dates: string -> Option<int>): Result<seq<Expr>>
    decreases |tokens|
  {
    if tokens == [] then Ok([])
    else
      match ParseTerm(tokens, dates)
      case Err => Err
      case Ok((term, rest)) =>
        match ParseTerms(rest, dates)
        case Err => Err
        case Ok(terms) => Ok([term] + terms)
  }

  // ---------- flattening ----------

  predicate IsIdentity(q: Query) { q.(matchAll := true) == ALL }

  function Latest(a: Option<int>, b: Option<int>): Option<int> {
    if a.Some? && b.Some? then Some(if a.value >= b.value then a.value else b.value) else if b.Some? then b else a
  }

  function Earliest(a: Option<int>, b: Option<int>): Option<int> {
    if a.Some? && b.Some? then Some(if a.value <= b.value then a.value else b.value) else if b.Some? then b else a
  }

  function First(a: Option<int>, b: Option<int>): Option<int> { if a.Some? then a else b }

  /** `merge_query_fields`: bounds tighten, the first ON and SENTON win, UID sets are united. */
  function Merge(acc: Query, f: Query): Query {
    Query(
      false,
      if f.queryString.None? then acc.queryString
      else if acc.queryString.None? then f.queryString
      else Some(acc.queryString.value + " " + f.queryString.value),
      if acc.uidFilter.Some? && f.uidFilter.Some? then Some(acc.uidFilter.value + f.uidFilter.value)
      else if f.uidFilter.Some? then f.uidFilter else acc.uidFilter,
      acc.recentOnly || f.recentOnly,
      acc.oldOnly || f.oldOnly,
      acc.headerFilters + f.headerFilters,
      acc.requiredFlags + f.requiredFlags,
      acc.forbiddenFlags + f.forbiddenFlags,
      acc.requiredKeywords + f.requiredKeywords,
      acc.forbiddenKeywords + f.forbiddenKeywords,
      Latest(acc.largerThan, f.largerThan),
      Earliest(acc.smallerThan, f.smallerThan),
      Earliest(acc.before, f.before),
      First(acc.on, f.on),
      Latest(acc.since, f.since),
      Earliest(acc.sentBefore, f.sentBefore),
      First(acc.sentOn, f.sentOn),
      Latest(acc.sentSince, f.sentSince))
  }

  /** The merged leaf terms, in order. */
  function FlatPart(terms: seq<Expr>): Query {
    if terms == [] then NOTHING_YET
    else
      var (before, last) := (FlatPart(terms[..|terms| - 1]), terms[|terms| - 1]);
      if last.Leaf? && !IsIdentity(last.query) then Merge(before, last.query) else before
  }

  /** The terms that are not single keys. */
  function NestedPart(terms: seq<Expr>): seq<Expr> {
    if terms == [] then []
    else
      NestedPart(terms[..|terms| - 1]) + if terms[|terms| - 1].Leaf? then [] else [terms[|terms| - 1]]
  }

  function Compile(terms: seq<Expr>): Search {
    var flat, nested := FlatPart(terms), NestedPart(terms);
    if nested == [] then if IsIdentity(flat) then Search(ALL, None) else Search(flat, None)
    else Search(flat.(matchAll := false), Some(if |nested| == 1 then nested[0] else And(nested)))
  }

  class Parser {
    const tokens: seq<string>
    const dates: string -> Option<int>
    var index: nat

    constructor (tokens: seq<string>, dates: string -> Option<int>)
      ensures this.tokens == tokens && this.dates == dates && index == 0
    {
      this.tokens, this.dates, this.index := tokens, dates, 0;
    }

    method NextToken() returns (token: Option<string>)
      requires index <= |tokens|
      modifies this`index
      ensures token == if old(index) < |tokens| then Some(tokens[old(index)]) else None
      ensures index == if old(index) < |tokens| then old(index) + 1 else old(index)
    {
      if index < |tokens| {
        token := Some(tokens[index]);
        index := index + 1;
      } else {
        token := None;
      }
    }

    /** Reads one term and leaves the index behind it. */
    method ReadTerm() returns (term: Result<Expr>)
      requires index <= |tokens|
      modifies this`index
      ensures old(index) <= index <= |tokens|
      ensures match ParseTerm(tokens[old(index)..], dates)
        case Err => term.Err?
        case Ok((e, rest)) => term == Ok(e) && old(index) < index && tokens[index..] == rest
      decreases |tokens| - index
    {
      hide ArgumentKey, PlainKey, HeaderKey, AsciiUpper;
      ghost var start := index;
      var token := NextToken();
      if token.None? {
        return Err;
      }
      assert tokens[start..][1..] == tokens[index..];
      var word := AsciiUpper(token.value);
      if word == "NOT" {
        var inner := ReadTerm();
        return if inner.Ok? then Ok(Not(inner.value)) else Err;
      }
      if word == "OR" {
        var left := ReadTerm();
        if left.Err? {
          return Err;
        }
        var right := ReadTerm();
        return if right.Ok? then Ok(Or(left.value, right.value)) else Err;
      }
      if word in ARGUMENT_WORDS {
        var arg := NextToken();
        if arg.None? || ArgumentKey(word, arg.value, dates).None? {
          return Err;
        }
        assert tokens[start..][1..][1..] == tokens[index..];
        return Ok(Leaf(ArgumentKey(word, arg.value, dates).value));
      }
      if word == "HEADER" {
        var field := NextToken();
        var value := NextToken();
        if field.None? || value.None? {
          return Err;
        }
        assert tokens[start..][1..][2..] == tokens[index..];
        return Ok(Leaf(HeaderKey(field.value, value.value)));
      }
      term := Ok(Leaf(WordKey(word)));
    }

    /** The whole criteria list, merging as it goes. */
    method Parse() returns (r: Result<Search>)
      requires index == 0
      modifies this`index
      ensures match ParseTerms(tokens, dates)
        case Err => r.Err?
        case Ok(terms) => r == Ok(Compile(terms))
    {
      hide ParseTerm, Merge, IsIdentity;
      var flat := NOTHING_YET;
      var nested: seq<Expr> := [];
      ghost var done: seq<Expr> := [];
      assert tokens[0..] == tokens;
      assert ParseTerms(tokens, dates).Ok? ==> done + ParseTerms(tokens, dates).value == ParseTerms(tokens, dates).value;
      while index < |tokens|
        invariant index <= |tokens|
        invariant flat == FlatPart(done) && nested == NestedPart(done)
        invariant match ParseTerms(tokens[index..], dates)
          case Err => ParseTerms(tokens, dates).Err?
          case Ok(rest) => ParseTerms(tokens, dates) == Ok(done + rest)
        decreases |tokens| - index
      {
        ghost var at := index;
        var term := ReadTerm();
        if term.Err? {
          return Err;
        }
        ghost var before := done;
        done := done + [term.value];
        assert done[..|done| - 1] == before;
        if ParseTerms(tokens[index..], dates).Ok? {
          assert before + ([term.value] + ParseTerms(tokens[index..], dates).value) == done + ParseTerms(tokens[index..], dates).value;
        }
        match term.value {
          case Leaf(fragment) =>
            if !IsIdentity(fragment) {
              flat := Merge(flat, fragment);
            }
          case _ => nested := nested + [term.value];
        }
      }
      assert tokens[index..] == [];
      assert done + [] == done;
      if nested == [] {
        return Ok(if IsIdentity(flat) then Search(ALL, None) else Search(flat, None));
      }
      r := Ok(Search(flat.(matchAll := false), Some(if |nested| == 1 then nested[0] else And(nested))));
    }
  }
}
