/** The prefix notation of SEARCH criteria is unambiguous: printing and parsing undo each other. */
module SearchSyntax {
  import opened Wrappers
  import opened Text
  import opened SearchQuery

  /** Criteria as written, each word in whatever case it was written. */
  datatype Tree =
    | Alone(word: string)
    | WithArgument(word: string, arg: string)
    | Header(word: string, field: string, value: string)
    | NotTree(word: string, inner: Tree)
    | OrTree(word: string, left: Tree, right: Tree)

  /** A word that takes nothing after it: a plain key, or unknown and searched for itself. */
  predicate StandsAlone(word: string) {
    var w := AsciiUpper(word);
    w != "NOT" && w != "OR" && w != "HEADER" && w !in ARGUMENT_WORDS
  }

  /** The words are what the tree says, and arguments that must be dates, sizes or UID sets are. */
  predicate Spelt(t: Tree, dates: string -> Option<int>) {
    match t
    case Alone(word) => StandsAlone(word)
    case WithArgument(word, arg) =>
      var w := AsciiUpper(word);
      w in ARGUMENT_WORDS && ArgumentKey(w, arg, dates).Some?
    case Header(word, _, _) => AsciiUpper(word) == "HEADER"
    case NotTree(word, inner) => AsciiUpper(word) == "NOT" && Spelt(inner, dates)
    case OrTree(word, a, b) => AsciiUpper(word) == "OR" && Spelt(a, dates) && Spelt(b, dates)
  }

  function Print(t: Tree): seq<string> {
    match t
    case Alone(word) => [word]
    case WithArgument(word, arg) => [word, arg]
    case Header(word, field, value) => [word, field, value]
    case NotTree(word, inner) => [word] + Print(inner)
    case OrTree(word, a, b) => [word] + Print(a) + Print(b)
  }

  function ExprOf(t: Tree, dates: string -> Option<int>): Expr
    requires Spelt(t, dates)
  {
    match t
    case Alone(word) => Leaf(WordKey(AsciiUpper(word)))
    case WithArgument(word, arg) => Leaf(ArgumentKey(AsciiUpper(word), arg, dates).value)
    case Header(_, field, value) => Leaf(HeaderKey(field, value))
    case NotTree(_, inner) => Not(ExprOf(inner, dates))
    case OrTree(_, a, b) => Or(ExprOf(a, dates), ExprOf(b, dates))
  }

  /** Words are read without regard to ASCII case. */
  lemma KeywordsInAnyCase(a: string, b: string)
    ensures AsciiUpper(a) == AsciiUpper(b) <==> AsciiLower(a) == AsciiLower(b)
  {
    if AsciiUpper(a) == AsciiUpper(b) {
      forall i | 0 <= i < |a| ensures AsciiLower(a)[i] == AsciiLower(b)[i] { assert AsciiUpper(a)[i] == AsciiUpper(b)[i]; }
    }
    if AsciiLower(a) == AsciiLower(b) {
      forall i | 0 <= i < |a| ensures AsciiUpper(a)[i] == AsciiUpper(b)[i] { assert AsciiLower(a)[i] == AsciiLower(b)[i]; }
    }
  }

  lemma KeywordsApart()
    ensures "NOT" !in ARGUMENT_WORDS && "OR" !in ARGUMENT_WORDS && "HEADER" !in ARGUMENT_WORDS
  {}

  lemma ParseAlone(word: string, rest: seq<string>, dates: string -> Option<int>)
    requires StandsAlone(word)
    ensures ParseTerm([word] + rest, dates) == Ok((Leaf(WordKey(AsciiUpper(word))), rest))
  {
    hide ArgumentKey, HeaderKey, AsciiUpper, WordKey;
    assert ([word] + rest)[1..] == rest;
  }

  lemma ParseWithArgument(word: string, arg: string, rest: seq<string>, dates: string -> Option<int>)
    requires AsciiUpper(word) in ARGUMENT_WORDS && ArgumentKey(AsciiUpper(word), arg, dates).Some?
    ensures ParseTerm([word, arg] + rest, dates) == Ok((Leaf(ArgumentKey(AsciiUpper(word), arg, dates).value), rest))
  {
    hide ArgumentKey, HeaderKey, AsciiUpper, WordKey;
    KeywordsApart();
    assert ([word, arg] + rest)[1..] == [arg] + rest && ([arg] + rest)[1..] == rest;
  }

  lemma ParseHeader(word: string, field: string, value: string, rest: seq<string>, dates: string -> Option<int>)
    requires AsciiUpper(word) == "HEADER"
    ensures ParseTerm([word, field, value] + rest, dates) == Ok((Leaf(HeaderKey(field, value)), rest))
  {
    hide ArgumentKey, HeaderKey, AsciiUpper, WordKey;
    KeywordsApart();
    assert ([word, field, value] + rest)[1..] == [field, value] + rest && ([field, value] + rest)[2..] == rest;
  }

  lemma ParseNot(word: string, rest: seq<string>, dates: string -> Option<int>)
    requires AsciiUpper(word) == "NOT" && ParseTerm(rest, dates).Ok?
    ensures var (inner, left) := ParseTerm(rest, dates).value; ParseTerm([word] + rest, dates) == Ok((Not(inner), left))
  {
    hide ArgumentKey, HeaderKey, AsciiUpper, WordKey;
    assert ([word] + rest)[1..] == rest;
  }

  lemma ParseOr(word: string, rest: seq<string>, dates: string -> Option<int>)
    requires AsciiUpper(word) == "OR" && ParseTerm(rest, dates).Ok? && ParseTerm(ParseTerm(rest, dates).value.1, dates).Ok?
    ensures var (a, middle) := ParseTerm(rest, dates).value;
      var (b, left) := ParseTerm(middle, dates).value;
      ParseTerm([word] + rest, dates) == Ok((Or(a, b), left))
  {
    hide ArgumentKey, HeaderKey, AsciiUpper, WordKey;
    assert ([word] + rest)[1..] == rest;
  }

  /** Parsing printed criteria gives the tree back and stops exactly behind it. */
  lemma {:induction false} ParsePrint(t: Tree, rest: seq<string>, dates: string -> Option<int>)
    requires Spelt(t, dates)
    ensures ParseTerm(Print(t) + rest, dates) == Ok((ExprOf(t, dates), rest))
  {
    hide ParseTerm, ArgumentKey, HeaderKey, AsciiUpper, WordKey;
    match t
    case Alone(word) => ParseAlone(word, rest, dates);
    case WithArgument(word, arg) => ParseWithArgument(word, arg, rest, dates);
    case Header(word, field, value) => ParseHeader(word, field, value, rest, dates);
    case NotTree(word, inner) =>
      ParsePrint(inner, rest, dates);
      ParseNot(word, Print(inner) + rest, dates);
      assert Print(t) + rest == [word] + (Print(inner) + rest);
    case OrTree(word, a, b) =>
      ParsePrint(a, Print(b) + rest, dates);
      ParsePrint(b, rest, dates);
      ParseOr(word, Print(a) + (Print(b) + rest), dates);
      assert Print(t) + rest == [word] + (Print(a) + (Print(b) + rest));
  }

  /** What an accepted term must have behind its first word. */
  lemma AcceptedShape(tokens: seq<string>, dates: string -> Option<int>)
    requires ParseTerm(tokens, dates).Ok?
    ensures tokens != []
    ensures var (word, rest) := (AsciiUpper(tokens[0]), tokens[1..]);
      if word == "NOT" then ParseTerm(rest, dates).Ok?
      else if word == "OR" then ParseTerm(rest, dates).Ok? && ParseTerm(ParseTerm(rest, dates).value.1, dates).Ok?
      else if word in ARGUMENT_WORDS then rest != [] && ArgumentKey(word, rest[0], dates).Some?
      else word == "HEADER" ==> |rest| >= 2
  {
    hide ArgumentKey, HeaderKey, AsciiUpper, WordKey;
  }

  /** Whatever the parser accepts was the print of some criteria, followed by what it left. */
  lemma {:induction false} ParseIsPrint(tokens: seq<string>, dates: string -> Option<int>) returns (t: Tree)
    requires ParseTerm(tokens, dates).Ok?
    ensures Spelt(t, dates)
    ensures var (e, rest) := ParseTerm(tokens, dates).value; e == ExprOf(t, dates) && tokens == Print(t) + rest
    decreases |tokens|
  {
    hide ParseTerm, ArgumentKey, HeaderKey, AsciiUpper, WordKey;
    AcceptedShape(tokens, dates);
    var word, rest := tokens[0], tokens[1..];
    assert tokens == [word] + rest;
    var upper := AsciiUpper(word);
    if upper == "NOT" {
      ParseNot(word, rest, dates);
      var inner := ParseIsPrint(rest, dates);
      t := NotTree(word, inner);
      Regroup([word], Print(inner), [], ParseTerm(rest, dates).value.1);
    } else if upper == "OR" {
      ParseOr(word, rest, dates);
      var middle := ParseTerm(rest, dates).value.1;
      var a := ParseIsPrint(rest, dates);
      var b := ParseIsPrint(middle, dates);
      t := OrTree(word, a, b);
      Regroup([word], Print(a), Print(b), ParseTerm(middle, dates).value.1);
    } else if upper in ARGUMENT_WORDS {
      ParseWithArgument(word, rest[0], rest[1..], dates);
      t := WithArgument(word, rest[0]);
      assert tokens == [word, rest[0]] + rest[1..];
    } else if upper == "HEADER" {
      ParseHeader(word, rest[0], rest[1], rest[2..], dates);
      t := Header(word, rest[0], rest[1]);
      assert tokens == [word, rest[0], rest[1]] + rest[2..];
    } else {
      ParseAlone(word, rest, dates);
      t := Alone(word);
    }
  }

  lemma Regroup(a: seq<string>, b: seq<string>, c: seq<string>, d: seq<string>)
    ensures a + (b + (c + d)) == a + b + c + d && b + [] == b && [] + d == d
    ensures c == [] ==> a + (b + d) == a + b + d
  {}

  /** One token list cannot be read two ways. */
  lemma Unambiguous(a: Tree, x: seq<string>, b: Tree, y: seq<string>, dates: string -> Option<int>)
    requires Spelt(a, dates) && Spelt(b, dates) && Print(a) + x == Print(b) + y
    ensures ExprOf(a, dates) == ExprOf(b, dates) && x == y && Print(a) == Print(b)
  {
    hide Spelt, ExprOf, Print;
    ParsePrint(a, x, dates);
    ParsePrint(b, y, dates);
    assert |Print(a)| == |Print(b)|;
    assert Print(a) == (Print(a) + x)[..|Print(a)|] && Print(b) == (Print(b) + y)[..|Print(b)|];
  }
}
