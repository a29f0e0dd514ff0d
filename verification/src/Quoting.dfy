/**
 Quoted strings on the wire: the server's tokenizer and command parser
 (crates/protocol/src/lib.rs) and the upstream client's quoting (crates/upstream/src/lib.rs).
 */
module Quoting {
  import opened Wrappers
  import opened Text

  // ---------- printing ----------

  /** `str::replace` of one character. */
  function Replace(s: string, c: char, with: string): string {
    if s == "" then "" else (if s[0] == c then with else [s[0]]) + Replace(s[1..], c, with)
  }

  /** `quote_imap_string` and the upstream `quote`. */
  function Quote(s: string): string {
    "\"" + Replace(Replace(s, '\\', "\\\\"), '"', "\\\"") + "\""
  }

  /** Each quote and each backslash preceded by a backslash. */
  function Escape(s: string): string {
    if s == "" then "" else (if s[0] == '"' || s[0] == '\\' then ['\\', s[0]] else [s[0]]) + Escape(s[1..])
  }

  lemma {:induction false} ReplaceConcat(a: string, b: string, c: char, with: string)
    ensures Replace(a + b, c, with) == Replace(a, c, with) + Replace(b, c, with)
  {
    if a == "" {
      assert a + b == b;
    } else {
      assert (a + b)[1..] == a[1..] + b;
      ReplaceConcat(a[1..], b, c, with);
    }
  }

  /** The two replacements in their order amount to escaping each character once. */
  lemma {:induction false} QuoteEscapes(s: string)
    ensures Quote(s) == "\"" + Escape(s) + "\""
  {
    if s != "" {
      QuoteEscapes(s[1..]);
      var head := if s[0] == '\\' then "\\\\" else [s[0]];
      var tail := Replace(s[1..], '\\', "\\\\");
      ReplaceConcat(head, tail, '"', "\\\"");
      assert Replace(s, '\\', "\\\\") == head + tail;
      EscapeOne(s[0]);
      UnquotedTail(s[1..]);
    }
  }

  lemma EscapeOne(c: char)
    ensures Replace(if c == '\\' then "\\\\" else [c], '"', "\\\"") == if c == '"' || c == '\\' then ['\\', c] else [c]
  {
    var empty := Replace("", '"', "\\\"");
    assert "\\"[1..] == "" && "\\\\"[1..] == "\\";
    assert Replace("\\", '"', "\\\"") == "\\" + empty;
    assert Replace("\\\\", '"', "\\\"") == "\\" + ("\\" + empty);
    assert [c][1..] == "";
    assert Replace([c], '"', "\\\"") == (if c == '"' then "\\\"" else [c]) + empty;
  }

  lemma UnquotedTail(s: string)
    requires Quote(s) == "\"" + Escape(s) + "\""
    ensures Replace(Replace(s, '\\', "\\\\"), '"', "\\\"") == Escape(s)
  {
    var q := Quote(s);
    assert q[1..|q| - 1] == Escape(s);
  }

  // ---------- the upstream reader ----------

  /** What the escape loop makes of a text; a lone backslash at the end is dropped. */
  function Unescape(s: string, escaped: bool): string {
    if s == "" then ""
    else if escaped then [s[0]] + Unescape(s[1..], false)
    else if s[0] == '\\' then Unescape(s[1..], true)
    else [s[0]] + Unescape(s[1..], false)
  }

  predicate IsQuoted(s: string) { |s| >= 2 && s[0] == '"' && s[|s| - 1] == '"' }

  function Unquoted(value: string): string {
    var trimmed := Trim(value);
    if IsQuoted(trimmed) then Unescape(trimmed[1..|trimmed| - 1], false) else trimmed
  }

  /** The escape loop by the character at a place. */
  lemma UnescapeAt(s: string, at: nat, escaped: bool)
    requires at < |s|
    ensures !escaped && s[at] == '\\' ==> Unescape(s[at..], escaped) == Unescape(s[at + 1..], true)
    ensures escaped || s[at] != '\\' ==> Unescape(s[at..], escaped) == [s[at]] + Unescape(s[at + 1..], false)
  {
    assert s[at..][1..] == s[at + 1..];
  }

  lemma UnescapeNil(escaped: bool)
    ensures Unescape("", escaped) == ""
  {}

  method Unquote(value: string) returns (out: string)
    ensures out == Unquoted(value)
  {
    hide Trim, Unescape;
    var trimmed := Trim(value);
    if !IsQuoted(trimmed) {
      return trimmed;
    }
    var inner := trimmed[1..|trimmed| - 1];
    out := "";
    var escaped := false;
    assert inner[0..] == inner;
    for i := 0 to |inner|
      invariant out + Unescape(inner[i..], escaped) == Unescape(inner, false)
    {
      UnescapeAt(inner, i, escaped);
      if escaped {
        out := out + [inner[i]];
        escaped := false;
      } else if inner[i] == '\\' {
        escaped := true;
      } else {
        out := out + [inner[i]];
      }
    }
    assert inner[|inner|..] == "";
    UnescapeNil(escaped);
  }

  lemma {:induction false} UnescapeEscape(s: string)
    ensures Unescape(Escape(s), false) == s
  {
    if s != "" {
      UnescapeEscape(s[1..]);
      var e := Escape(s);
      if s[0] == '"' || s[0] == '\\' {
        assert e[1..][0] == s[0] && e[1..][1..] == Escape(s[1..]);
      } else {
        assert e[1..] == Escape(s[1..]);
      }
      assert [s[0]] + s[1..] == s;
    }
  }

  /** The upstream client reads back whatever it quotes. */
  lemma UnquoteQuote(s: string)
    ensures Unquoted(Quote(s)) == s
  {
    QuoteEscapes(s);
    UnescapeEscape(s);
    var q := Quote(s);
    assert q[0] == '"' && q[|q| - 1] == '"' && Trim(q) == q;
    assert q[1..|q| - 1] == Escape(s);
  }

  // ---------- the tokenizer ----------

  /** After an opening quote: the token, and the text behind the closing quote. */
  function QuotedToken(s: string): (r: (string, string))
    ensures |r.1| <= |s|
  {
    if s == "" then ("", "")
    else if s[0] == '"' then ("", s[1..])
    else if s[0] == '\\' then
      if |s| == 1 then ("", "")
      else var (token, rest) := QuotedToken(s[2..]); ([s[1]] + token, rest)
    else var (token, rest) := QuotedToken(s[1..]); ([s[0]] + token, rest)
  }

  function Deeper(depth: nat, c: char, open: char, close: char): nat {
    if c == open then depth + 1 else if c == close && depth > 0 then depth - 1 else depth
  }

  /** An unquoted token ends at white space outside parentheses and brackets. */
  function AtomToken(s: string, parens: nat, brackets: nat): (r: (string, string))
    ensures |r.1| <= |s| && (s != "" && !IsWhitespace(s[0]) ==> |r.1| < |s|)
  {
    if s == "" || (IsWhitespace(s[0]) && parens == 0 && brackets == 0) then ("", s)
    else
      var (token, rest) := AtomToken(s[1..], Deeper(parens, s[0], '(', ')'), Deeper(brackets, s[0], '[', ']'));
      ([s[0]] + token, rest)
  }

  function Tokens(s: string): seq<string>
    decreases |s|
  {
    if s == "" then []
    else if IsWhitespace(s[0]) then Tokens(s[1..])
    else if s[0] == '"' then var (token, rest) := QuotedToken(s[1..]); [token] + Tokens(rest)
    else var (token, rest) := AtomToken(s, 0, 0); [token] + Tokens(rest)
  }

  /** Never fails: the "failed to tokenize" branch needs an empty atom, and an atom takes at
      least the character that starts it. */
  method Tokenize(input: string) returns (out: Result<seq<string>>)
    ensures out == Ok(Tokens(input))
  {
    hide IsWhitespace;
    var tokens: seq<string> := [];
    var i := 0;
    while i < |input|
      invariant 0 <= i <= |input|
      invariant tokens + Tokens(input[i..]) == Tokens(input)
    {
      ghost var rest := input[i..];
      if IsWhitespace(input[i]) {
        assert rest[1..] == input[i + 1..];
        i := i + 1;
        continue;
      }
      var token, next;
      if input[i] == '"' {
        assert rest[1..] == input[i + 1..];
        token, next := ReadQuoted(input, i + 1);
      } else {
        token, next := ReadAtom(input, i);
        if token == "" {
          return Err;
        }
      }
      tokens, i := tokens + [token], next;
    }
    assert input[i..] == "";
    assert tokens == Tokens(input);
    out := Ok(tokens);
  }

  /** The quoted token read from a place in the input, by the character at that place. */
  lemma QuotedTokenAt(input: string, at: nat)
    requires at < |input|
    ensures input[at] == '"' ==> QuotedToken(input[at..]) == ("", input[at + 1..])
    ensures input[at] == '\\' && at + 1 == |input| ==> QuotedToken(input[at..]) == ("", "")
    ensures input[at] == '\\' && at + 1 < |input| ==>
      QuotedToken(input[at..]) == ([input[at + 1]] + QuotedToken(input[at + 2..]).0, QuotedToken(input[at + 2..]).1)
    ensures input[at] != '"' && input[at] != '\\' ==>
      QuotedToken(input[at..]) == ([input[at]] + QuotedToken(input[at + 1..]).0, QuotedToken(input[at + 1..]).1)
  {
    assert input[at..][1..] == input[at + 1..];
    if at + 1 < |input| { assert input[at..][2..] == input[at + 2..]; }
  }

  lemma QuotedTokenNil()
    ensures QuotedToken("") == ("", "")
  {}

  method ReadQuoted(input: string, start: nat) returns (token: string, next: nat)
    requires start <= |input|
    ensures start <= next <= |input|
    ensures token == QuotedToken(input[start..]).0 && input[next..] == QuotedToken(input[start..]).1
  {
    hide QuotedToken;
    token, next := "", start;
    QuotedTokenNil();
    while next < |input|
      invariant start <= next <= |input|
      invariant QuotedToken(input[start..]).0 == token + QuotedToken(input[next..]).0
      invariant QuotedToken(input[start..]).1 == QuotedToken(input[next..]).1
    {
      QuotedTokenAt(input, next);
      if input[next] == '"' {
        next := next + 1;
        return;
      }
      if input[next] == '\\' {
        next := next + 1;
        if next < |input| {
          token := token + [input[next]];
          next := next + 1;
        } else {
          assert input[next..] == "";
        }
      } else {
        token := token + [input[next]];
        next := next + 1;
      }
    }
    assert input[next..] == "";
  }

  /** The atom read from a place in the input, by the character at that place. */
  lemma AtomTokenAt(input: string, at: nat, parens: nat, brackets: nat)
    requires at < |input|
    ensures IsWhitespace(input[at]) && parens == 0 && brackets == 0 ==>
      AtomToken(input[at..], parens, brackets) == ("", input[at..])
    ensures !(IsWhitespace(input[at]) && parens == 0 && brackets == 0) ==>
      var rest := AtomToken(input[at + 1..], Deeper(parens, input[at], '(', ')'), Deeper(brackets, input[at], '[', ']'));
      AtomToken(input[at..], parens, brackets) == ([input[at]] + rest.0, rest.1)
  {
    hide IsWhitespace;
    assert input[at..][1..] == input[at + 1..];
  }

  lemma AtomTokenNil(parens: nat, brackets: nat)
    ensures AtomToken("", parens, brackets) == ("", "")
  {}

  method ReadAtom(input: string, start: nat) returns (token: string, next: nat)
    requires start < |input| && !IsWhitespace(input[start])
    ensures start < next <= |input| && token != ""
    ensures token == AtomToken(input[start..], 0, 0).0 && input[next..] == AtomToken(input[start..], 0, 0).1
  {
    hide IsWhitespace, AtomToken, Deeper;
    var parens, brackets: nat := 0, 0;
    token, next := "", start;
    while next < |input|
      invariant start <= next <= |input| && (next > start <==> token != "")
      invariant next == start ==> parens == brackets == 0
      invariant AtomToken(input[start..], 0, 0).0 == token + AtomToken(input[next..], parens, brackets).0
      invariant AtomToken(input[start..], 0, 0).1 == AtomToken(input[next..], parens, brackets).1
    {
      AtomTokenAt(input, next, parens, brackets);
      if IsWhitespace(input[next]) && parens == 0 && brackets == 0 {
        return;
      }
      parens, brackets := Deeper(parens, input[next], '(', ')'), Deeper(brackets, input[next], '[', ']');
      token, next := token + [input[next]], next + 1;
    }
    assert input[next..] == "";
    AtomTokenNil(parens, brackets);
  }

  // ---------- round trips ----------

  lemma {:induction false} QuotedTokenEscape(s: string, rest: string)
    ensures QuotedToken(Escape(s) + "\"" + rest) == (s, rest)
  {
    var text := Escape(s) + "\"" + rest;
    if s == "" {
      assert text[1..] == rest;
    } else {
      QuotedTokenEscape(s[1..], rest);
      if s[0] == '"' || s[0] == '\\' {
        assert text[2..] == Escape(s[1..]) + "\"" + rest;
      } else {
        assert text[1..] == Escape(s[1..]) + "\"" + rest;
      }
      assert [s[0]] + s[1..] == s;
    }
  }

  /** A quoted string at the front is one token, whatever follows. */
  lemma TokensQuote(s: string, rest: string)
    ensures Tokens(Quote(s) + rest) == [s] + Tokens(rest)
  {
    QuoteEscapes(s);
    QuotedTokenEscape(s, rest);
    var text := Quote(s) + rest;
    assert text[0] == '"' && text[1..] == Escape(s) + "\"" + rest;
  }

  lemma TokensSpace(rest: string)
    ensures Tokens(" " + rest) == Tokens(rest)
  {
    assert (" " + rest)[1..] == rest;
  }

  function QuoteAll(ss: seq<string>): seq<string> {
    seq(|ss|, i requires 0 <= i < |ss| => Quote(ss[i]))
  }

  /** Any list of strings survives quoting, joining with spaces and tokenizing. */
  lemma {:induction false} TokensJoin(ss: seq<string>)
    ensures Tokens(Join(QuoteAll(ss), " ")) == ss
  {
    hide Quote;
    if ss != [] {
      var rest := Join(QuoteAll(ss[1..]), " ");
      assert QuoteAll(ss)[1..] == QuoteAll(ss[1..]);
      TokensJoin(ss[1..]);
      if |ss| == 1 {
        TokensQuote(ss[0], "");
        assert Quote(ss[0]) + "" == Quote(ss[0]);
      } else {
        TokensQuote(ss[0], " " + rest);
        TokensSpace(rest);
        assert Quote(ss[0]) + " " + rest == Quote(ss[0]) + (" " + rest);
      }
      assert [ss[0]] + ss[1..] == ss;
    }
  }

  // ---------- commands ----------

  datatype Command = Command(tag: string, name: string, args: seq<string>)

  function TrimLineEnd(line: string): string {
    if line != "" && (line[|line| - 1] == '\r' || line[|line| - 1] == '\n')
    then TrimLineEnd(line[..|line| - 1]) else line
  }

  method ParseCommand(line: string) returns (r: Result<Option<Command>>)
    ensures r == Parsed(line)
  {
    var text := TrimLineEnd(line);
    if text == "" {
      return Ok(None);
    }
    var tokens := Tokenize(text);
    if tokens.Err? || |tokens.value| < 2 {
      return Err;
    }
    r := Ok(Some(Command(tokens.value[0], tokens.value[1], tokens.value[2..])));
  }

  function Parsed(line: string): Result<Option<Command>> {
    var text := TrimLineEnd(line);
    var tokens := Tokens(text);
    if text == "" then Ok(None)
    else if |tokens| < 2 then Err
    else Ok(Some(Command(tokens[0], tokens[1], tokens[2..])))
  }

  /** Reading `s` from the given depths ends outside all brackets and meets no white space there. */
  predicate ClosedAtom(s: string, parens: nat, brackets: nat) {
    if s == "" then parens == 0 && brackets == 0
    else !(IsWhitespace(s[0]) && parens == 0 && brackets == 0)
         && ClosedAtom(s[1..], Deeper(parens, s[0], '(', ')'), Deeper(brackets, s[0], '[', ']'))
  }

  /** Text the tokenizer takes as one unquoted token; bracketed groups may hold spaces. */
  predicate Atom(s: string) { s != "" && s[0] != '"' && !IsWhitespace(s[0]) && ClosedAtom(s, 0, 0) }

  lemma {:induction false} AtomTokenStops(s: string, rest: string, parens: nat, brackets: nat)
    requires ClosedAtom(s, parens, brackets) && (rest == "" || IsWhitespace(rest[0]))
    ensures AtomToken(s + rest, parens, brackets) == (s, rest)
  {
    if s == "" {
      assert s + rest == rest;
    } else {
      assert (s + rest)[1..] == s[1..] + rest;
      AtomTokenStops(s[1..], rest, Deeper(parens, s[0], '(', ')'), Deeper(brackets, s[0], '[', ']'));
      assert [s[0]] + s[1..] == s;
    }
  }

  lemma TokensAtom(s: string, rest: string)
    requires Atom(s) && (rest == "" || IsWhitespace(rest[0]))
    ensures Tokens(s + rest) == [s] + Tokens(rest)
  {
    AtomTokenStops(s, rest, 0, 0);
  }

  lemma {:induction false} AtomEndsDark(s: string, parens: nat, brackets: nat)
    requires ClosedAtom(s, parens, brackets) && s != ""
    ensures !IsWhitespace(s[|s| - 1])
  {
    hide IsWhitespace;
    if |s| > 1 {
      AtomEndsDark(s[1..], Deeper(parens, s[0], '(', ')'), Deeper(brackets, s[0], '[', ']'));
    } else {
      BracketsAreDark(s[0]);
    }
  }

  lemma BracketsAreDark(c: char)
    ensures IsWhitespace(c) ==> c !in "()[]"
  {}

  function CommandLine(c: Command): string {
    c.tag + " " + c.name + (if c.args == [] then "" else " " + Join(QuoteAll(c.args), " "))
  }

  lemma {:induction false} TrimLineEndKeeps(line: string, ending: string)
    requires line != "" && line[|line| - 1] != '\r' && line[|line| - 1] != '\n'
    requires forall i :: 0 <= i < |ending| ==> ending[i] == '\r' || ending[i] == '\n'
    ensures TrimLineEnd(line + ending) == line
  {
    if ending == "" {
      assert line + ending == line;
    } else {
      assert (line + ending)[..|line + ending| - 1] == line + ending[..|ending| - 1];
      TrimLineEndKeeps(line, ending[..|ending| - 1]);
    }
  }

  lemma {:induction false} JoinEndsQuoted(ss: seq<string>)
    requires ss != []
    ensures var line := Join(QuoteAll(ss), " "); line != "" && line[|line| - 1] == '"'
  {
    if |ss| > 1 {
      assert QuoteAll(ss)[1..] == QuoteAll(ss[1..]);
      JoinEndsQuoted(ss[1..]);
    }
  }

  /** A command line of two atoms and quoted arguments parses back to its parts, whatever line
      ending it carries. */
  lemma CommandRoundTrip(c: Command, ending: string)
    requires Atom(c.tag) && Atom(c.name)
    requires forall i :: 0 <= i < |ending| ==> ending[i] == '\r' || ending[i] == '\n'
    ensures Parsed(CommandLine(c) + ending) == Ok(Some(c))
  {
    hide Quote, Join, Tokens, ClosedAtom;
    AtomEndsDark(c.name, 0, 0);
    var args := if c.args == [] then "" else " " + Join(QuoteAll(c.args), " ");
    var line := CommandLine(c);
    if c.args != [] { JoinEndsQuoted(c.args); }
    assert line[|line| - 1] == if c.args == [] then c.name[|c.name| - 1] else args[|args| - 1];
    TrimLineEndKeeps(line, ending);
    assert line == c.tag + (" " + (c.name + args));
    TokensAtom(c.tag, " " + (c.name + args));
    TokensSpace(c.name + args);
    TokensAtom(c.name, args);
    ArgumentTokens(c.args);
    var tokens := Tokens(line);
    assert tokens == [c.tag] + ([c.name] + c.args);
    assert tokens[2..] == c.args;
  }

  lemma ArgumentTokens(args: seq<string>)
    ensures Tokens(if args == [] then "" else " " + Join(QuoteAll(args), " ")) == args
  {
    if args != [] {
      TokensJoin(args);
      TokensSpace(Join(QuoteAll(args), " "));
    }
  }

  /** A line of nothing but line ends is ignored, and a tag alone is refused. */
  lemma ShortLines(tag: string, ending: string)
    requires Atom(tag) && forall i :: 0 <= i < |ending| ==> ending[i] == '\r' || ending[i] == '\n'
    ensures Parsed(ending) == Ok(None) && Parsed(tag + ending) == Err
  {
    hide Tokens, Atom;
    EndingsVanish(ending);
    AtomLast(tag);
    TrimLineEndKeeps(tag, ending);
    TokensAtom(tag, "");
    assert tag + "" == tag;
    NoTokens();
  }

  lemma AtomLast(tag: string)
    requires Atom(tag)
    ensures tag != "" && tag[|tag| - 1] != '\r' && tag[|tag| - 1] != '\n'
  {
    AtomEndsDark(tag, 0, 0);
  }

  lemma NoTokens()
    ensures Tokens("") == []
  {}

  lemma {:induction false} EndingsVanish(ending: string)
    requires forall i :: 0 <= i < |ending| ==> ending[i] == '\r' || ending[i] == '\n'
    ensures TrimLineEnd(ending) == ""
  {
    if ending != "" { EndingsVanish(ending[..|ending| - 1]); }
  }

  /** A quoted string that is never closed runs to the end of the line; a backslash with nothing
      behind it is dropped. */
  lemma UnclosedQuote(s: string)
    ensures Tokens("\"" + Escape(s)) == [s] && Tokens("\"" + Escape(s) + "\\") == [s]
  {
    hide Escape, QuotedToken;
    UnclosedToken(s, "");
    UnclosedToken(s, "\\");
    assert Escape(s) + "" == Escape(s);
    var a, b := "\"" + Escape(s), "\"" + Escape(s) + "\\";
    assert a[1..] == Escape(s) && b[1..] == Escape(s) + "\\";
    NoTokens();
    QuoteIsDark();
  }

  lemma QuoteIsDark()
    ensures !IsWhitespace('"')
  {}

  lemma {:induction false} UnclosedToken(s: string, end: string)
    requires end == "" || end == "\\"
    ensures QuotedToken(Escape(s) + end) == (s, "")
  {
    if s == "" {
      assert Escape(s) + end == end;
    } else {
      UnclosedToken(s[1..], end);
      var text, rest := Escape(s) + end, Escape(s[1..]) + end;
      if s[0] == '"' || s[0] == '\\' {
        assert text == ['\\', s[0]] + rest && text[2..] == rest;
      } else {
        assert text == [s[0]] + rest && text[1..] == rest;
      }
      assert [s[0]] + s[1..] == s;
    }
  }

  // ---------- lists and sections ----------

  /** Text with parentheses and brackets in pairs. */
  datatype Piece = Plain(text: string) | Parens(inner: seq<Piece>) | Brackets(inner: seq<Piece>)

  /** Plain text holds no parenthesis or bracket; spaces and quotes it may hold. */
  predicate Paired(p: Piece) {
    match p
    case Plain(text) => '(' !in text && ')' !in text && '[' !in text && ']' !in text
    case Parens(inner) => forall i :: 0 <= i < |inner| ==> Paired(inner[i])
    case Brackets(inner) => forall i :: 0 <= i < |inner| ==> Paired(inner[i])
  }

  function Written(p: Piece): string
    decreases p, 0
  {
    match p
    case Plain(text) => text
    case Parens(inner) => "(" + WrittenAll(p, inner, |inner|) + ")"
    case Brackets(inner) => "[" + WrittenAll(p, inner, |inner|) + "]"
  }

  function WrittenAll(ghost p: Piece, inner: seq<Piece>, n: nat): string
    requires n <= |inner| && !p.Plain? && p.inner == inner
    decreases p, 0, n
  {
    if n == 0 then "" else WrittenAll(p, inner, n - 1) + Written(inner[n - 1])
  }

  /** A pair of brackets around text that is read through is read through itself. */
  lemma Enclosed(open: char, body: string, close: char, rest: string, parens: nat, brackets: nat)
    requires (open == '(' && close == ')') || (open == '[' && close == ']')
    requires var (p, b) := (Deeper(parens, open, '(', ')'), Deeper(brackets, open, '[', ']'));
      var inner := AtomToken([close] + rest, p, b);
      AtomToken(body + ([close] + rest), p, b) == (body + inner.0, inner.1)
    ensures var after := AtomToken(rest, parens, brackets);
      AtomToken([open] + body + [close] + rest, parens, brackets) == ([open] + body + [close] + after.0, after.1)
  {
    hide AtomToken, IsWhitespace;
    var (p, b) := (Deeper(parens, open, '(', ')'), Deeper(brackets, open, '[', ']'));
    var text, tail := [open] + (body + ([close] + rest)), AtomToken(rest, parens, brackets).0;
    BracketDark(open);
    BracketDark(close);
    AtomTokenCons(open, body + ([close] + rest), parens, brackets);
    AtomTokenCons(close, rest, p, b);
    Regroup([open], body, [close], rest);
    Regroup([open], body, [close], tail);
  }

  lemma Regroup(a: string, b: string, c: string, d: string)
    ensures a + (b + (c + d)) == a + b + c + d
  {}

  lemma AtomTokenCons(c: char, rest: string, parens: nat, brackets: nat)
    requires !IsWhitespace(c)
    ensures var after := AtomToken(rest, Deeper(parens, c, '(', ')'), Deeper(brackets, c, '[', ']'));
      AtomToken([c] + rest, parens, brackets) == ([c] + after.0, after.1)
  {
    hide IsWhitespace;
    assert ([c] + rest)[1..] == rest;
  }

  lemma BracketDark(c: char)
    requires c in "()[]"
    ensures !IsWhitespace(c)
  {}

  /** Inside some bracket the tokenizer reads paired text through, depths unchanged. */
  lemma {:induction false} ReadsThrough(p: Piece, rest: string, parens: nat, brackets: nat)
    requires Paired(p) && parens + brackets > 0
    ensures var after := AtomToken(rest, parens, brackets);
      AtomToken(Written(p) + rest, parens, brackets) == (Written(p) + after.0, after.1)
    decreases p, 0
  {
    hide AtomToken, IsWhitespace, WrittenAll;
    match p
    case Plain(text) => PlainReads(text, rest, parens, brackets);
    case Parens(inner) =>
      AllRead(p, inner, |inner|, [')'] + rest, parens + 1, brackets);
      Enclosed('(', WrittenAll(p, inner, |inner|), ')', rest, parens, brackets);
    case Brackets(inner) =>
      AllRead(p, inner, |inner|, [']'] + rest, parens, brackets + 1);
      Enclosed('[', WrittenAll(p, inner, |inner|), ']', rest, parens, brackets);
  }

  lemma {:induction false} AllRead(p: Piece, inner: seq<Piece>, n: nat, rest: string, parens: nat, brackets: nat)
    requires !p.Plain? && p.inner == inner && n <= |inner| && parens + brackets > 0
    requires forall i :: 0 <= i < |inner| ==> Paired(inner[i])
    ensures var after := AtomToken(rest, parens, brackets);
      AtomToken(WrittenAll(p, inner, n) + rest, parens, brackets) == (WrittenAll(p, inner, n) + after.0, after.1)
    decreases p, 0, n
  {
    hide AtomToken, Paired, Written;
    if n == 0 {
      assert "" + rest == rest;
      assert "" + AtomToken(rest, parens, brackets).0 == AtomToken(rest, parens, brackets).0;
    } else {
      var front, last := WrittenAll(p, inner, n - 1), Written(inner[n - 1]);
      ReadsThrough(inner[n - 1], rest, parens, brackets);
      AllRead(p, inner, n - 1, last + rest, parens, brackets);
      assert front + last + rest == front + (last + rest);
      var after := AtomToken(rest, parens, brackets).0;
      assert front + last + after == front + (last + after);
    }
  }

  lemma {:induction false} PlainReads(text: string, rest: string, parens: nat, brackets: nat)
    requires parens + brackets > 0 && '(' !in text && ')' !in text && '[' !in text && ']' !in text
    ensures var after := AtomToken(rest, parens, brackets);
      AtomToken(text + rest, parens, brackets) == (text + after.0, after.1)
  {
    hide IsWhitespace;
    if text == "" {
      assert text + rest == rest;
      assert "" + AtomToken(rest, parens, brackets).0 == AtomToken(rest, parens, brackets).0;
    } else {
      assert text[0] in text;
      PlainReads(text[1..], rest, parens, brackets);
      assert (text + rest)[1..] == text[1..] + rest;
      var after := AtomToken(rest, parens, brackets).0;
      assert [text[0]] + (text[1..] + after) == text + after;
    }
  }

  /** A parenthesised list or a bracketed section is one token, whatever nests or stands inside. */
  lemma GroupIsOneToken(p: Piece, rest: string)
    requires Paired(p) && !p.Plain? && (rest == "" || IsWhitespace(rest[0]))
    ensures Tokens(Written(p) + rest) == [Written(p)] + Tokens(rest)
  {
    hide AtomToken, Tokens, IsWhitespace, WrittenAll, Paired;
    InnerPaired(p);
    var body := WrittenAll(p, p.inner, |p.inner|);
    if p.Parens? {
      AllRead(p, p.inner, |p.inner|, [')'] + rest, 1, 0);
      Enclosed('(', body, ')', rest, 0, 0);
      BracketDark('(');
    } else {
      AllRead(p, p.inner, |p.inner|, [']'] + rest, 0, 1);
      Enclosed('[', body, ']', rest, 0, 0);
      BracketDark('[');
    }
    AtomEnds(rest);
    assert Written(p) + "" == Written(p);
    assert (Written(p) + rest)[0] == Written(p)[0];
    TokensFromAtom(Written(p) + rest, Written(p), rest);
  }

  lemma InnerPaired(p: Piece)
    requires Paired(p) && !p.Plain?
    ensures forall i :: 0 <= i < |p.inner| ==> Paired(p.inner[i])
  {}

  lemma AtomEnds(rest: string)
    requires rest == "" || IsWhitespace(rest[0])
    ensures AtomToken(rest, 0, 0) == ("", rest)
  {}

  lemma TokensFromAtom(text: string, token: string, rest: string)
    requires text != "" && !IsWhitespace(text[0]) && text[0] != '"' && AtomToken(text, 0, 0) == (token, rest)
    ensures Tokens(text) == [token] + Tokens(rest)
  {
    hide AtomToken, IsWhitespace;
  }
}
