/**
 LIST wildcards (crates/imap-server/src/imap.rs, `imap_list_pattern_matches`) against their
 declarative meaning (section 6.3.8 of RFC 3501).
 */
module ListPattern {
  import opened Text

  /** The text one pattern character may stand for.  Letters compare without ASCII case; the
      delimiter is looked for in the folded text, as the matcher does. */
  predicate Covers(p: char, text: string, delimiter: char) {
    if p == '*' then true
    else if p == '%' then delimiter !in AsciiLower(text)
    else |text| == 1 && LowerChar(text[0]) == LowerChar(p)
  }

  function Concat(pieces: seq<string>): string {
    if pieces == [] then "" else pieces[0] + Concat(pieces[1..])
  }

  ghost predicate Pieces(pattern: string, pieces: seq<string>, delimiter: char) {
    |pieces| == |pattern| && forall i :: 0 <= i < |pattern| ==> Covers(pattern[i], pieces[i], delimiter)
  }

  /** The meaning of a pattern: the name falls into pieces, one for each pattern character. */
  ghost predicate Means(pattern: string, name: string, delimiter: char) {
    exists pieces :: Pieces(pattern, pieces, delimiter) && Concat(pieces) == name
  }

  lemma MeansNil(name: string, delimiter: char)
    ensures Means("", name, delimiter) <==> name == ""
  {
    assert Pieces("", [], delimiter) && Concat([]) == "";
  }

  lemma MeansCons(pattern: string, name: string, delimiter: char)
    requires pattern != ""
    ensures Means(pattern, name, delimiter) <==>
      exists k :: 0 <= k <= |name| && Covers(pattern[0], name[..k], delimiter) && Means(pattern[1..], name[k..], delimiter)
  {
    if Means(pattern, name, delimiter) {
      var pieces :| Pieces(pattern, pieces, delimiter) && Concat(pieces) == name;
      var k := |pieces[0]|;
      assert name[..k] == pieces[0] && name[k..] == Concat(pieces[1..]);
      assert Pieces(pattern[1..], pieces[1..], delimiter);
    }
    if k :| 0 <= k <= |name| && Covers(pattern[0], name[..k], delimiter) && Means(pattern[1..], name[k..], delimiter) {
      var rest :| Pieces(pattern[1..], rest, delimiter) && Concat(rest) == name[k..];
      var pieces := [name[..k]] + rest;
      assert pieces[1..] == rest;
      assert Concat(pieces) == name[..k] + name[k..] == name;
      assert Pieces(pattern, pieces, delimiter);
    }
  }

  /** The meaning from places in pattern and name: what the next pattern character covers ends
      somewhere, and the rest of the pattern means the rest of the name. */
  lemma MeansAt(pattern: string, pi: nat, name: string, ni: nat, delimiter: char)
    requires pi < |pattern| && ni <= |name|
    ensures Means(pattern[pi..], name[ni..], delimiter) <==>
      exists next :: ni <= next <= |name| && Covers(pattern[pi], name[ni..next], delimiter)
                     && Means(pattern[pi + 1..], name[next..], delimiter)
  {
    hide Means, Covers;
    var text := name[ni..];
    MeansCons(pattern[pi..], text, delimiter);
    assert pattern[pi..][0] == pattern[pi] && pattern[pi..][1..] == pattern[pi + 1..];
    forall k | 0 <= k <= |text| ensures text[..k] == name[ni..ni + k] && text[k..] == name[ni + k..] {}
    if k :| 0 <= k <= |text| && Covers(pattern[pi], text[..k], delimiter) && Means(pattern[pi + 1..], text[k..], delimiter) {
      assert Covers(pattern[pi], name[ni..ni + k], delimiter) && Means(pattern[pi + 1..], name[ni + k..], delimiter);
    }
    if next :| ni <= next <= |name| && Covers(pattern[pi], name[ni..next], delimiter) && Means(pattern[pi + 1..], name[next..], delimiter) {
      assert text[..next - ni] == name[ni..next] && text[next - ni..] == name[next..];
    }
  }

  ghost predicate Folded(pattern: string, name: string) { AsciiLower(pattern) == pattern && AsciiLower(name) == name }

  /** The matcher proper, on folded text. */
  method Matches(pattern: string, pi: nat, name: string, ni: nat, delimiter: char) returns (yes: bool)
    requires pi <= |pattern| && ni <= |name| && Folded(pattern, name)
    ensures yes <==> Means(pattern[pi..], name[ni..], delimiter)
    decreases |pattern| - pi, 1
  {
    hide Means, Covers, Folded;
    if pi == |pattern| {
      assert pattern[pi..] == "";
      MeansNil(name[ni..], delimiter);
      return ni == |name|;
    }
    if pattern[pi] == '*' {
      yes := MatchesStar(pattern, pi, name, ni, delimiter);
      return;
    }
    if pattern[pi] == '%' {
      yes := MatchesPercent(pattern, pi, name, ni, delimiter);
      return;
    }
    MeansAt(pattern, pi, name, ni, delimiter);
    forall next | ni <= next <= |name|
      ensures Covers(pattern[pi], name[ni..next], delimiter) <==> next == ni + 1 && name[ni] == pattern[pi]
    {
      LiteralCovers(pattern, pi, name, ni, next, delimiter);
    }
    if ni >= |name| || pattern[pi] != name[ni] {
      return false;
    }
    yes := Matches(pattern, pi + 1, name, ni + 1, delimiter);
  }

  /** `*`: any stretch of the name. */
  method MatchesStar(pattern: string, pi: nat, name: string, ni: nat, delimiter: char) returns (yes: bool)
    requires pi < |pattern| && pattern[pi] == '*' && ni <= |name| && Folded(pattern, name)
    ensures yes <==> Means(pattern[pi..], name[ni..], delimiter)
    decreases |pattern| - pi, 0
  {
    hide Means, Covers, Folded;
    MeansAt(pattern, pi, name, ni, delimiter);
    var next := ni;
    while next <= |name|
      invariant ni <= next <= |name| + 1
      invariant forall k :: ni <= k < next ==> !Means(pattern[pi + 1..], name[k..], delimiter)
    {
      yes := Matches(pattern, pi + 1, name, next, delimiter);
      if yes {
        StarCovers(name[ni..next], delimiter);
        return;
      }
      next := next + 1;
    }
    yes := false;
  }

  /** `%`: a stretch of the name up to the next delimiter at most. */
  method MatchesPercent(pattern: string, pi: nat, name: string, ni: nat, delimiter: char) returns (yes: bool)
    requires pi < |pattern| && pattern[pi] == '%' && ni <= |name| && Folded(pattern, name)
    ensures yes <==> Means(pattern[pi..], name[ni..], delimiter)
    decreases |pattern| - pi, 0
  {
    hide Means, Covers, Folded;
    MeansAt(pattern, pi, name, ni, delimiter);
    var next := ni;
    while true
      invariant ni <= next <= |name|
      invariant delimiter !in name[ni..next]
      invariant forall k :: ni <= k < next ==> !Means(pattern[pi + 1..], name[k..], delimiter)
      decreases |name| - next
    {
      yes := Matches(pattern, pi + 1, name, next, delimiter);
      if yes {
        PercentCovers(pattern, name, ni, next, delimiter);
        return;
      }
      if next == |name| || name[next] == delimiter {
        forall k | next < k <= |name| ensures !Covers('%', name[ni..k], delimiter) {
          assert name[ni..k][next - ni] == delimiter;
          PercentCovers(pattern, name, ni, k, delimiter);
        }
        return false;
      }
      assert name[ni..next + 1] == name[ni..next] + [name[next]];
      next := next + 1;
    }
  }

  lemma StarCovers(text: string, delimiter: char)
    ensures Covers('*', text, delimiter)
  {}

  lemma PercentCovers(pattern: string, name: string, from: nat, to: nat, delimiter: char)
    requires from <= to <= |name| && Folded(pattern, name)
    ensures Covers('%', name[from..to], delimiter) <==> delimiter !in name[from..to]
  {
    var text := name[from..to];
    forall i | 0 <= i < |text| ensures LowerChar(text[i]) == text[i] {
      assert text[i] == name[from + i] == AsciiLower(name)[from + i];
    }
    assert AsciiLower(text) == text;
  }

  lemma LiteralCovers(pattern: string, pi: nat, name: string, ni: nat, next: nat, delimiter: char)
    requires pi < |pattern| && pattern[pi] != '*' && pattern[pi] != '%' && ni <= next <= |name| && Folded(pattern, name)
    ensures Covers(pattern[pi], name[ni..next], delimiter) <==> next == ni + 1 && name[ni] == pattern[pi]
  {
    assert LowerChar(pattern[pi]) == AsciiLower(pattern)[pi] == pattern[pi];
    if next == ni + 1 {
      assert LowerChar(name[ni]) == AsciiLower(name)[ni] == name[ni];
      assert name[ni..next][0] == name[ni];
    }
  }

  // ---------- folding ----------

  lemma LowerTwice(s: string)
    ensures AsciiLower(AsciiLower(s)) == AsciiLower(s)
  {}

  lemma CoversFolded(p: char, text: string, delimiter: char)
    ensures Covers(LowerChar(p), AsciiLower(text), delimiter) <==> Covers(p, text, delimiter)
  {
    LowerTwice(text);
  }

  /** Folding pattern and name first does not change what the pattern means. */
  lemma {:induction false} MeansFolded(pattern: string, name: string, delimiter: char)
    ensures Means(AsciiLower(pattern), AsciiLower(name), delimiter) <==> Means(pattern, name, delimiter)
    decreases |pattern|
  {
    hide Means, Covers;
    var p, n := AsciiLower(pattern), AsciiLower(name);
    if pattern == "" {
      MeansNil(n, delimiter);
      MeansNil(name, delimiter);
    } else {
      MeansCons(p, n, delimiter);
      MeansCons(pattern, name, delimiter);
      assert p[1..] == AsciiLower(pattern[1..]);
      forall k | 0 <= k <= |name|
        ensures Covers(p[0], n[..k], delimiter) <==> Covers(pattern[0], name[..k], delimiter)
        ensures Means(p[1..], n[k..], delimiter) <==> Means(pattern[1..], name[k..], delimiter)
      {
        assert n[..k] == AsciiLower(name[..k]) && n[k..] == AsciiLower(name[k..]);
        CoversFolded(pattern[0], name[..k], delimiter);
        MeansFolded(pattern[1..], name[k..], delimiter);
      }
    }
  }

  function Delimiter(delimiter: string): char { if delimiter == "" then '/' else delimiter[0] }

  /** The LIST matcher decides exactly the declared meaning. */
  method ListPatternMatches(pattern: string, name: string, delimiter: string) returns (yes: bool)
    ensures delimiter == "" ==> (yes <==> Means(pattern, name, '/'))
    ensures delimiter != "" ==> (yes <==> Means(pattern, name, delimiter[0]))
  {
    LowerTwice(pattern);
    LowerTwice(name);
    MeansFolded(pattern, name, Delimiter(delimiter));
    var p, n := AsciiLower(pattern), AsciiLower(name);
    assert p[0..] == p && n[0..] == n;
    yes := Matches(p, 0, n, 0, Delimiter(delimiter));
  }

  predicate IsLetter(c: char) { 'A' <= c <= 'Z' || 'a' <= c <= 'z' }

  lemma PercentOnText(text: string, delimiter: char)
    requires !IsLetter(delimiter)
    ensures Covers('%', text, delimiter) <==> delimiter !in text
  {
    if delimiter in AsciiLower(text) {
      var i :| 0 <= i < |text| && AsciiLower(text)[i] == delimiter;
      assert text[i] == delimiter;
    }
    if delimiter in text {
      var i :| 0 <= i < |text| && text[i] == delimiter;
      assert AsciiLower(text)[i] == delimiter;
    }
  }

  /** The text one pattern character may stand for by section 6.3.8 of RFC 3501, names being
      compared without ASCII case: `%` stops at the delimiter itself. */
  predicate RfcCovers(p: char, text: string, delimiter: char) {
    if p == '%' then delimiter !in text else Covers(p, text, delimiter)
  }

  ghost predicate RfcPieces(pattern: string, pieces: seq<string>, delimiter: char) {
    |pieces| == |pattern| && forall i :: 0 <= i < |pattern| ==> RfcCovers(pattern[i], pieces[i], delimiter)
  }

  ghost predicate RfcMeans(pattern: string, name: string, delimiter: char) {
    exists pieces :: RfcPieces(pattern, pieces, delimiter) && Concat(pieces) == name
  }

  lemma RfcAgrees(pattern: string, name: string, delimiter: char)
    requires !IsLetter(delimiter)
    ensures Means(pattern, name, delimiter) <==> RfcMeans(pattern, name, delimiter)
  {
    hide Covers;
    forall p, text ensures RfcCovers(p, text, delimiter) <==> Covers(p, text, delimiter) {
      PercentOnText(text, delimiter);
    }
    if Means(pattern, name, delimiter) {
      var pieces :| Pieces(pattern, pieces, delimiter) && Concat(pieces) == name;
      assert RfcPieces(pattern, pieces, delimiter);
    }
    if RfcMeans(pattern, name, delimiter) {
      var pieces :| RfcPieces(pattern, pieces, delimiter) && Concat(pieces) == name;
      assert Pieces(pattern, pieces, delimiter);
    }
  }

  /** A lone `%` means its one piece. */
  lemma LonePercent(name: string, delimiter: char)
    ensures Means("%", name, delimiter) <==> Covers('%', name, delimiter)
    ensures RfcMeans("%", name, delimiter) <==> delimiter !in name
  {
    hide Covers;
    forall pieces: seq<string> | |pieces| == 1 ensures Concat(pieces) == pieces[0] { OnePiece(pieces); }
    if Covers('%', name, delimiter) { assert Pieces("%", [name], delimiter) && Concat([name]) == name; }
    if delimiter !in name { assert RfcPieces("%", [name], delimiter) && Concat([name]) == name; }
  }

  lemma OnePiece(pieces: seq<string>)
    requires |pieces| == 1
    ensures Concat(pieces) == pieces[0]
  {
    assert pieces[1..] == [];
  }

  /** The matcher decides the standard's meaning of every pattern on every name if and only if the
      delimiter is no letter: it folds the name but not the delimiter. */
  lemma StandardIff(delimiter: char)
    ensures (forall pattern, name :: Means(pattern, name, delimiter) <==> RfcMeans(pattern, name, delimiter))
      <==> !IsLetter(delimiter)
  {
    if IsLetter(delimiter) {
      var upper := if delimiter <= 'Z' then delimiter else delimiter - ' ';
      var name := [upper];
      assert AsciiLower(name) == [LowerChar(upper)];
      assert Covers('%', name, delimiter) != (delimiter !in name);
      LonePercent(name, delimiter);
    } else {
      forall pattern, name ensures Means(pattern, name, delimiter) <==> RfcMeans(pattern, name, delimiter) {
        RfcAgrees(pattern, name, delimiter);
      }
    }
  }

  function Widen(pattern: string): (r: string)
    ensures |r| == |pattern|
  {
    seq(|pattern|, i requires 0 <= i < |pattern| => if pattern[i] == '%' then '*' else pattern[i])
  }

  /** Replacing `%` by `*` never loses a match. */
  lemma WideningKeepsMatches(pattern: string, name: string, delimiter: char)
    requires Means(pattern, name, delimiter)
    ensures Means(Widen(pattern), name, delimiter)
  {
    var pieces :| Pieces(pattern, pieces, delimiter) && Concat(pieces) == name;
    assert Pieces(Widen(pattern), pieces, delimiter);
  }
}
