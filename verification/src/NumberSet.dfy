/**
 Message number sets on the wire (crates/protocol/src/lib.rs): printing a list of numbers as
 comma-separated ranges, and reading such a text back.
 */
module NumberSet {
  import opened Wrappers
  import opened Ordering
  import opened Text

  // ---------- reading ----------

  function Expand(token: string, max: int): Option<int> {
    if token == "*" then Some(max) else ParseI64(token)
  }

  /** The interval one part stands for; a part that does not parse stands for nothing. */
  function PartRange(part: string, max: int): (r: Option<(int, int)>)
    ensures r.Some? ==> r.value.0 <= r.value.1
  {
    match SplitOnce(part, ':')
    case Some((a, b)) =>
      var start, end := Expand(Trim(a), max), Expand(Trim(b), max);
      if start.None? || end.None? then None
      else if start.value <= end.value then Some((start.value, end.value))
      else Some((end.value, start.value))
    case None =>
      var v := Expand(part, max);
      if v.None? then None else Some((v.value, v.value))
  }

  function Within(v: int, range: Option<(int, int)>): bool {
    range.Some? && range.value.0 <= v <= range.value.1
  }

  /** The meaning of a set text: some part's interval holds the number. */
  ghost predicate Denotes(text: string, max: int, v: int) {
    v > 0 && AnyDenotes(Split(text, ','), max, v)
  }

  ghost predicate AnyDenotes(pieces: seq<string>, max: int, v: int) {
    exists i :: 0 <= i < |pieces| && PartDenotes(pieces[i], max, v)
  }

  lemma AnyDenotesSnoc(pieces: seq<string>, piece: string, max: int, v: int)
    ensures AnyDenotes(pieces + [piece], max, v) <==> AnyDenotes(pieces, max, v) || PartDenotes(piece, max, v)
  {
    var all := pieces + [piece];
    if i :| 0 <= i < |pieces| && PartDenotes(pieces[i], max, v) { assert PartDenotes(all[i], max, v); }
    if PartDenotes(piece, max, v) { assert PartDenotes(all[|pieces|], max, v); }
  }

  predicate PartDenotes(piece: string, max: int, v: int) {
    Trim(piece) != "" && Within(v, PartRange(Trim(piece), max))
  }

  function Interval(lo: int, hi: int): (r: seq<int>)
    requires lo <= hi
    ensures forall v :: v in r <==> lo <= v <= hi
    decreases hi - lo
  {
    if lo == hi then [lo] else [lo] + Interval(lo + 1, hi)
  }

  function Positive(s: seq<int>): (r: seq<int>)
    ensures forall v :: v in r <==> v in s && v > 0
    ensures Ascending(IntLess, s) ==> Ascending(IntLess, r)
  {
    if s == [] then [] else
      var rest := Positive(s[1..]);
      assert forall k :: 0 <= k < |rest| ==> rest[k] in s[1..];
      if s[0] > 0 then [s[0]] + rest else rest
  }

  method ParseNumberSet(text: string, max: int) returns (out: seq<int>)
    ensures Ascending(IntLess, out)
    ensures forall v :: v in out <==> Denotes(text, max, v)
  {
    hide Trim, Split, PartRange;
    out := [];
    var pieces := Split(text, ',');
    for i := 0 to |pieces|
      invariant forall v :: v in out <==> AnyDenotes(pieces[..i], max, v)
    {
      ghost var before := out;
      var part := Trim(pieces[i]);
      if part != "" {
        var range := PartRange(part, max);
        if range.Some? {
          out := out + Interval(range.value.0, range.value.1);
        }
      }
      assert pieces[..i + 1] == pieces[..i] + [pieces[i]];
      forall v ensures v in out <==> AnyDenotes(pieces[..i + 1], max, v) {
        assert v in out <==> v in before || PartDenotes(pieces[i], max, v);
        AnyDenotesSnoc(pieces[..i], pieces[i], max, v);
      }
    }
    assert pieces[..|pieces|] == pieces;
    IntLessOrder();
    SortDedupAscending(IntLess, out);
    out := Positive(SortDedup(IntLess, out));
  }

  lemma DenotesBounded(text: string, max: int, v: int)
    requires max <= I64_MAX && Denotes(text, max, v)
    ensures 0 < v <= I64_MAX
  {}

  /** Both ends of a range may come first, and `*` is the largest number. */
  lemma RangeSymmetric(a: string, b: string, max: int)
    requires ':' !in a && ':' !in b
    ensures PartRange(a + ":" + b, max) == PartRange(b + ":" + a, max)
    ensures PartRange("*", max) == Some((max, max))
  {
    hide Trim, ParseI64;
    SplitOnceFinds(a, b, ':');
    SplitOnceFinds(b, a, ':');
    SplitOnceMisses("*", ':');
  }

  /** `n:*` runs from n to the maximum, or the other way round when n is beyond it. */
  lemma OpenRange(n: nat, max: int, v: int)
    requires n <= I64_MAX
    ensures Denotes(Digits(n) + ":*", max, v) <==> v > 0 && (n <= v <= max || max <= v <= n)
    ensures Denotes("*", max, v) <==> v > 0 && v == max
  {
    hide Digits, ParseI64, Trim, Split, SplitOnce;
    var text := Digits(n) + ":*";
    DigitsAreClean(n);
    CleanIsTrimmed(Digits(n));
    ParseDigits(n);
    TextIsOnePiece(text, max, v);
    TextIsOnePiece("*", max, v);
    SplitOnceFinds(Digits(n), "*", ':');
    assert text == Digits(n) + [':'] + "*";
    SplitOnceMisses("*", ':');
    StarIsTrimmed();
    assert Trim(text) == text by { OpenIsTrimmed(n); }
  }

  lemma StarIsTrimmed()
    ensures Trim("*") == "*"
  {}

  lemma OpenIsTrimmed(n: nat)
    ensures Trim(Digits(n) + ":*") == Digits(n) + ":*"
  {
    DigitsAreClean(n);
    var text := Digits(n) + ":*";
    assert text[0] == Digits(n)[0] && text[|text| - 1] == '*';
  }

  lemma TextIsOnePiece(text: string, max: int, v: int)
    requires ',' !in text
    ensures Denotes(text, max, v) <==> v > 0 && PartDenotes(text, max, v)
  {
    hide PartDenotes;
    SplitPiece(text, ',');
    assert [text][0] == text;
  }

  /** Parts mean what they mean alone, and a part that is no number stands for nothing. */
  lemma PartsAreIndependent(part: string, rest: string, max: int, v: int)
    requires ',' !in part
    ensures Denotes(part + "," + rest, max, v) <==> Denotes(part, max, v) || Denotes(rest, max, v)
    ensures ':' !in Trim(part) && Trim(part) != "*" && ParseI64(Trim(part)).None? ==> !Denotes(part, max, v)
  {
    hide PartDenotes;
    SplitStep(part, rest, ',');
    var pieces := Split(rest, ',');
    assert part + "," + rest == part + [','] + rest;
    TextIsOnePiece(part, max, v);
    var all := [part] + pieces;
    if i :| 0 <= i < |all| && PartDenotes(all[i], max, v) { assert i > 0 ==> PartDenotes(pieces[i - 1], max, v); }
    if i :| 0 <= i < |pieces| && PartDenotes(pieces[i], max, v) { assert PartDenotes(all[i + 1], max, v); }
    if PartDenotes(part, max, v) { assert PartDenotes(all[0], max, v); }
    if ':' !in Trim(part) { NoNumber(part, max, v); }
  }

  lemma NoNumber(part: string, max: int, v: int)
    requires ':' !in Trim(part)
    ensures Trim(part) != "*" && ParseI64(Trim(part)).None? ==> !PartDenotes(part, max, v)
  {
    SplitOnceMisses(Trim(part), ':');
  }

  // ---------- printing ----------

  function FormatRange(start: nat, end: nat): string {
    if start == end then Digits(start) else Digits(start) + ":" + Digits(end)
  }

  datatype Range = Range(start: nat, end: nat) {
    predicate Holds(v: int) { start <= v <= end }
  }

  function Render(ranges: seq<Range>): seq<string> {
    seq(|ranges|, i requires 0 <= i < |ranges| => FormatRange(ranges[i].start, ranges[i].end))
  }

  /** Non-empty ascending ranges with a gap between neighbours, holding exactly the values. */
  ghost predicate Covered(ranges: seq<Range>, v: int) {
    exists i :: 0 <= i < |ranges| && ranges[i].Holds(v)
  }

  ghost predicate MaximalCover(ranges: seq<Range>, values: iset<int>) {
    && (forall i :: 0 <= i < |ranges| ==> ranges[i].start <= ranges[i].end)
    && (forall i, j :: 0 <= i < j < |ranges| ==> ranges[i].end + 1 < ranges[j].start)
    && (forall v :: v in values <==> Covered(ranges, v))
  }

  ghost function Elements(values: seq<int>): iset<int> { iset v | v in values }

  /** The text is a print of the values' maximal cover. */
  ghost predicate Prints(text: string, ranges: seq<Range>, values: iset<int>) {
    MaximalCover(ranges, values) && text == Join(Render(ranges), ",")
  }

  ghost predicate PrintsParts(parts: seq<string>, ranges: seq<Range>, values: iset<int>) {
    MaximalCover(ranges, values) && parts == Render(ranges)
  }

  method FormatNumberSet(values: seq<U64>) returns (text: string)
    ensures exists ranges :: Prints(text, ranges, Elements(values))
  {
    if values == [] {
      assert Prints("", [], Elements(values));
      return "";
    }
    var all: seq<int> := values;
    var sorted := SortDedup(IntLess, all);
    IntLessOrder();
    SortDedupAscending(IntLess, all);
    assert all[0] in sorted;
    assert forall i :: 0 <= i < |sorted| ==> sorted[i] in values;
    var parts := FormatSorted(sorted);
    ghost var ranges :| PrintsParts(parts, ranges, Elements(sorted));
    assert Elements(sorted) == Elements(values);
    text := Join(parts, ",");
    assert Prints(text, ranges, Elements(values));
  }

  /** `end + 1` is evaluated as a 64-bit value here, so its range is part of the proof. */
  method FormatSorted(sorted: seq<U64>) returns (parts: seq<string>)
    requires sorted != [] && Ascending<int>(IntLess, sorted)
    ensures exists ranges :: PrintsParts(parts, ranges, Elements(sorted))
  {
    parts := [];
    var start: U64, end: U64 := sorted[0], sorted[0];
    ghost var ranges: seq<Range> := [];
    ghost var cover, seen := [Range(start, start)], iset{start as int};
    SingleCover(start);
    for i := 1 to |sorted|
      invariant parts == Render(ranges)
      invariant end == sorted[i - 1]
      invariant seen == Elements(sorted[..i])
      invariant cover == ranges + [Range(start, end)]
      invariant MaximalCover(cover, seen)
    {
      var value: U64 := sorted[i];
      assert IntLess(sorted[i - 1], sorted[i]);
      TakeSnoc(sorted, i);
      var successor: U64 := end + 1;
      if value == successor {
        ExtendLast(ranges, start, end, seen);
        end := value;
      } else {
        AddRange(cover, value, seen);
        RenderSnoc(ranges, Range(start, end));
        parts := parts + [FormatRange(start, end)];
        ranges := cover;
        start, end := value, value;
      }
      cover, seen := ranges + [Range(start, end)], seen + iset{value as int};
    }
    RenderSnoc(ranges, Range(start, end));
    parts := parts + [FormatRange(start, end)];
    assert sorted[..|sorted|] == sorted;
    assert PrintsParts(parts, cover, Elements(sorted));
  }

  lemma TakeSnoc(values: seq<int>, i: nat)
    requires i < |values|
    ensures Elements(values[..i + 1]) == Elements(values[..i]) + iset{values[i]}
  {
    assert values[..i + 1] == values[..i] + [values[i]];
  }

  lemma RenderSnoc(ranges: seq<Range>, r: Range)
    ensures Render(ranges + [r]) == Render(ranges) + [FormatRange(r.start, r.end)]
  {}

  lemma SingleCover(v: nat)
    ensures MaximalCover([Range(v, v)], iset{v})
  {
    assert [Range(v, v)][0].Holds(v);
  }

  lemma ExtendLast(ranges: seq<Range>, start: nat, end: nat, values: iset<int>)
    requires MaximalCover(ranges + [Range(start, end)], values)
    ensures MaximalCover(ranges + [Range(start, end + 1)], values + iset{end + 1})
  {
    var before, after := ranges + [Range(start, end)], ranges + [Range(start, end + 1)];
    forall i | 0 <= i < |after| ensures after[i].start <= after[i].end {
      assert before[i].start <= before[i].end;
    }
    forall v ensures v in values + iset{end + 1} <==> Covered(after, v) {
      if i :| 0 <= i < |before| && before[i].Holds(v) { assert after[i].Holds(v); }
      if v == end + 1 { assert after[|ranges|].Holds(v); }
      if i :| 0 <= i < |after| && after[i].Holds(v) {
        assert v == end + 1 || before[i].Holds(v);
      }
    }
    forall i, j | 0 <= i < j < |after| ensures after[i].end + 1 < after[j].start {
      assert before[i].end + 1 < before[j].start;
    }
  }

  lemma AddRange(ranges: seq<Range>, value: nat, values: iset<int>)
    requires MaximalCover(ranges, values)
    requires ranges != [] && ranges[|ranges| - 1].end + 1 < value
    ensures MaximalCover(ranges + [Range(value, value)], values + iset{value})
  {
    var after := ranges + [Range(value, value)];
    forall v ensures v in values + iset{value} <==> Covered(after, v) {
      if i :| 0 <= i < |ranges| && ranges[i].Holds(v) { assert after[i].Holds(v); }
      if v == value { assert after[|ranges|].Holds(v); }
      if i :| 0 <= i < |after| && after[i].Holds(v) {
        assert v == value || ranges[i].Holds(v);
      }
    }
    forall i, j | 0 <= i < j < |after| ensures after[i].end + 1 < after[j].start {
      var last := |ranges| - 1;
      if j == |ranges| && i < last {
        assert ranges[i].end + 1 < ranges[last].start;
      }
    }
  }

  /** No other text is possible: a set of values has only one maximal cover. */
  lemma {:induction false} MaximalCoverUnique(a: seq<Range>, b: seq<Range>, values: iset<int>)
    requires MaximalCover(a, values) && MaximalCover(b, values)
    ensures a == b
  {
    if a != [] { NonEmptyCover(a, b, values); }
    if b != [] {
      NonEmptyCover(b, a, values);
      FirstRangeAgrees(a, b, values);
      FirstRangeAgrees(b, a, values);
      var rest := iset v | v in values && v > a[0].end;
      TailCover(a, values);
      TailCover(b, values);
      MaximalCoverUnique(a[1..], b[1..], rest);
    }
  }

  lemma NonEmptyCover(a: seq<Range>, b: seq<Range>, values: iset<int>)
    requires MaximalCover(a, values) && MaximalCover(b, values) && a != []
    ensures b != []
  {
    assert a[0].Holds(a[0].start);
    assert Covered(a, a[0].start);
    assert Covered(b, a[0].start);
  }

  lemma FirstRangeAgrees(a: seq<Range>, b: seq<Range>, values: iset<int>)
    requires MaximalCover(a, values) && MaximalCover(b, values) && a != [] && b != []
    ensures a[0].start >= b[0].start
    ensures a[0].start == b[0].start ==> a[0].end <= b[0].end
  {
    assert a[0].Holds(a[0].start) && Covered(b, a[0].start);
    if a[0].start == b[0].start && a[0].end > b[0].end {
      var v := b[0].end + 1;
      assert a[0].Holds(v) && Covered(b, v);
      var i :| 0 <= i < |b| && b[i].Holds(v);
    }
  }

  lemma TailCover(a: seq<Range>, values: iset<int>)
    requires MaximalCover(a, values) && a != []
    ensures MaximalCover(a[1..], iset v | v in values && v > a[0].end)
  {
    forall v ensures v in values && v > a[0].end <==> Covered(a[1..], v) {
      if v in values && v > a[0].end {
        var i :| 0 <= i < |a| && a[i].Holds(v);
        assert a[1..][i - 1].Holds(v);
      }
      if i :| 0 <= i < |a[1..]| && a[1..][i].Holds(v) {
        assert a[i + 1].Holds(v) && a[0].end + 1 < a[i + 1].start;
      }
    }
  }

  // ---------- round trip ----------

  ghost predicate Clean(s: string) {
    s != [] && forall c :: c in s ==> IsDigit(c) || c == ':'
  }

  lemma CleanIsTrimmed(s: string)
    requires Clean(s)
    ensures Trim(s) == s && ',' !in s && s != "*"
  {
    assert s[0] in s && s[|s| - 1] in s;
    assert !IsWhitespace(s[0]) && !IsWhitespace(s[|s| - 1]);
  }

  lemma DigitsAreClean(n: nat)
    ensures Clean(Digits(n)) && ':' !in Digits(n)
  {
    assert forall c :: c in Digits(n) ==> IsDigit(c);
  }

  lemma RangeIsClean(r: Range)
    ensures Clean(FormatRange(r.start, r.end))
  {
    DigitsAreClean(r.start);
    DigitsAreClean(r.end);
  }

  /** A printed range reads back as that interval when its end fits an i64. */
  lemma RangeReadsBack(r: Range, max: int)
    requires r.start <= r.end <= I64_MAX
    ensures PartRange(FormatRange(r.start, r.end), max) == Some((r.start, r.end))
  {
    var a, b := Digits(r.start), Digits(r.end);
    DigitsAreClean(r.start);
    DigitsAreClean(r.end);
    CleanIsTrimmed(a);
    CleanIsTrimmed(b);
    ParseDigits(r.start);
    ParseDigits(r.end);
    if r.start == r.end {
      SplitOnceMisses(a, ':');
    } else {
      assert FormatRange(r.start, r.end) == a + [':'] + b;
      SplitOnceFinds(a, b, ':');
    }
  }

  lemma RenderedDenotes(ranges: seq<Range>, values: iset<int>, max: int, v: int)
    requires MaximalCover(ranges, values)
    requires forall i :: 0 <= i < |ranges| ==> 1 <= ranges[i].start && ranges[i].end <= I64_MAX
    ensures Denotes(Join(Render(ranges), ","), max, v) <==> v in values
  {
    var parts := Render(ranges);
    forall i | 0 <= i < |ranges|
      ensures ',' !in parts[i]
      ensures PartDenotes(parts[i], max, v) <==> ranges[i].Holds(v)
    {
      RangeReadsBack(ranges[i], max);
      RangeIsClean(ranges[i]);
      CleanIsTrimmed(parts[i]);
    }
    if ranges == [] {
      assert Split("", ',') == [""];
      assert Trim("") == "";
    } else {
      SplitJoin(parts, ',');
      assert Split(Join(parts, ","), ',') == parts;
      if v in values {
        var i :| 0 <= i < |ranges| && ranges[i].Holds(v);
        assert PartDenotes(parts[i], max, v);
      }
    }
  }

  /** Printing then reading gives back the sorted, duplicate-free list exactly when every
      value is a positive i64. */
  method RoundTrip(values: seq<U64>, max: int) returns (out: seq<int>)
    requires max <= I64_MAX
    ensures out == SortDedup<int>(IntLess, values) <==> forall v :: v in values ==> 1 <= v <= I64_MAX
  {
    var text := FormatNumberSet(values);
    ghost var ranges: seq<Range> :| Prints(text, ranges, Elements(values));
    out := ParseNumberSet(text, max);
    ghost var all: seq<int> := values;
    ghost var sorted := SortDedup(IntLess, all);
    IntLessOrder();
    SortDedupAscending(IntLess, all);
    if forall v :: v in values ==> 1 <= v <= I64_MAX {
      forall i | 0 <= i < |ranges| ensures 1 <= ranges[i].start && ranges[i].end <= I64_MAX {
        assert ranges[i].Holds(ranges[i].start) && Covered(ranges, ranges[i].start);
        assert ranges[i].Holds(ranges[i].end) && Covered(ranges, ranges[i].end);
        assert ranges[i].start in Elements(values) && ranges[i].end in Elements(values);
      }
      forall v ensures v in out <==> v in sorted {
        RenderedDenotes(ranges, Elements(values), max, v);
      }
      AscendingUnique(IntLess, out, sorted);
    } else {
      ghost var v :| v in values && !(1 <= v <= I64_MAX);
      if v in out { DenotesBounded(text, max, v); }
      assert v in sorted;
    }
  }
}
