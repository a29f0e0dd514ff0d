/**
 Numbering the parts of a message (crates/mime/src/lib.rs) over an abstract parsed-mail tree:
 `body` is the decoded content, `nested` the result of parsing it as a message; either may fail.
 */
module MimeParts {
  import opened Wrappers
  import opened Text

  datatype Part = Part(rfc822: bool, subparts: seq<Part>, body: Option<string>, nested: Option<Part>)

  datatype Record = Record(path: string, bytes: string)

  function ChildPath(path: string, n: nat): string {
    if path == "" then Digits(n) else path + "." + Digits(n)
  }

  // ---------- what the walk records ----------

  /** Every body decodes and every embedded message parses. */
  predicate Readable(p: Part)
    decreases p, |p.subparts| + 1
  {
    if p.rfc822 then p.body.Some? && p.nested.Some? && Readable(p.nested.value)
    else if p.subparts == [] then p.body.Some?
    else ReadableParts(p, |p.subparts|)
  }

  predicate ReadableParts(p: Part, n: nat)
    requires n <= |p.subparts|
    decreases p, n
  {
    n == 0 || (ReadableParts(p, n - 1) && Readable(p.subparts[n - 1]))
  }

  function Walk(p: Part, path: string): seq<Record>
    requires Readable(p)
    decreases p, |p.subparts| + 1
  {
    if p.rfc822 then [Record(path, p.body.value)] + Walk(p.nested.value, path + ".1")
    else if p.subparts == [] then [Record(path, p.body.value)]
    else WalkParts(p, path, |p.subparts|)
  }

  function WalkParts(p: Part, path: string, n: nat): seq<Record>
    requires n <= |p.subparts| && ReadableParts(p, n)
    decreases p, n
  {
    if n == 0 then [] else WalkParts(p, path, n - 1) + Walk(p.subparts[n - 1], ChildPath(path, n))
  }

  class Builder {
    var records: seq<Record>

    constructor ()
      ensures records == []
    {
      records := [];
    }

    /** `build_leaf_part`; false when the body cannot be read. */
    method BuildLeafPart(p: Part, path: string) returns (ok: bool)
      requires !p.rfc822 && p.subparts == []
      modifies this
      ensures ok <==> Readable(p)
      ensures ok ==> records == old(records) + Walk(p, path)
    {
      ok := p.body.Some?;
      if ok {
        records := records + [Record(path, p.body.value)];
      }
    }

    /** `build_message_rfc822_part`; false when the body or the embedded message cannot be read. */
    method BuildMessagePart(p: Part, path: string) returns (ok: bool)
      requires p.rfc822
      modifies this
      ensures ok <==> Readable(p)
      ensures ok ==> records == old(records) + Walk(p, path)
      decreases p, 0
    {
      hide ReadableParts, WalkParts;
      if p.body.None? || p.nested.None? {
        return false;
      }
      records := records + [Record(path, p.body.value)];
      ok := BuildPartTree(p.nested.value, path + ".1");
    }

    /** `build_part_tree`; false when some part cannot be read. */
    method BuildPartTree(p: Part, path: string) returns (ok: bool)
      modifies this
      ensures ok <==> Readable(p)
      ensures ok ==> records == old(records) + Walk(p, path)
      decreases p, 1
    {
      hide ChildPath;
      if p.rfc822 {
        ok := BuildMessagePart(p, path);
        return;
      }
      if p.subparts == [] {
        ok := BuildLeafPart(p, path);
        return;
      }
      for i := 0 to |p.subparts|
        invariant ReadableParts(p, i) && records == old(records) + WalkParts(p, path, i)
      {
        ok := BuildPartTree(p.subparts[i], ChildPath(path, i + 1));
        if !ok {
          NotReadable(p, i + 1);
          return;
        }
      }
      ok := true;
    }
  }

  lemma {:induction false} NotReadable(p: Part, n: nat)
    requires n <= |p.subparts| && !ReadableParts(p, n)
    ensures !ReadableParts(p, |p.subparts|)
    decreases |p.subparts| - n
  {
    if n < |p.subparts| { NotReadable(p, n + 1); }
  }

  function Find(records: seq<Record>, path: string): Option<string> {
    if records == [] then None
    else if records[0].path == path then Some(records[0].bytes)
    else Find(records[1..], path)
  }

  /** `extract_part_bytes`: the first record with that path. */
  method ExtractPartBytes(root: Part, path: string) returns (r: Result<Option<string>>)
    ensures r == if Readable(root) then Ok(Find(Walk(root, "1"), path)) else Err
  {
    var builder := new Builder();
    var ok := builder.BuildPartTree(root, "1");
    if !ok {
      return Err;
    }
    assert builder.records == Walk(root, "1");
    r := Ok(Find(builder.records, path));
  }

  // ---------- the meaning of a part number ----------

  /** The part an address leads to: child numbers into multiparts, 1 into an embedded message. */
  function PartAt(p: Part, addr: seq<nat>): Option<Part>
    decreases |addr|
  {
    if addr == [] then Some(p)
    else if p.rfc822 then
      if addr[0] == 1 && p.nested.Some? then PartAt(p.nested.value, addr[1..]) else None
    else if 1 <= addr[0] <= |p.subparts| then PartAt(p.subparts[addr[0] - 1], addr[1..])
    else None
  }

  /** Leaves and embedded messages carry bytes, multiparts do not. */
  predicate Bears(p: Part, bytes: string) {
    (p.rfc822 || p.subparts == []) && p.body == Some(bytes)
  }

  function PathOf(addr: seq<nat>): string { Join(Numerals(addr), ".") }

  function Numerals(addr: seq<nat>): (r: seq<string>)
    ensures |r| == |addr| && forall i :: 0 <= i < |r| ==> r[i] == Digits(addr[i])
  {
    seq(|addr|, i requires 0 <= i < |addr| => Digits(addr[i]))
  }

  lemma PathOfChild(addr: seq<nat>, n: nat)
    requires addr != []
    ensures PathOf(addr + [n]) == ChildPath(PathOf(addr), n) == PathOf(addr) + "." + Digits(n)
  {
    hide Digits;
    assert Numerals(addr + [n]) == Numerals(addr) + [Digits(n)];
    JoinSnoc(Numerals(addr), Digits(n), ".");
    assert Numerals(addr)[0] != "" by { assert Digits(addr[0]) != ""; }
    JoinNonEmpty(Numerals(addr));
  }

  lemma JoinNonEmpty(parts: seq<string>)
    requires parts != [] && parts[0] != ""
    ensures Join(parts, ".") != ""
  {}

  /** Dotted numbers determine the address, decimal prefixes such as 1.1 and 1.10 included. */
  lemma PathOfInjective(a: seq<nat>, b: seq<nat>)
    requires a != [] && b != [] && PathOf(a) == PathOf(b)
    ensures a == b
  {
    hide Join, Split, Digits;
    forall addr: seq<nat>, i | 0 <= i < |addr| ensures '.' !in Numerals(addr)[i] {
      NoDot(addr[i]);
    }
    SplitJoin(Numerals(a), '.');
    SplitJoin(Numerals(b), '.');
    assert "." == ['.'];
    assert Numerals(a) == Numerals(b);
    forall i | 0 <= i < |a| ensures a[i] == b[i] {
      assert Numerals(a)[i] == Digits(a[i]) && Numerals(b)[i] == Digits(b[i]);
      DigitsRoundTrip(a[i]);
      DigitsRoundTrip(b[i]);
    }
  }

  lemma NoDot(n: nat)
    ensures '.' !in Digits(n)
  {
    assert forall c :: c in Digits(n) ==> IsDigit(c);
  }

  // ---------- records by address ----------

  datatype Slot = Slot(addr: seq<nat>, bytes: string)

  /** The walk with addresses in place of printed paths. */
  function Slots(p: Part, addr: seq<nat>): seq<Slot>
    requires Readable(p)
    decreases p, |p.subparts| + 1
  {
    if p.rfc822 then [Slot(addr, p.body.value)] + Slots(p.nested.value, addr + [1])
    else if p.subparts == [] then [Slot(addr, p.body.value)]
    else SlotParts(p, addr, |p.subparts|)
  }

  function SlotParts(p: Part, addr: seq<nat>, n: nat): seq<Slot>
    requires n <= |p.subparts| && ReadableParts(p, n)
    decreases p, n
  {
    if n == 0 then [] else SlotParts(p, addr, n - 1) + Slots(p.subparts[n - 1], addr + [n])
  }

  function Printed(slots: seq<Slot>): (r: seq<Record>)
    ensures |r| == |slots| && forall i :: 0 <= i < |r| ==> r[i] == Record(PathOf(slots[i].addr), slots[i].bytes)
  {
    seq(|slots|, i requires 0 <= i < |slots| => Record(PathOf(slots[i].addr), slots[i].bytes))
  }

  lemma {:induction false} WalkPrintsSlots(p: Part, addr: seq<nat>)
    requires Readable(p) && addr != []
    ensures Walk(p, PathOf(addr)) == Printed(Slots(p, addr))
    decreases p, |p.subparts| + 1
  {
    hide PathOf;
    if p.rfc822 {
      PathOfChild(addr, 1);
      assert Digits(1) == "1";
      assert PathOf(addr) + ".1" == PathOf(addr) + "." + "1";
      WalkPrintsSlots(p.nested.value, addr + [1]);
    } else if p.subparts != [] {
      WalkPartsPrintsSlots(p, addr, |p.subparts|);
    }
  }

  lemma {:induction false} WalkPartsPrintsSlots(p: Part, addr: seq<nat>, n: nat)
    requires n <= |p.subparts| && ReadableParts(p, n) && addr != []
    ensures WalkParts(p, PathOf(addr), n) == Printed(SlotParts(p, addr, n))
    decreases p, n
  {
    hide PathOf, ChildPath, Digits;
    if n > 0 {
      WalkPartsPrintsSlots(p, addr, n - 1);
      PathOfChild(addr, n);
      WalkPrintsSlots(p.subparts[n - 1], addr + [n]);
    }
  }

  ghost predicate Under(addr: seq<nat>, s: Slot) { addr <= s.addr }

  /** Every slot lies under its part's address, and leads to a part with those bytes. */
  ghost predicate Honest(p: Part, addr: seq<nat>, s: Slot) {
    Under(addr, s) && PartAt(p, s.addr[|addr|..]).Some? && Bears(PartAt(p, s.addr[|addr|..]).value, s.bytes)
  }

  lemma HonestBelow(p: Part, addr: seq<nat>, n: nat, child: Part, s: Slot)
    requires Honest(child, addr + [n], s) && PartAt(p, [n]) == Some(child)
    ensures Honest(p, addr, s)
  {
    var rel := s.addr[|addr|..];
    assert s.addr[..|addr| + 1] == addr + [n];
    assert rel[0] == n && rel[1..] == s.addr[|addr| + 1..];
    assert [n][1..] == [];
  }

  lemma {:induction false} SlotsHonest(p: Part, addr: seq<nat>)
    requires Readable(p)
    ensures forall i :: 0 <= i < |Slots(p, addr)| ==> Honest(p, addr, Slots(p, addr)[i])
    decreases p, |p.subparts| + 1
  {
    hide Honest;
    assert forall b :: Bears(p, b) ==> Honest(p, addr, Slot(addr, b)) by {
      HonestSelf(p, addr);
    }
    if p.rfc822 {
      var nested := p.nested.value;
      SlotsHonest(nested, addr + [1]);
      assert PartAt(p, [1]) == Some(nested) by { assert [1][1..] == []; }
      forall i | 0 <= i < |Slots(nested, addr + [1])| ensures Honest(p, addr, Slots(nested, addr + [1])[i]) {
        HonestBelow(p, addr, 1, nested, Slots(nested, addr + [1])[i]);
      }
    } else if p.subparts != [] {
      SlotPartsHonest(p, addr, |p.subparts|);
    }
  }

  lemma HonestSelf(p: Part, addr: seq<nat>)
    ensures forall b :: Bears(p, b) ==> Honest(p, addr, Slot(addr, b))
  {
    assert addr[|addr|..] == [];
  }

  lemma {:induction false} SlotPartsHonest(p: Part, addr: seq<nat>, n: nat)
    requires n <= |p.subparts| && ReadableParts(p, n) && !p.rfc822
    ensures forall i :: 0 <= i < |SlotParts(p, addr, n)| ==> Honest(p, addr, SlotParts(p, addr, n)[i])
    decreases p, n
  {
    hide Honest;
    if n > 0 {
      var child := p.subparts[n - 1];
      SlotPartsHonest(p, addr, n - 1);
      SlotsHonest(child, addr + [n]);
      assert PartAt(p, [n]) == Some(child) by { assert [n][1..] == []; }
      forall i | 0 <= i < |Slots(child, addr + [n])| ensures Honest(p, addr, Slots(child, addr + [n])[i]) {
        HonestBelow(p, addr, n, child, Slots(child, addr + [n])[i]);
      }
    }
  }

  /** Every part with bytes has its slot. */
  lemma {:induction false} SlotsComplete(p: Part, addr: seq<nat>, rel: seq<nat>)
    requires Readable(p) && PartAt(p, rel).Some? && (PartAt(p, rel).value.rfc822 || PartAt(p, rel).value.subparts == [])
    ensures exists i :: 0 <= i < |Slots(p, addr)| && Slots(p, addr)[i].addr == addr + rel
    decreases p, |p.subparts| + 1
  {
    var slots := Slots(p, addr);
    if rel == [] {
      assert addr + rel == addr && slots[0].addr == addr;
    } else if p.rfc822 {
      SlotsComplete(p.nested.value, addr + [1], rel[1..]);
      var i :| 0 <= i < |Slots(p.nested.value, addr + [1])|
               && Slots(p.nested.value, addr + [1])[i].addr == addr + [1] + rel[1..];
      assert addr + [1] + rel[1..] == addr + rel;
      assert slots[i + 1].addr == addr + rel;
    } else {
      SlotPartsComplete(p, addr, rel, |p.subparts|);
    }
  }

  lemma {:induction false} SlotPartsComplete(p: Part, addr: seq<nat>, rel: seq<nat>, n: nat)
    requires n <= |p.subparts| && ReadableParts(p, n) && !p.rfc822 && rel != [] && 1 <= rel[0] <= n
    requires PartAt(p, rel).Some? && (PartAt(p, rel).value.rfc822 || PartAt(p, rel).value.subparts == [])
    ensures exists i :: 0 <= i < |SlotParts(p, addr, n)| && SlotParts(p, addr, n)[i].addr == addr + rel
    decreases p, n
  {
    var before, here := SlotParts(p, addr, n - 1), Slots(p.subparts[n - 1], addr + [n]);
    if rel[0] == n {
      SlotsComplete(p.subparts[n - 1], addr + [n], rel[1..]);
      var i :| 0 <= i < |here| && here[i].addr == addr + [n] + rel[1..];
      assert addr + [n] + rel[1..] == addr + rel;
      assert SlotParts(p, addr, n)[|before| + i].addr == addr + rel;
    } else {
      SlotPartsComplete(p, addr, rel, n - 1);
      var i :| 0 <= i < |before| && before[i].addr == addr + rel;
      assert SlotParts(p, addr, n)[i].addr == addr + rel;
    }
  }

  ghost predicate Distinct(slots: seq<Slot>) {
    forall i, j :: 0 <= i < j < |slots| ==> slots[i].addr != slots[j].addr
  }

  lemma SlotsUnder(p: Part, addr: seq<nat>, i: nat)
    requires Readable(p) && i < |Slots(p, addr)|
    ensures Under(addr, Slots(p, addr)[i])
  {
    SlotsHonest(p, addr);
    assert Honest(p, addr, Slots(p, addr)[i]);
  }

  lemma {:induction false} SlotsDistinct(p: Part, addr: seq<nat>)
    requires Readable(p)
    ensures Distinct(Slots(p, addr))
    decreases p, |p.subparts| + 1
  {
    if p.rfc822 {
      var rest := Slots(p.nested.value, addr + [1]);
      SlotsDistinct(p.nested.value, addr + [1]);
      forall i | 0 <= i < |rest| ensures rest[i].addr != addr {
        SlotsUnder(p.nested.value, addr + [1], i);
      }
    } else if p.subparts != [] {
      SlotPartsDistinct(p, addr, |p.subparts|);
    }
  }

  /** Slots of the first n children start with a child number up to n. */
  lemma {:induction false} SlotPartsBelow(p: Part, addr: seq<nat>, n: nat, i: nat)
    requires n <= |p.subparts| && ReadableParts(p, n) && i < |SlotParts(p, addr, n)|
    ensures var s := SlotParts(p, addr, n)[i]; |s.addr| > |addr| && s.addr[|addr|] <= n
    decreases p, n
  {
    var before, here := SlotParts(p, addr, n - 1), Slots(p.subparts[n - 1], addr + [n]);
    if i < |before| {
      SlotPartsBelow(p, addr, n - 1, i);
    } else {
      SlotsUnder(p.subparts[n - 1], addr + [n], i - |before|);
      assert here[i - |before|].addr[|addr|] == (addr + [n])[|addr|];
    }
  }

  lemma {:induction false} SlotPartsDistinct(p: Part, addr: seq<nat>, n: nat)
    requires n <= |p.subparts| && ReadableParts(p, n)
    ensures Distinct(SlotParts(p, addr, n))
    decreases p, n
  {
    if n > 0 {
      SlotPartsDistinct(p, addr, n - 1);
      SlotsDistinct(p.subparts[n - 1], addr + [n]);
      var before, here := SlotParts(p, addr, n - 1), Slots(p.subparts[n - 1], addr + [n]);
      forall i, j | 0 <= i < |before| && 0 <= j < |here| ensures before[i].addr != here[j].addr {
        SlotPartsBelow(p, addr, n - 1, i);
        SlotsUnder(p.subparts[n - 1], addr + [n], j);
        assert here[j].addr[|addr|] == (addr + [n])[|addr|];
      }
    }
  }

  // ---------- results about recorded paths ----------

  /** No two records of a message share a path. */
  lemma PathsDistinct(root: Part, i: nat, j: nat)
    requires Readable(root) && i < j < |Walk(root, "1")|
    ensures Walk(root, "1")[i].path != Walk(root, "1")[j].path
  {
    hide Walk, Slots, PathOf;
    RootWalk(root);
    SlotsDistinct(root, [1]);
    SlotsUnder(root, [1], i);
    SlotsUnder(root, [1], j);
    if PathOf(Slots(root, [1])[i].addr) == PathOf(Slots(root, [1])[j].addr) {
      PathOfInjective(Slots(root, [1])[i].addr, Slots(root, [1])[j].addr);
    }
  }

  lemma RootWalk(root: Part)
    requires Readable(root)
    ensures Walk(root, "1") == Printed(Slots(root, [1]))
  {
    hide Walk, Slots;
    WalkPrintsSlots(root, [1]);
    assert Digits(1) == "1";
    assert Numerals([1]) == ["1"];
  }

  lemma {:induction false} FindRecord(records: seq<Record>, i: nat)
    requires i < |records| && forall a, b :: 0 <= a < b < |records| ==> records[a].path != records[b].path
    ensures Find(records, records[i].path) == Some(records[i].bytes)
    decreases i
  {
    if i > 0 { FindRecord(records[1..], i - 1); }
  }

  lemma {:induction false} FindMisses(records: seq<Record>, path: string)
    requires forall i :: 0 <= i < |records| ==> records[i].path != path
    ensures Find(records, path) == None
  {
    if records != [] { FindMisses(records[1..], path); }
  }

  /** Looking up the number of a leaf or embedded message gives exactly its bytes. */
  lemma LookupFindsPart(root: Part, addr: seq<nat>, bytes: string)
    requires Readable(root) && PartAt(root, addr).Some? && Bears(PartAt(root, addr).value, bytes)
    ensures Find(Walk(root, "1"), PathOf([1] + addr)) == Some(bytes)
  {
    hide Walk, Slots, PathOf;
    var slots := Slots(root, [1]);
    RootWalk(root);
    SlotsComplete(root, [1], addr);
    var i :| 0 <= i < |slots| && slots[i].addr == [1] + addr;
    SlotsHonest(root, [1]);
    assert Honest(root, [1], slots[i]);
    assert ([1] + addr)[1..] == addr;
    forall a, b | 0 <= a < b < |slots| ensures Walk(root, "1")[a].path != Walk(root, "1")[b].path {
      PathsDistinct(root, a, b);
    }
    FindRecord(Walk(root, "1"), i);
  }

  /** Whatever a lookup returns is the content of the part that number leads to. */
  lemma LookupIsHonest(root: Part, path: string) returns (addr: seq<nat>)
    requires Readable(root) && Find(Walk(root, "1"), path).Some?
    ensures path == PathOf([1] + addr) && PartAt(root, addr).Some?
    ensures Bears(PartAt(root, addr).value, Find(Walk(root, "1"), path).value)
  {
    hide Walk, Slots, PathOf;
    var slots, records := Slots(root, [1]), Walk(root, "1");
    RootWalk(root);
    if forall i :: 0 <= i < |records| ==> records[i].path != path { FindMisses(records, path); }
    var i :| 0 <= i < |records| && records[i].path == path;
    forall a, b | 0 <= a < b < |slots| ensures records[a].path != records[b].path {
      PathsDistinct(root, a, b);
    }
    FindRecord(records, i);
    SlotsHonest(root, [1]);
    assert Honest(root, [1], slots[i]);
    addr := slots[i].addr[1..];
    assert [1] + addr == slots[i].addr;
  }

  /** Leaves plus embedded messages. */
  function Bearers(p: Part): nat
    requires Readable(p)
    decreases p, |p.subparts| + 1
  {
    if p.rfc822 then 1 + Bearers(p.nested.value)
    else if p.subparts == [] then 1
    else BearersOf(p, |p.subparts|)
  }

  function BearersOf(p: Part, n: nat): nat
    requires n <= |p.subparts| && ReadableParts(p, n)
    decreases p, n
  {
    if n == 0 then 0 else BearersOf(p, n - 1) + Bearers(p.subparts[n - 1])
  }

  lemma {:induction false} RecordCount(p: Part, path: string)
    requires Readable(p)
    ensures |Walk(p, path)| == Bearers(p)
    decreases p, |p.subparts| + 1
  {
    if p.rfc822 { RecordCount(p.nested.value, path + ".1"); }
    else if p.subparts != [] { RecordCountOf(p, path, |p.subparts|); }
  }

  lemma {:induction false} RecordCountOf(p: Part, path: string, n: nat)
    requires n <= |p.subparts| && ReadableParts(p, n)
    ensures |WalkParts(p, path, n)| == BearersOf(p, n)
    decreases p, n
  {
    hide ChildPath;
    if n > 0 {
      RecordCountOf(p, path, n - 1);
      RecordCount(p.subparts[n - 1], ChildPath(path, n));
    }
  }
}
