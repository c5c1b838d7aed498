/** The section-header pre-scan of the WebAssembly polyfill: how many tables a
    binary module defines, read without parsing anything but section headers. */
module WasmScan {
  import opened Basics

  type Octet = b: int | 0 <= b < 256

  const WORD: nat := 0x1_0000_0000

  /** x << n on 32-bit words: bits shifted beyond the 32nd are lost. */
  function Shl(x: nat, n: nat): nat
    decreases n
  {
    if n == 0 then x else Shl(2 * x % WORD, n - 1)
  }

  /** Bitwise or. */
  function Or(x: nat, y: nat): nat {
    if x == 0 && y == 0 then 0
    else (if x % 2 == 1 || y % 2 == 1 then 1 else 0) + 2 * Or(x / 2, y / 2)
  }

  /** bytes[p] in JavaScript: past the end it is undefined, which acts as 0 under
      every bit operation the scan applies to it. */
  function ByteAt(bytes: seq<Octet>, p: nat): Octet {
    if p < |bytes| then bytes[p] else 0
  }

  predicate More(b: Octet) { b >= 0x80 }

  /** (b & 0x7f) << sh: a shift count is masked to five bits. */
  function Chunk(b: Octet, sh: nat): nat {
    Shl(b % 0x80, sh % 32)
  }

  /** What is left of the bytes from position p; nothing past the end. */
  function From(bytes: seq<Octet>, p: nat): seq<Octet> {
    if p <= |bytes| then bytes[p..] else []
  }

  /** The LEB128 reader with r accumulated so far: the unsigned value and what is
      left after it.  At the end of the bytes it reads one zero and stops. */
  function U32From(s: seq<Octet>, r: nat, sh: nat): (res: (nat, seq<Octet>))
    ensures |res.1| <= |s|
    decreases |s|
  {
    if s == [] then (Or(r, Chunk(0, sh)), [])
    else
      var r' := Or(r, Chunk(s[0], sh));
      if More(s[0]) then U32From(s[1..], r', sh + 7) else (r', s[1..])
  }

  function U32(s: seq<Octet>): (res: (nat, seq<Octet>))
    ensures |res.1| <= |s|
  {
    U32From(s, 0, 0)
  }

  const HEADER: seq<Octet> := [0x00, 0x61, 0x73, 0x6d, 0x01, 0x00, 0x00, 0x00]
  const TABLE_SECTION: Octet := 4

  /** The section walk. */
  function Walk(s: seq<Octet>): nat
    decreases |s|
  {
    if s == [] then 0 else
    var (len, rest) := U32(s[1..]);
    if s[0] == TABLE_SECTION then U32(rest).0 else Walk(From(rest, len))
  }

  /** The table count; None where the code answers -1. */
  function Scan(bytes: seq<Octet>): Option<nat> {
    if HEADER <= bytes then Some(Walk(bytes[8..])) else None
  }

  method ReadU32(bytes: seq<Octet>, start: nat) returns (r: nat, p: nat)
    ensures p > start && (r, From(bytes, p)) == U32(From(bytes, start))
  {
    r, p := 0, start;
    var sh, more := 0, true;
    while more
      invariant p >= start && (!more ==> p > start)
      invariant U32(From(bytes, start)) == if more then U32From(From(bytes, p), r, sh) else (r, From(bytes, p))
      decreases more, |bytes| - p
    {
      var b := ByteAt(bytes, p);
      p := p + 1;
      r := Or(r, Chunk(b, sh));
      sh := sh + 7;
      more := More(b);
    }
  }

  lemma FromFrom(bytes: seq<Octet>, p: nat, len: nat)
    ensures From(From(bytes, p), len) == From(bytes, p + len)
  {
  }

  /** definedTableCount: terminates on every byte string. */
  method DefinedTableCount(bytes: seq<Octet>) returns (count: Option<nat>)
    ensures count == Scan(bytes)
  {
    if |bytes| < 8 || bytes[0] != 0x00 || bytes[1] != 0x61 || bytes[2] != 0x73 || bytes[3] != 0x6d ||
       bytes[4] != 0x01 || bytes[5] != 0x00 || bytes[6] != 0x00 || bytes[7] != 0x00
    {
      return None;
    }
    var p := 8;
    while p < |bytes|
      invariant HEADER <= bytes && Scan(bytes) == Some(Walk(From(bytes, p)))
      decreases |bytes| - p
    {
      var id := bytes[p];
      assert From(bytes, p)[1..] == From(bytes, p + 1);
      var len, body := ReadU32(bytes, p + 1);
      if id == TABLE_SECTION {
        var tables, _ := ReadU32(bytes, body);
        return Some(tables);
      }
      FromFrom(bytes, body, len);
      p := body + len;
    }
    return Some(0);
  }

  // ----- the encoder ---------------------------------------------------------------

  /** The number of values that k groups of seven bits can hold. */
  function Limit(k: nat): (n: nat)
    requires k <= 5
    ensures n > 0
  {
    match k
    case 0 => 1
    case 1 => 0x80
    case 2 => 0x4000
    case 3 => 0x20_0000
    case 4 => 0x1000_0000
    case _ => 0x8_0000_0000
  }

  /** A 32-bit value may be padded to any of the one to five bytes that hold it. */
  predicate Encodable(v: nat, k: nat) {
    1 <= k <= 5 && v < WORD && v < Limit(k)
  }

  /** LEB128 in exactly k bytes (section 5.2.2 of the WebAssembly Core
      Specification). */
  function Leb(v: nat, k: nat): (bytes: seq<Octet>)
    requires Encodable(v, k)
    ensures |bytes| == k
    decreases k
  {
    if k == 1 then [v] else [v % 0x80 + 0x80] + Leb(v / 0x80, k - 1)
  }

  /** A table type: a reference type, and limits whose bounds may be padded like any
      number.  Without a maximum, max is ignored. */
  datatype TableType = TableType(reference: Octet, min: nat, minWidth: nat, bounded: bool, max: nat, maxWidth: nat) {
    ghost predicate WellFormed() {
      (reference == 0x70 || reference == 0x6f) && Encodable(min, minWidth) && (bounded ==> Encodable(max, maxWidth))
    }

    ghost function Bytes(): (bytes: seq<Octet>)
      requires WellFormed()
      ensures |bytes| >= 3
    {
      if bounded then [reference, 1] + Leb(min, minWidth) + Leb(max, maxWidth) else [reference, 0] + Leb(min, minWidth)
    }
  }

  ghost predicate AllTyped(types: seq<TableType>) {
    forall k :: 0 <= k < |types| ==> types[k].WellFormed()
  }

  ghost function TypeBytes(types: seq<TableType>): (bytes: seq<Octet>)
    requires AllTyped(types)
    ensures |bytes| >= 3 * |types|
  {
    if types == [] then [] else types[0].Bytes() + TypeBytes(types[1..])
  }

  /** A section, with the width its size is written in.  The body of a table section
      is a vector of table types: their number, then every one of them.  The body of
      any other section is arbitrary. */
  datatype Section =
    | Table(types: seq<TableType>, countWidth: nat, width: nat)
    | Other(id: Octet, content: seq<Octet>, width: nat)
  {
    ghost predicate WellFormed() {
      && (if Table? then AllTyped(types) && Encodable(|types|, countWidth) else id != TABLE_SECTION)
      && Encodable(|Body()|, width)
    }

    ghost function Body(): seq<Octet>
      requires Table? ==> AllTyped(types) && Encodable(|types|, countWidth)
    {
      if Table? then Leb(|types|, countWidth) + TypeBytes(types) else content
    }

    ghost function Bytes(): seq<Octet>
      requires WellFormed()
    {
      [if Table? then TABLE_SECTION else id] + Leb(|Body()|, width) + Body()
    }
  }

  ghost predicate AllWellFormed(sections: seq<Section>) {
    forall k :: 0 <= k < |sections| ==> sections[k].WellFormed()
  }

  ghost function Serialised(sections: seq<Section>): seq<Octet>
    requires AllWellFormed(sections)
  {
    if sections == [] then [] else sections[0].Bytes() + Serialised(sections[1..])
  }

  /** The tables a module defines, in its table section. */
  ghost function TablesDefined(sections: seq<Section>): nat {
    if sections == [] then 0
    else if sections[0].Table? then |sections[0].types|
    else TablesDefined(sections[1..])
  }

  // ----- the scan inverts the encoder ------------------------------------------------

  /** The weight of bit n. */
  ghost function Weight(n: nat): (w: nat)
    ensures w > 0
  {
    if n == 0 then 1 else 2 * Weight(n - 1)
  }

  lemma HalfWeight(n: nat, y: nat)
    requires n > 0
    ensures y * Weight(n) % 2 == 0 && y * Weight(n) / 2 == y * Weight(n - 1)
  {
    assert y * Weight(n) == 2 * (y * Weight(n - 1));
  }

  lemma OrZero(y: nat)
    ensures Or(0, y) == y
  {
  }

  /** Words with no bit in common or to their sum. */
  lemma {:induction false} OrDisjoint(x: nat, y: nat, n: nat)
    requires x < Weight(n)
    ensures Or(x, y * Weight(n)) == x + y * Weight(n)
    decreases n
  {
    if n == 0 {
      OrZero(y);
    } else {
      HalfWeight(n, y);
      OrDisjoint(x / 2, y, n - 1);
    }
  }

  lemma Doubled(x: nat, n: nat)
    requires n > 0 && x * Weight(n) < WORD
    ensures (2 * x) * Weight(n - 1) == x * Weight(n) && 2 * x % WORD == 2 * x
  {
    var w := Weight(n - 1);
    assert Weight(n) == 2 * w;
    assert (2 * x) * w == x * (2 * w);
    assert 2 * x <= (2 * x) * w;
  }

  lemma {:induction false} ShlScales(x: nat, n: nat)
    requires x * Weight(n) < WORD
    ensures Shl(x, n) == x * Weight(n)
    decreases n
  {
    if n > 0 {
      Doubled(x, n);
      ShlScales(2 * x, n - 1);
    }
  }

  /** v moved up by i groups of seven bits. */
  ghost function Placed(v: nat, i: nat): nat
    requires i < 5
  {
    match i
    case 0 => v
    case 1 => 0x80 * v
    case 2 => 0x4000 * v
    case 3 => 0x20_0000 * v
    case _ => 0x1000_0000 * v
  }

  lemma Weight7(n: nat)
    ensures Weight(n + 7) == 0x80 * Weight(n)
  {
    assert Weight(n + 7) == 2 * Weight(n + 6) == 4 * Weight(n + 5) == 8 * Weight(n + 4);
    assert Weight(n + 4) == 2 * Weight(n + 3) == 4 * Weight(n + 2) == 8 * Weight(n + 1);
  }

  lemma GroupWeight(v: nat, i: nat)
    requires i < 5
    ensures Weight(7 * i) == Limit(i) && Placed(v, i) == v * Weight(7 * i)
  {
    Weight7(0);
    Weight7(7);
    Weight7(14);
    Weight7(21);
  }

  /** The i-th group or-ed in, where no bit is lost. */
  lemma GroupAdds(r: nat, b: Octet, i: nat)
    requires i < 5 && r < Limit(i) && Placed(b % 0x80, i) < WORD
    ensures Or(r, Chunk(b, 7 * i)) == r + Placed(b % 0x80, i)
  {
    var g := b % 0x80;
    GroupWeight(g, i);
    assert 7 * i % 32 == 7 * i;
    ShlScales(g, 7 * i);
    OrDisjoint(r, g, 7 * i);
  }

  /** The low group of a value in place, and the rest one group higher. */
  lemma Digits(v: nat, i: nat)
    requires i < 5
    ensures i < 4 ==> Placed(v, i) == Placed(v % 0x80, i) + Placed(v / 0x80, i + 1)
    ensures i < 4 ==> Limit(i) + Placed(v % 0x80, i) <= Limit(i + 1)
  {
  }

  lemma ReadStep(b: Octet, s: seq<Octet>, r: nat, i: nat)
    requires i < 5 && r < Limit(i) && Placed(b % 0x80, i) < WORD
    ensures var r' := r + Placed(b % 0x80, i);
            U32From([b] + s, r, 7 * i) == if More(b) then U32From(s, r', 7 * (i + 1)) else (r', s)
  {
    GroupAdds(r, b, i);
    assert ([b] + s)[1..] == s;
  }

  lemma LebApart(v: nat, k: nat, s: seq<Octet>)
    requires Encodable(v, k) && k > 1
    ensures var b: Octet := v % 0x80 + 0x80;
            b % 0x80 == v % 0x80 && More(b) && Encodable(v / 0x80, k - 1) &&
            Leb(v, k) + s == [b] + (Leb(v / 0x80, k - 1) + s)
  {
    var b: Octet := v % 0x80 + 0x80;
    Regroup([b], Leb(v / 0x80, k - 1), s);
  }

  /** Reading from inside a padded encoding finishes its value. */
  lemma {:induction false} ReadsGroups(v: nat, k: nat, s: seq<Octet>, r: nat, i: nat)
    requires Encodable(v, k) && i + k <= 5
    requires r < Limit(i) && r + Placed(v, i) < WORD
    ensures U32From(Leb(v, k) + s, r, 7 * i) == (r + Placed(v, i), s)
    decreases k
  {
    if k == 1 {
      ReadStep(v, s, r, i);
    } else {
      var b, r' := v % 0x80 + 0x80, r + Placed(v % 0x80, i);
      var tail := Leb(v / 0x80, k - 1) + s;
      Digits(v, i);
      LebApart(v, k, s);
      ReadStep(b, tail, r, i);
      ReadsGroups(v / 0x80, k - 1, s, r', i + 1);
    }
  }

  /** The reader inverts the encoder at every padding width. */
  lemma ReadsBack(v: nat, k: nat, s: seq<Octet>)
    requires Encodable(v, k)
    ensures U32(Leb(v, k) + s) == (v, s)
  {
    ReadsGroups(v, k, s, 0, 0);
  }

  lemma WalkStep(id: Octet, size: nat, width: nat, s: seq<Octet>)
    requires Encodable(size, width)
    ensures Walk([id] + (Leb(size, width) + s)) ==
            if id == TABLE_SECTION then U32(s).0 else Walk(From(s, size))
  {
    ReadsBack(size, width, s);
    assert ([id] + (Leb(size, width) + s))[1..] == Leb(size, width) + s;
  }

  lemma HeadApart(s: Section, rest: seq<Octet>)
    requires s.WellFormed()
    ensures s.Bytes() + rest ==
            [if s.Table? then TABLE_SECTION else s.id] + (Leb(|s.Body()|, s.width) + (s.Body() + rest))
  {
  }

  /** The walk steps over a section it skips. */
  lemma WalkOther(s: Section, rest: seq<Octet>)
    requires s.WellFormed() && s.Other?
    ensures Walk(s.Bytes() + rest) == Walk(rest)
  {
    HeadApart(s, rest);
    WalkStep(s.id, |s.content|, s.width, s.content + rest);
    assert From(s.content + rest, |s.content|) == rest;
  }

  /** The walk answers at a table section, whatever follows its count. */
  lemma WalkTable(s: Section, rest: seq<Octet>)
    requires s.WellFormed() && s.Table?
    ensures Walk(s.Bytes() + rest) == |s.types|
  {
    HeadApart(s, rest);
    WalkStep(TABLE_SECTION, |s.Body()|, s.width, s.Body() + rest);
    Regroup(Leb(|s.types|, s.countWidth), TypeBytes(s.types), rest);
    ReadsBack(|s.types|, s.countWidth, TypeBytes(s.types) + rest);
  }

  lemma {:induction false} WalkSections(sections: seq<Section>)
    requires AllWellFormed(sections)
    ensures Walk(Serialised(sections)) == TablesDefined(sections)
    decreases |sections|
  {
    if sections != [] {
      var s, rest := sections[0], sections[1..];
      if s.Table? {
        WalkTable(s, Serialised(rest));
      } else {
        WalkOther(s, Serialised(rest));
        WalkSections(rest);
      }
    }
  }

  /** For every version-1 module written as headed sections, with any payloads and
      any LEB128 padding, the scan returns exactly the number of tables defined. */
  lemma {:induction false} ScanInvertsTheEncoder(sections: seq<Section>)
    requires AllWellFormed(sections)
    ensures Scan(HEADER + Serialised(sections)) == Some(TablesDefined(sections))
  {
    WalkSections(sections);
    assert (HEADER + Serialised(sections))[8..] == Serialised(sections);
  }

  // ----- its two callers ---------------------------------------------------------------

  /** translate rejects a module before asking the bridge. */
  predicate RejectedEarly(bytes: seq<Octet>) {
    Scan(bytes).Some? && Scan(bytes).value > 1
  }

  /** validate: the magic number is checked first, then the scan may answer, and the
      bridge only then. */
  function Validate(bytes: seq<Octet>, bridge: seq<Octet> -> bool): bool {
    |bytes| >= 8 && HEADER[..4] <= bytes && (RejectedEarly(bytes) || bridge(bytes))
  }

  /** A module written by the encoder is rejected early exactly when it defines more
      than one table; never falsely. */
  lemma {:induction false} NeverFalselyRejected(sections: seq<Section>)
    requires AllWellFormed(sections)
    ensures RejectedEarly(HEADER + Serialised(sections)) <==> TablesDefined(sections) > 1
  {
    ScanInvertsTheEncoder(sections);
  }

  /** For every byte string: a bridge that refuses it leaves validate true if and only
      if the header is there and the walk reads a count above one. */
  lemma FastPathOverrules(bytes: seq<Octet>, bridge: seq<Octet> -> bool)
    requires !bridge(bytes)
    ensures Validate(bytes, bridge) <==> HEADER <= bytes && Walk(bytes[8..]) > 1
  {
  }

  // ----- what the walk depends on ------------------------------------------------------

  /** The number at the start of s ends before s does. */
  predicate Ends(s: seq<Octet>) { exists k :: 0 <= k < |s| && !More(s[k]) }

  lemma {:induction false} U32Ignores(s: seq<Octet>, tail: seq<Octet>, r: nat, sh: nat)
    requires Ends(s)
    ensures U32From(s + tail, r, sh) == (U32From(s, r, sh).0, U32From(s, r, sh).1 + tail)
    decreases |s|
  {
    if More(s[0]) {
      var k :| 0 <= k < |s| && !More(s[k]);
      assert !More(s[1..][k - 1]);
      U32Ignores(s[1..], tail, Or(r, Chunk(s[0], sh)), sh + 7);
    }
    assert (s + tail)[1..] == s[1..] + tail;
  }

  /** The walk meets a table section in s and reads its count there. */
  predicate Decided(s: seq<Octet>)
    decreases |s|
  {
    s != [] && Ends(s[1..]) &&
    var (len, rest) := U32(s[1..]);
    if s[0] == TABLE_SECTION then Ends(rest) else len <= |rest| && Decided(rest[len..])
  }

  lemma DecidedLater(s: seq<Octet>, tail: seq<Octet>)
    requires s != [] && Ends(s[1..])
    ensures (s + tail)[0] == s[0] && (s + tail)[1..] == s[1..] + tail && Ends((s + tail)[1..])
    ensures U32((s + tail)[1..]) == (U32(s[1..]).0, U32(s[1..]).1 + tail)
  {
    assert (s + tail)[1..] == s[1..] + tail;
    U32Ignores(s[1..], tail, 0, 0);
    EndsStill(s[1..], tail);
  }

  /** Once the count is read, nothing that follows matters. */
  lemma {:induction false} DecidedIgnoresTheRest(s: seq<Octet>, tail: seq<Octet>)
    requires Decided(s)
    ensures Decided(s + tail) && Walk(s + tail) == Walk(s)
    decreases |s|
  {
    var (len, rest) := U32(s[1..]);
    DecidedLater(s, tail);
    if s[0] == TABLE_SECTION {
      U32Ignores(rest, tail, 0, 0);
      EndsStill(rest, tail);
    } else {
      SkipDecided(s, s + tail, len, rest, tail);
      DecidedIgnoresTheRest(rest[len..], tail);
    }
  }

  lemma SkipDecided(s: seq<Octet>, t: seq<Octet>, len: nat, rest: seq<Octet>, tail: seq<Octet>)
    requires s != [] && t != [] && s[0] == t[0] != TABLE_SECTION && len <= |rest| && Ends(t[1..])
    requires U32(s[1..]) == (len, rest) && U32(t[1..]) == (len, rest + tail)
    ensures Walk(s) == Walk(rest[len..]) && Walk(t) == Walk(rest[len..] + tail)
    ensures Decided(t) <==> Decided(rest[len..] + tail)
  {
    assert (rest + tail)[len..] == rest[len..] + tail;
  }

  lemma EndsStill(s: seq<Octet>, tail: seq<Octet>)
    requires Ends(s)
    ensures Ends(s + tail)
  {
    var k :| 0 <= k < |s| && !More(s[k]);
    assert !More((s + tail)[k]);
  }

  lemma ValidateAt(end: seq<Octet>, bridge: seq<Octet> -> bool)
    ensures Validate(HEADER + end, bridge) == (Walk(end) > 1 || bridge(HEADER + end))
  {
    assert (HEADER + end)[8..] == end;
  }

  /** So wherever the scan reads its count inside a string, by headers well-formed or
      not, validate answers the same for every continuation: true when the count is
      above one, and what the bridge says otherwise. */
  lemma {:induction false} FastPathIgnoresTheRest(s: seq<Octet>, tail: seq<Octet>, bridge: seq<Octet> -> bool)
    requires Decided(s)
    ensures Validate(HEADER + (s + tail), bridge) == (Walk(s) > 1 || bridge(HEADER + (s + tail)))
  {
    DecidedIgnoresTheRest(s, tail);
    ValidateAt(s + tail, bridge);
  }

  // ----- malformed strings it accepts -----------------------------------------------------

  /** A module that defines n tables spells all of them out. */
  lemma {:induction false} LongEnough(sections: seq<Section>)
    requires AllWellFormed(sections) && TablesDefined(sections) > 0
    ensures |Serialised(sections)| >= 3 + 3 * TablesDefined(sections) + if sections[0].Other? then 2 else 0
    decreases |sections|
  {
    if sections[0].Other? {
      LongEnough(sections[1..]);
    }
  }

  /** No choice of sections, widths and contents serialises to these bytes. */
  ghost predicate NoModule(end: seq<Octet>) {
    forall sections :: AllWellFormed(sections) ==> HEADER + Serialised(sections) != HEADER + end
  }

  lemma {:induction false} SerialisedIs(sections: seq<Section>, end: seq<Octet>)
    requires AllWellFormed(sections) && HEADER + Serialised(sections) == HEADER + end
    ensures Serialised(sections) == end && TablesDefined(sections) == Walk(end)
  {
    assert (HEADER + end)[8..] == end && (HEADER + Serialised(sections))[8..] == Serialised(sections);
    WalkSections(sections);
  }

  /** A table section that declares two tables and ends there is no module, yet
      validate accepts it whatever the bridge would say. */
  lemma {:induction false} TruncatedTableAccepted(bridge: seq<Octet> -> bool)
    ensures NoModule([TABLE_SECTION, 1, 2])
    ensures Validate(HEADER + [TABLE_SECTION, 1, 2], bridge)
  {
    var end := [TABLE_SECTION, 1, 2];
    TruncatedTableRead();
    ValidateAt(end, bridge);
    forall sections: seq<Section> | AllWellFormed(sections) ensures HEADER + Serialised(sections) != HEADER + end {
      if HEADER + Serialised(sections) == HEADER + end {
        SerialisedIs(sections, end);
        LongEnough(sections);
      }
    }
  }

  lemma TruncatedTableRead()
    ensures Walk([TABLE_SECTION, 1, 2]) == 2
  {
    WalkStep(TABLE_SECTION, 1, 1, [2]);
    assert [TABLE_SECTION] + (Leb(1, 1) + [2]) == [TABLE_SECTION, 1, 2];
    ReadsBack(2, 1, []);
    assert Leb(2, 1) + [] == [2];
  }

  lemma {:induction false} ShlZero(n: nat)
    ensures Shl(0, n) == 0
  {
    if n > 0 { ShlZero(n - 1); }
  }

  lemma PadRead(s: seq<Octet>, sh: nat)
    ensures U32From([0x80] + s, 0, sh) == U32From(s, 0, sh + 7)
    ensures U32From([0] + s, 0, sh) == (0, s)
  {
    ShlZero(sh % 32);
    assert ([0x80] + s)[1..] == s && ([0] + s)[1..] == s;
  }

  /** The reader takes a zero padded to any number of bytes, also beyond the five that
      the format allows. */
  function Pads(n: nat): seq<Octet> { if n == 0 then [0] else [0x80] + Pads(n - 1) }

  lemma {:induction false} PadsRead(n: nat, s: seq<Octet>, sh: nat)
    ensures U32From(Pads(n) + s, 0, sh) == (0, s)
    decreases n
  {
    if n == 0 {
      PadRead(s, sh);
    } else {
      Regroup([0x80], Pads(n - 1), s);
      PadRead(Pads(n - 1) + s, sh);
      PadsRead(n - 1, s, sh + 7);
    }
  }

  lemma {:induction false} LebEnds(v: nat, k: nat)
    requires Encodable(v, k)
    ensures !More(Leb(v, k)[k - 1])
    decreases k
  {
    if k > 1 { LebEnds(v / 0x80, k - 1); }
  }

  lemma {:induction false} PadsMore(n: nat, i: nat)
    requires i < n
    ensures |Pads(n)| == n + 1 && Pads(n)[i] == 0x80
    decreases n
  {
    if n > 1 { PadsMore(n - 1, if i > 0 then i - 1 else 0); }
  }

  /** A section's size ends within five bytes. */
  lemma SizeEnds(s: Section, rest: seq<Octet>)
    requires s.WellFormed()
    ensures s.width <= |(s.Bytes() + rest)| - 1 && !More((s.Bytes() + rest)[s.width])
  {
    LebEnds(|s.Body()|, s.width);
    HeadApart(s, rest);
  }

  /** An empty section whose size takes n + 1 bytes, then the truncated table section:
      no module for any n from 5 on, and accepted for every n and every bridge. */
  lemma {:induction false} OverlongSizeAccepted(n: nat, bridge: seq<Octet> -> bool)
    requires n >= 5
    ensures NoModule([5] + (Pads(n) + [TABLE_SECTION, 1, 2]))
    ensures Validate(HEADER + ([5] + (Pads(n) + [TABLE_SECTION, 1, 2])), bridge)
  {
    OverlongSizeRead(n);
    ValidateAt([5] + (Pads(n) + [TABLE_SECTION, 1, 2]), bridge);
    OverlongSizeNoModule(n);
  }

  lemma {:induction false} OverlongSizeNoModule(n: nat)
    requires n >= 5
    ensures NoModule([5] + (Pads(n) + [TABLE_SECTION, 1, 2]))
  {
    var end := [5] + (Pads(n) + [TABLE_SECTION, 1, 2]);
    forall sections: seq<Section> | AllWellFormed(sections) ensures HEADER + Serialised(sections) != HEADER + end {
      if HEADER + Serialised(sections) == HEADER + end {
        SerialisedIs(sections, end);
        SizeEnds(sections[0], Serialised(sections[1..]));
        PadsMore(n, sections[0].width - 1);
      }
    }
  }

  lemma {:induction false} OverlongSizeRead(n: nat)
    ensures Walk([5] + (Pads(n) + [TABLE_SECTION, 1, 2])) == 2
  {
    var table: seq<Octet> := [TABLE_SECTION, 1, 2];
    var end := [5] + (Pads(n) + table);
    TruncatedTableRead();
    PadsRead(n, table, 0);
    assert end[1..] == Pads(n) + table;
    assert Walk(end) == Walk(From(table, 0));
  }
}
