/** JSON values, their printed text, and a parser for the printed form. */
module Json {
  import opened Optional

  /** JavaScript strings are sequences of UTF-16 code units. */
  type Unit = u: int | 0 <= u < 0x1_0000
  type Text = seq<Unit>

  /** Numbers are kept as their printed tokens. */
  datatype Json = Null | Bool(bit: bool) | Num(token: Text) | Str(text: Text) | Arr(items: seq<Json>) | Obj(entries: seq<Entry>)

  datatype Entry = Entry(key: Text, value: Json)

  const QUOTE: Unit := 0x22
  const BACKSLASH: Unit := 0x5C
  const COMMA: Unit := 0x2C
  const COLON: Unit := 0x3A
  const OPEN_ARRAY: Unit := 0x5B
  const CLOSE_ARRAY: Unit := 0x5D
  const OPEN_OBJECT: Unit := 0x7B
  const CLOSE_OBJECT: Unit := 0x7D
  const NULL_TEXT: Text := [0x6E, 0x75, 0x6C, 0x6C]
  const TRUE_TEXT: Text := [0x74, 0x72, 0x75, 0x65]
  const FALSE_TEXT: Text := [0x66, 0x61, 0x6C, 0x73, 0x65]

  /** Digits, signs, the point and the exponent letters (section 6 of RFC 8259). */
  predicate IsNumberUnit(u: Unit) {
    0x30 <= u <= 0x39 || u == 0x2B || u == 0x2D || u == 0x2E || u == 0x45 || u == 0x65
  }

  predicate IsNumberToken(token: Text) {
    token != [] && forall i :: 0 <= i < |token| ==> IsNumberUnit(token[i])
  }

  predicate DistinctKeys(entries: seq<Entry>) {
    forall i, j :: 0 <= i < j < |entries| ==> entries[i].key != entries[j].key
  }

  /** Number tokens are tokens, and no object repeats a key. */
  predicate WellFormed(v: Json) {
    match v
    case Num(token) => IsNumberToken(token)
    case Arr(items) => forall i :: 0 <= i < |items| ==> WellFormed(items[i])
    case Obj(entries) => DistinctKeys(entries) && forall i :: 0 <= i < |entries| ==> WellFormed(entries[i].value)
    case _ => true
  }

  // ---- Printing -----------------------------------------------------------

  function HexDigit(d: nat): Unit
    requires d < 16
  {
    if d < 10 then 0x30 + d else 0x61 + d - 10
  }

  function UnicodeEscape(u: Unit): Text {
    [BACKSLASH, 0x75, HexDigit(u / 0x1000), HexDigit(u / 0x100 % 16), HexDigit(u / 16 % 16), HexDigit(u % 16)]
  }

  /** A surrogate that is not half of a pair. */
  predicate LoneSurrogate(s: Text, i: nat)
    requires i < |s|
  {
    || (0xD800 <= s[i] <= 0xDBFF && !(i + 1 < |s| && 0xDC00 <= s[i + 1] <= 0xDFFF))
    || (0xDC00 <= s[i] <= 0xDFFF && !(i > 0 && 0xD800 <= s[i - 1] <= 0xDBFF))
  }

  /** `JSON.stringify` on one code unit of a string (section 7 of RFC 8259). */
  function EscapeAt(s: Text, i: nat): Text
    requires i < |s|
  {
    if s[i] == QUOTE || s[i] == BACKSLASH then [BACKSLASH, s[i]]
    else if s[i] == 0x08 then [BACKSLASH, 0x62]
    else if s[i] == 0x0C then [BACKSLASH, 0x66]
    else if s[i] == 0x0A then [BACKSLASH, 0x6E]
    else if s[i] == 0x0D then [BACKSLASH, 0x72]
    else if s[i] == 0x09 then [BACKSLASH, 0x74]
    else if s[i] < 0x20 || LoneSurrogate(s, i) then UnicodeEscape(s[i])
    else [s[i]]
  }

  function QuoteFrom(s: Text, i: nat): Text
    requires i <= |s|
    decreases |s| - i
  {
    if i == |s| then [QUOTE] else EscapeAt(s, i) + QuoteFrom(s, i + 1)
  }

  function Quote(s: Text): Text {
    [QUOTE] + QuoteFrom(s, 0)
  }

  /** `JSON.stringify`: entries in the order the object holds them. */
  function Print(v: Json): Text
    decreases v, 1
  {
    match v
    case Null => NULL_TEXT
    case Bool(bit) => if bit then TRUE_TEXT else FALSE_TEXT
    case Num(token) => token
    case Str(text) => Quote(text)
    case Arr(items) => [OPEN_ARRAY] + PrintItems(items)
    case Obj(entries) => [OPEN_OBJECT] + PrintEntries(entries)
  }

  /** Items joined by commas, and the closing bracket. */
  function PrintItems(items: seq<Json>): Text
    decreases items, 0
  {
    if items == [] then [CLOSE_ARRAY]
    else if |items| == 1 then Print(items[0]) + [CLOSE_ARRAY]
    else Print(items[0]) + [COMMA] + PrintItems(items[1..])
  }

  function PrintEntry(entry: Entry): Text
    decreases entry, 2
  {
    Quote(entry.key) + [COLON] + Print(entry.value)
  }

  function PrintEntries(entries: seq<Entry>): Text
    decreases entries, 0
  {
    if entries == [] then [CLOSE_OBJECT]
    else if |entries| == 1 then PrintEntry(entries[0]) + [CLOSE_OBJECT]
    else PrintEntry(entries[0]) + [COMMA] + PrintEntries(entries[1..])
  }

  // ---- Parsing ------------------------------------------------------------

  datatype Parsed<T> = Failure | Parsed(value: T, rest: Text)

  function HexValue(u: Unit): Option<nat> {
    if 0x30 <= u <= 0x39 then Some(u - 0x30)
    else if 0x61 <= u <= 0x66 then Some(u - 0x61 + 10)
    else None
  }

  /** The code unit at the front of a string body, unescaped. */
  function ParseUnit(t: Text): (p: Parsed<Unit>)
    requires t != []
    ensures p.Parsed? ==> |p.rest| < |t|
  {
    if t[0] != BACKSLASH then Parsed(t[0], t[1..])
    else if |t| < 2 then Failure
    else if t[1] == QUOTE || t[1] == BACKSLASH then Parsed(t[1], t[2..])
    else if t[1] == 0x62 then Parsed(0x08, t[2..])
    else if t[1] == 0x66 then Parsed(0x0C, t[2..])
    else if t[1] == 0x6E then Parsed(0x0A, t[2..])
    else if t[1] == 0x72 then Parsed(0x0D, t[2..])
    else if t[1] == 0x74 then Parsed(0x09, t[2..])
    else if t[1] == 0x75 && |t| >= 6 && HexValue(t[2]).Some? && HexValue(t[3]).Some? && HexValue(t[4]).Some? && HexValue(t[5]).Some? then
      Parsed(HexValue(t[2]).value * 0x1000 + HexValue(t[3]).value * 0x100 + HexValue(t[4]).value * 16 + HexValue(t[5]).value, t[6..])
    else Failure
  }

  /** A string body up to its closing quote. */
  function ParseString(t: Text): (p: Parsed<Text>)
    ensures p.Parsed? ==> |p.rest| < |t|
    decreases |t|
  {
    if t == [] then Failure
    else if t[0] == QUOTE then Parsed([], t[1..])
    else
      var first := ParseUnit(t);
      if first.Failure? then Failure else
        var more := ParseString(first.rest);
        if more.Failure? then Failure else Parsed([first.value] + more.value, more.rest)
  }

  function NumberPrefix(t: Text): (n: nat)
    ensures n <= |t|
  {
    if t == [] || !IsNumberUnit(t[0]) then 0 else 1 + NumberPrefix(t[1..])
  }

  predicate StartsWith(t: Text, prefix: Text) {
    |prefix| <= |t| && t[..|prefix|] == prefix
  }

  function ParseValue(t: Text): (p: Parsed<Json>)
    ensures p.Parsed? ==> |p.rest| < |t|
    decreases |t|, 2
  {
    if t == [] then Failure
    else if t[0] == QUOTE then
      var s := ParseString(t[1..]);
      if s.Failure? then Failure else Parsed(Str(s.value), s.rest)
    else if t[0] == OPEN_ARRAY then
      var a := ParseItems(t[1..]);
      if a.Failure? then Failure else Parsed(Arr(a.value), a.rest)
    else if t[0] == OPEN_OBJECT then
      var o := ParseEntries(t[1..]);
      if o.Failure? then Failure else Parsed(Obj(o.value), o.rest)
    else if StartsWith(t, NULL_TEXT) then Parsed(Null, t[4..])
    else if StartsWith(t, TRUE_TEXT) then Parsed(Bool(true), t[4..])
    else if StartsWith(t, FALSE_TEXT) then Parsed(Bool(false), t[5..])
    else
      var n := NumberPrefix(t);
      if n == 0 then Failure else Parsed(Num(t[..n]), t[n..])
  }

  function ParseItems(t: Text): (p: Parsed<seq<Json>>)
    ensures p.Parsed? ==> |p.rest| < |t|
    decreases |t|, 3
  {
    if t == [] then Failure
    else if t[0] == CLOSE_ARRAY then Parsed([], t[1..])
    else
      var first := ParseValue(t);
      if first.Failure? || first.rest == [] then Failure
      else if first.rest[0] == CLOSE_ARRAY then Parsed([first.value], first.rest[1..])
      else if first.rest[0] != COMMA then Failure
      else
        var more := ParseItems(first.rest[1..]);
        if more.Failure? then Failure else Parsed([first.value] + more.value, more.rest)
  }

  function ParseEntry(t: Text): (p: Parsed<Entry>)
    ensures p.Parsed? ==> |p.rest| < |t|
    decreases |t|, 2
  {
    if t == [] || t[0] != QUOTE then Failure else
      var key := ParseString(t[1..]);
      if key.Failure? || key.rest == [] || key.rest[0] != COLON then Failure else
        var value := ParseValue(key.rest[1..]);
        if value.Failure? then Failure else Parsed(Entry(key.value, value.value), value.rest)
  }

  function ParseEntries(t: Text): (p: Parsed<seq<Entry>>)
    ensures p.Parsed? ==> |p.rest| < |t|
    decreases |t|, 3
  {
    if t == [] then Failure
    else if t[0] == CLOSE_OBJECT then Parsed([], t[1..])
    else
      var first := ParseEntry(t);
      if first.Failure? || first.rest == [] then Failure
      else if first.rest[0] == CLOSE_OBJECT then Parsed([first.value], first.rest[1..])
      else if first.rest[0] != COMMA then Failure
      else
        var more := ParseEntries(first.rest[1..]);
        if more.Failure? then Failure else Parsed([first.value] + more.value, more.rest)
  }

  // ---- Printing, then parsing ---------------------------------------------

  lemma HexRoundTrip(d: nat)
    requires d < 16
    ensures HexValue(HexDigit(d)) == Some(d)
  {
  }

  lemma HexRecomposes(u: int)
    requires 0 <= u < 0x1_0000
    ensures u / 0x1000 * 0x1000 + u / 0x100 % 16 * 0x100 + u / 16 % 16 * 16 + u % 16 == u
  {
    assert u / 0x100 == u / 0x1000 * 16 + u / 0x100 % 16;
    assert u / 16 == u / 0x100 * 16 + u / 16 % 16;
  }

  lemma UnicodeRoundTrip(u: Unit, rest: Text)
    ensures ParseUnit(UnicodeEscape(u) + rest) == Parsed(u, rest)
  {
    HexRoundTrip(u / 0x1000);
    HexRoundTrip(u / 0x100 % 16);
    HexRoundTrip(u / 16 % 16);
    HexRoundTrip(u % 16);
    HexRecomposes(u);
    hide HexDigit, HexValue;
    var t := UnicodeEscape(u) + rest;
    assert t[6..] == rest;
  }

  lemma UnitRoundTrip(s: Text, i: nat, rest: Text)
    requires i < |s|
    ensures EscapeAt(s, i) != [] && EscapeAt(s, i)[0] != QUOTE
    ensures ParseUnit(EscapeAt(s, i) + rest) == Parsed(s[i], rest)
  {
    var e := EscapeAt(s, i);
    var t := e + rest;
    if s[i] != QUOTE && s[i] != BACKSLASH && s[i] !in {0x08, 0x0C, 0x0A, 0x0D, 0x09} && (s[i] < 0x20 || LoneSurrogate(s, i)) {
      hide ParseUnit, LoneSurrogate;
      UnicodeRoundTrip(s[i], rest);
    } else {
      assert |e| <= 2 && t[|e|..] == rest && t[0] == e[0] && (|e| == 2 ==> t[1] == e[1]);
      hide HexValue, UnicodeEscape;
    }
  }

  lemma {:induction false} StringRoundTrip(s: Text, i: nat, rest: Text)
    requires i <= |s|
    ensures ParseString(QuoteFrom(s, i) + rest) == Parsed(s[i..], rest)
    decreases |s| - i
  {
    hide EscapeAt, ParseUnit;
    if i == |s| {
      assert ([QUOTE] + rest)[1..] == rest;
    } else {
      var tail := QuoteFrom(s, i + 1) + rest;
      StringRoundTrip(s, i + 1, rest);
      UnitRoundTrip(s, i, tail);
      assert QuoteFrom(s, i) + rest == EscapeAt(s, i) + tail;
      hide QuoteFrom;
      ParseStringStep(EscapeAt(s, i) + tail, s[i], tail, s[i + 1..], rest);
      assert s[i..] == [s[i]] + s[i + 1..];
    }
  }

  lemma ParseStringStep(t: Text, u: Unit, tail: Text, more: Text, rest: Text)
    requires t != [] && t[0] != QUOTE
    requires ParseUnit(t) == Parsed(u, tail) && ParseString(tail) == Parsed(more, rest)
    ensures ParseString(t) == Parsed([u] + more, rest)
  {
    hide ParseUnit;
  }

  /** What may follow a printed value: anything that does not continue a number. */
  predicate Delimits(rest: Text) {
    rest == [] || !IsNumberUnit(rest[0])
  }

  lemma {:induction false} NumberPrefixExact(token: Text, rest: Text)
    requires (forall i :: 0 <= i < |token| ==> IsNumberUnit(token[i])) && Delimits(rest)
    ensures NumberPrefix(token + rest) == |token|
  {
    if token == [] {
      assert token + rest == rest;
    } else {
      assert (token + rest)[1..] == token[1..] + rest;
      NumberPrefixExact(token[1..], rest);
    }
  }

  lemma FirstUnit(v: Json)
    requires WellFormed(v)
    ensures Print(v) != [] && Print(v)[0] != CLOSE_ARRAY && Print(v)[0] != CLOSE_OBJECT
  {
  }

  lemma ParseStep(t: Text, rest: Text)
    ensures forall items :: ParseItems(t) == Parsed(items, rest) ==> ParseValue([OPEN_ARRAY] + t) == Parsed(Arr(items), rest)
    ensures forall entries :: ParseEntries(t) == Parsed(entries, rest) ==> ParseValue([OPEN_OBJECT] + t) == Parsed(Obj(entries), rest)
    ensures forall text :: ParseString(t) == Parsed(text, rest) ==> ParseValue([QUOTE] + t) == Parsed(Str(text), rest)
  {
    assert ([OPEN_ARRAY] + t)[1..] == t && ([OPEN_OBJECT] + t)[1..] == t && ([QUOTE] + t)[1..] == t;
  }

  lemma ParseWord(v: Json, rest: Text)
    requires v.Null? || v.Bool?
    ensures ParseValue(Print(v) + rest) == Parsed(v, rest)
  {
    var t := Print(v) + rest;
    var word := if v.Null? then NULL_TEXT else if v.bit then TRUE_TEXT else FALSE_TEXT;
    assert t[..|word|] == word && t[|word|..] == rest;
    hide ParseItems, ParseEntries, ParseString, NumberPrefix;
  }

  lemma ParseNumber(token: Text, rest: Text)
    requires IsNumberToken(token) && Delimits(rest)
    ensures ParseValue(token + rest) == Parsed(Num(token), rest)
  {
    NumberPrefixExact(token, rest);
    hide ParseItems, ParseEntries, ParseString, NumberPrefix;
    var t := token + rest;
    assert t[..|token|] == token && t[|token|..] == rest;
    assert IsNumberUnit(t[0]);
  }

  lemma ParseItemsLast(first: Text, v: Json, rest: Text)
    requires first != [] && first[0] != CLOSE_ARRAY
    requires ParseValue(first + ([CLOSE_ARRAY] + rest)) == Parsed(v, [CLOSE_ARRAY] + rest)
    ensures ParseItems(first + ([CLOSE_ARRAY] + rest)) == Parsed([v], rest)
  {
    hide ParseValue;
    assert ([CLOSE_ARRAY] + rest)[1..] == rest;
  }

  lemma ParseItemsMore(first: Text, v: Json, tail: Text, more: seq<Json>, rest: Text)
    requires first != [] && first[0] != CLOSE_ARRAY
    requires ParseValue(first + ([COMMA] + tail)) == Parsed(v, [COMMA] + tail) && ParseItems(tail) == Parsed(more, rest)
    ensures ParseItems(first + ([COMMA] + tail)) == Parsed([v] + more, rest)
  {
    hide ParseValue;
    assert ([COMMA] + tail)[1..] == tail;
  }

  lemma ParseEntriesLast(first: Text, e: Entry, rest: Text)
    requires first != [] && first[0] != CLOSE_OBJECT
    requires ParseEntry(first + ([CLOSE_OBJECT] + rest)) == Parsed(e, [CLOSE_OBJECT] + rest)
    ensures ParseEntries(first + ([CLOSE_OBJECT] + rest)) == Parsed([e], rest)
  {
    hide ParseEntry;
    assert ([CLOSE_OBJECT] + rest)[1..] == rest;
  }

  lemma ParseEntriesMore(first: Text, e: Entry, tail: Text, more: seq<Entry>, rest: Text)
    requires first != [] && first[0] != CLOSE_OBJECT
    requires ParseEntry(first + ([COMMA] + tail)) == Parsed(e, [COMMA] + tail) && ParseEntries(tail) == Parsed(more, rest)
    ensures ParseEntries(first + ([COMMA] + tail)) == Parsed([e] + more, rest)
  {
    hide ParseEntry;
    assert ([COMMA] + tail)[1..] == tail;
  }

  lemma EntryFirstUnit(entry: Entry)
    ensures PrintEntry(entry) != [] && PrintEntry(entry)[0] == QUOTE
  {
    hide Print, QuoteFrom;
  }

  /** Parsing the printed text of a value gives the value back, whatever delimiter follows. */
  lemma {:induction false} RoundTrip(v: Json, rest: Text)
    requires WellFormed(v) && Delimits(rest)
    ensures ParseValue(Print(v) + rest) == Parsed(v, rest)
    decreases v, 1
  {
    hide ParseValue, ParseItems, ParseEntries, ParseString, PrintItems, PrintEntries, QuoteFrom;
    match v
    case Str(text) =>
      StringRoundTrip(text, 0, rest);
      ParseStep(QuoteFrom(text, 0) + rest, rest);
      assert Print(v) + rest == [QUOTE] + (QuoteFrom(text, 0) + rest);
      assert text[0..] == text;
    case Arr(items) =>
      ItemsRoundTrip(items, rest);
      ParseStep(PrintItems(items) + rest, rest);
      assert Print(v) + rest == [OPEN_ARRAY] + (PrintItems(items) + rest);
    case Obj(entries) =>
      EntriesRoundTrip(entries, rest);
      ParseStep(PrintEntries(entries) + rest, rest);
      assert Print(v) + rest == [OPEN_OBJECT] + (PrintEntries(entries) + rest);
    case Num(token) =>
      ParseNumber(token, rest);
    case _ =>
      ParseWord(v, rest);
  }

  lemma PrintItemsSplit(items: seq<Json>, rest: Text)
    requires items != []
    ensures PrintItems(items) + rest ==
            Print(items[0]) + if |items| == 1 then [CLOSE_ARRAY] + rest else [COMMA] + (PrintItems(items[1..]) + rest)
  {
    hide Print;
  }

  lemma PrintEntriesSplit(entries: seq<Entry>, rest: Text)
    requires entries != []
    ensures PrintEntries(entries) + rest ==
            PrintEntry(entries[0]) + if |entries| == 1 then [CLOSE_OBJECT] + rest else [COMMA] + (PrintEntries(entries[1..]) + rest)
  {
    hide PrintEntry;
  }

  lemma {:induction false} ItemsRoundTrip(items: seq<Json>, rest: Text)
    requires forall i :: 0 <= i < |items| ==> WellFormed(items[i])
    ensures ParseItems(PrintItems(items) + rest) == Parsed(items, rest)
    decreases items, 0
  {
    if items == [] {
      assert ([CLOSE_ARRAY] + rest)[1..] == rest;
    } else {
      FirstUnit(items[0]);
      hide ParseValue, ParseItems, Print, PrintItems, WellFormed;
      PrintItemsSplit(items, rest);
      var first := Print(items[0]);
      if |items| == 1 {
        RoundTrip(items[0], [CLOSE_ARRAY] + rest);
        ParseItemsLast(first, items[0], rest);
        assert items == [items[0]];
      } else {
        var tail := PrintItems(items[1..]) + rest;
        RoundTrip(items[0], [COMMA] + tail);
        ItemsRoundTrip(items[1..], rest);
        ParseItemsMore(first, items[0], tail, items[1..], rest);
        assert items == [items[0]] + items[1..];
      }
    }
  }

  lemma {:induction false} EntryRoundTrip(entry: Entry, rest: Text)
    requires WellFormed(entry.value) && Delimits(rest)
    ensures ParseEntry(PrintEntry(entry) + rest) == Parsed(entry, rest)
    decreases entry, 2
  {
    hide ParseValue, ParseString, Print, QuoteFrom;
    var t := PrintEntry(entry) + rest;
    var tail := [COLON] + (Print(entry.value) + rest);
    assert t[1..] == QuoteFrom(entry.key, 0) + tail;
    StringRoundTrip(entry.key, 0, tail);
    assert entry.key[0..] == entry.key;
    assert tail[1..] == Print(entry.value) + rest;
    RoundTrip(entry.value, rest);
  }

  lemma {:induction false} EntriesRoundTrip(entries: seq<Entry>, rest: Text)
    requires forall i :: 0 <= i < |entries| ==> WellFormed(entries[i].value)
    ensures ParseEntries(PrintEntries(entries) + rest) == Parsed(entries, rest)
    decreases entries, 0
  {
    if entries == [] {
      assert ([CLOSE_OBJECT] + rest)[1..] == rest;
    } else {
      hide ParseEntry, ParseEntries, PrintEntry, PrintEntries, WellFormed, ParseValue, Print;
      EntryFirstUnit(entries[0]);
      PrintEntriesSplit(entries, rest);
      var first, others := PrintEntry(entries[0]), entries[1..];
      assert entries == [entries[0]] + others;
      if |entries| == 1 {
        EntryRoundTrip(entries[0], [CLOSE_OBJECT] + rest);
        ParseEntriesLast(first, entries[0], rest);
        assert entries == [entries[0]];
      } else {
        var tail := PrintEntries(others) + rest;
        EntryRoundTrip(entries[0], [COMMA] + tail);
        EntriesRoundTrip(others, rest);
        ParseEntriesMore(first, entries[0], tail, others, rest);
      }
    }
  }

  /** The printed text determines the value, entry order included. */
  lemma PrintInjective(v: Json, w: Json)
    requires WellFormed(v) && WellFormed(w) && Print(v) == Print(w)
    ensures v == w
  {
    RoundTrip(v, []);
    RoundTrip(w, []);
    assert Print(v) + [] == Print(v) && Print(w) + [] == Print(w);
  }
}
