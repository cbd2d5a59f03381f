/** The printed form of JSON, character by character, as the format writes it. */
module JsonTexts {
  import opened Optional
  import opened Json
  import C = Canonical
  import D = Decimal
  import F = FinancialStore

  const HEX := "0123456789abcdef"

  lemma ScalarsRead()
    ensures Print(Null) == F.Units("null") && Print(Bool(true)) == F.Units("true") && Print(Bool(false)) == F.Units("false")
  {
  }

  /** The control characters with a letter of their own, the quote and the backslash. */
  function Short(u: Unit): Option<string>
    ensures Short(u).Some? ==> forall i :: 0 <= i < |Short(u).value| ==> Short(u).value[i] < 0x80 as char
  {
    match u
    case 0x22 => Some("\\\"")
    case 0x5C => Some("\\\\")
    case 0x08 => Some("\\b")
    case 0x0C => Some("\\f")
    case 0x0A => Some("\\n")
    case 0x0D => Some("\\r")
    case 0x09 => Some("\\t")
    case _ => None
  }

  lemma HexReads(d: nat)
    requires d < 16
    ensures HexDigit(d) == HEX[d] as int
  {
  }

  /** How one unit of a string is written. */
  lemma EscapesRead(s: Text, i: nat)
    requires i < |s|
    ensures Short(s[i]).Some? ==> EscapeAt(s, i) == F.Units(Short(s[i]).value)
    ensures Short(s[i]).None? && s[i] >= 0x20 && !LoneSurrogate(s, i) ==> EscapeAt(s, i) == [s[i]]
    ensures Short(s[i]).None? && (s[i] < 0x20 || LoneSurrogate(s, i)) ==>
              && |EscapeAt(s, i)| == 6 && EscapeAt(s, i)[0] == '\\' as int && EscapeAt(s, i)[1] == 'u' as int
              && exists a: nat, b: nat, c: nat, d: nat :: HexDigits(a, b, c, d, EscapeAt(s, i)) && ((a * 16 + b) * 16 + c) * 16 + d == s[i]
  {
    if Short(s[i]).None? && (s[i] < 0x20 || LoneSurrogate(s, i)) {
      var a, b, c, d := s[i] / 0x1000, s[i] / 0x100 % 16, s[i] / 16 % 16, s[i] % 16;
      HexReads(a);
      HexReads(b);
      HexReads(c);
      HexReads(d);
      HexValueOf(s[i]);
      hide HexDigit;
      assert HexDigits(a, b, c, d, EscapeAt(s, i));
    }
  }

  lemma HexValueOf(u: Unit)
    ensures (((u / 0x1000) * 16 + u / 0x100 % 16) * 16 + u / 16 % 16) * 16 + u % 16 == u
  {
    assert u / 0x100 == (u / 16) / 16 && u / 0x1000 == (u / 0x100) / 16;
  }

  predicate HexDigits(a: nat, b: nat, c: nat, d: nat, t: Text) {
    && a < 16 && b < 16 && c < 16 && d < 16 && |t| == 6
    && t[2] == HEX[a] as int && t[3] == HEX[b] as int && t[4] == HEX[c] as int && t[5] == HEX[d] as int
  }

  /** Half of a surrogate pair: a high surrogate before a low one, or a low one after a high one. */
  lemma LoneExactly(s: Text, i: nat)
    requires i < |s|
    ensures var high, low := (u: Unit) => 0xD800 <= u < 0xDC00, (u: Unit) => 0xDC00 <= u < 0xE000;
            var paired := (high(s[i]) && i + 1 < |s| && low(s[i + 1])) || (low(s[i]) && i > 0 && high(s[i - 1]));
            LoneSurrogate(s, i) <==> (high(s[i]) || low(s[i])) && !paired
  {
  }

  /** Texts with a separator between them. */
  function Join(texts: seq<Text>, separator: Text): Text {
    if texts == [] then [] else if |texts| == 1 then texts[0] else texts[0] + separator + Join(texts[1..], separator)
  }

  function Printed(items: seq<Json>): seq<Text> {
    seq(|items|, i requires 0 <= i < |items| => Print(items[i]))
  }

  function PrintedEntries(entries: seq<Entry>): seq<Text> {
    seq(|entries|, i requires 0 <= i < |entries| => Quote(entries[i].key) + F.Units(":") + Print(entries[i].value))
  }

  lemma {:induction false} ItemsJoin(items: seq<Json>)
    ensures PrintItems(items) == Join(Printed(items), F.Units(",")) + F.Units("]")
  {
    assert F.Units(",") == [COMMA] && F.Units("]") == [CLOSE_ARRAY];
    hide F.Units;
    if |items| > 1 {
      ItemsJoin(items[1..]);
      assert Printed(items)[1..] == Printed(items[1..]);
    }
  }

  lemma {:induction false} EntriesJoin(entries: seq<Entry>)
    ensures PrintEntries(entries) == Join(PrintedEntries(entries), F.Units(",")) + F.Units("}")
  {
    assert F.Units(",") == [COMMA] && F.Units("}") == [CLOSE_OBJECT] && F.Units(":") == [COLON];
    hide F.Units;
    if |entries| > 1 {
      EntriesJoin(entries[1..]);
      assert PrintedEntries(entries)[1..] == PrintedEntries(entries[1..]);
    }
  }

  /** Arrays and objects as the printer's source writes them: parts joined by commas between brackets. */
  lemma PrintsJoined(items: seq<Json>, entries: seq<Entry>)
    ensures Print(Arr(items)) == F.Units("[") + Join(Printed(items), F.Units(",")) + F.Units("]")
    ensures Print(Obj(entries)) == F.Units("{") + Join(PrintedEntries(entries), F.Units(",")) + F.Units("}")
  {
    ItemsJoin(items);
    EntriesJoin(entries);
    assert F.Units("[") == [OPEN_ARRAY] && F.Units("{") == [OPEN_OBJECT];
    hide F.Units, PrintItems, PrintEntries, Join, Printed, PrintedEntries;
  }

  /** A string is its units, each as written above, between quotes. */
  lemma {:induction false} QuoteReads(s: Text, i: nat)
    requires i <= |s|
    ensures QuoteFrom(s, i) == Join(seq(|s| - i, k requires 0 <= k < |s| - i => EscapeAt(s, i + k)), []) + F.Units("\"")
    decreases |s| - i
  {
    assert F.Units("\"") == [QUOTE];
    hide F.Units, EscapeAt;
    if i < |s| {
      QuoteReads(s, i + 1);
      var parts := seq(|s| - i, k requires 0 <= k < |s| - i => EscapeAt(s, i + k));
      assert parts[1..] == seq(|s| - (i + 1), k requires 0 <= k < |s| - (i + 1) => EscapeAt(s, i + 1 + k));
    }
  }

  // ---- Array indexes ------------------------------------------------------

  lemma {:induction false} DigitsRead(s: string)
    requires D.AllDigits(s)
    ensures C.AllDigits(F.Units(s)) && C.DigitsValue(F.Units(s)) == D.Value(s)
  {
    if s != "" {
      DigitsRead(s[..|s| - 1]);
      assert F.Units(s)[..|s| - 1] == F.Units(s[..|s| - 1]);
    }
  }

  /** The array-index keys are the printed numbers up to 2^32 - 2. */
  lemma IndexKeyExactly(key: Text, n: nat)
    ensures C.IndexKey(key) == Some(n) <==> n <= 4294967294 && key == F.Units(D.Print(n))
  {
    if C.IndexKey(key) == Some(n) {
      var s := seq(|key|, i requires 0 <= i < |key| => key[i] as char);
      assert F.Units(s) == key;
      DigitsRead(s);
      D.CanonicalIsPrinted(s);
    }
    if n <= 4294967294 && key == F.Units(D.Print(n)) {
      DigitsRead(D.Print(n));
      D.PrintDenotes(n);
    }
  }

  /** Property order puts index keys first, by their numbers, and leaves the others as they come. */
  lemma PropertyOrderReads(a: Text, b: Text)
    ensures C.IndexKey(a).Some? && C.IndexKey(b).Some? ==> (C.PropertyLeq(a, b) <==> C.IndexKey(a).value <= C.IndexKey(b).value)
    ensures C.IndexKey(a).Some? && C.IndexKey(b).None? ==> C.PropertyLeq(a, b) && !C.PropertyLeq(b, a)
    ensures C.IndexKey(a).None? && C.IndexKey(b).None? ==> C.PropertyLeq(a, b)
  {
  }
}
