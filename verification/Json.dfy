/**
 * The text of JSON values: what `JSON.stringify` prints for a normalised value (ECMA-262,
 * section 25.5.2), and a reader of that text after RFC 8259. Text is a sequence of UTF-16
 * code units, as a JavaScript string is; a number is the token it prints as.
 */
module Json {
  import opened Common

  datatype Json =
    | JNull
    | JBool(b: bool)
    | JNumber(token: Text)
    | JString(s: Text)
    | JArray(items: seq<Json>)
    | JObject(members: seq<Entry>)

  datatype Entry = Entry(key: Text, value: Json)

  const NULL: Text := [110, 117, 108, 108]
  const TRUE: Text := [116, 114, 117, 101]
  const FALSE: Text := [102, 97, 108, 115, 101]
  const QUOTE: Unit := 34
  const BACKSLASH: Unit := 92
  const COMMA: Unit := 44
  const COLON: Unit := 58

  /** Digits, signs, the point and the exponent mark: what a number token consists of. */
  predicate NumberUnit(u: Unit) {
    48 <= u <= 57 || u == 43 || u == 45 || u == 46 || u == 69 || u == 101
  }

  predicate NumberToken(t: Text) {
    t != [] && (48 <= t[0] <= 57 || t[0] == 45) && forall i :: 0 <= i < |t| ==> NumberUnit(t[i])
  }

  predicate Valid(j: Json) {
    match j
    case JNumber(token) => NumberToken(token)
    case JArray(items) => forall i :: 0 <= i < |items| ==> Valid(items[i])
    case JObject(members) => forall i :: 0 <= i < |members| ==> Valid(members[i].value)
    case _ => true
  }

  // ----------------------------------------------------------------- printing

  predicate Lead(u: Unit) {
    0xD800 <= u < 0xDC00
  }

  predicate Trail(u: Unit) {
    0xDC00 <= u < 0xE000
  }

  function HexDigit(n: int): Unit
    requires 0 <= n < 16
  {
    if n < 10 then 48 + n else 87 + n
  }

  /** Four hexadecimal digits, two for each byte. */
  function Hex(u: Unit): (digits: Text)
    ensures |digits| == 4
  {
    [HexDigit(u / 256 / 16), HexDigit(u / 256 % 16), HexDigit(u % 256 / 16), HexDigit(u % 256 % 16)]
  }

  function UnicodeEscape(u: Unit): Text {
    [BACKSLASH, 117] + Hex(u)
  }

  /** One code unit inside quotes. */
  function Escaped(u: Unit): Text {
    if u == 8 then [BACKSLASH, 98]
    else if u == 9 then [BACKSLASH, 116]
    else if u == 10 then [BACKSLASH, 110]
    else if u == 12 then [BACKSLASH, 102]
    else if u == 13 then [BACKSLASH, 114]
    else if u == QUOTE then [BACKSLASH, QUOTE]
    else if u == BACKSLASH then [BACKSLASH, BACKSLASH]
    else if u < 32 || Lead(u) || Trail(u) then UnicodeEscape(u)
    else [u]
  }

  /** A surrogate pair stands for itself; a lone surrogate is escaped. */
  function EscapedAll(s: Text): Text {
    if s == [] then []
    else if Lead(s[0]) && |s| > 1 && Trail(s[1]) then [s[0], s[1]] + EscapedAll(s[2..])
    else Escaped(s[0]) + EscapedAll(s[1..])
  }

  function Quoted(s: Text): Text {
    [QUOTE] + EscapedAll(s) + [QUOTE]
  }

  function Print(j: Json): (t: Text)
    decreases j, 0
  {
    match j
    case JNull => NULL
    case JBool(b) => if b then TRUE else FALSE
    case JNumber(token) => token
    case JString(s) => Quoted(s)
    case JArray(items) => [91] + PrintItems(items) + [93]
    case JObject(members) => [123] + PrintMembers(members) + [125]
  }

  function PrintItems(items: seq<Json>): Text
    decreases items, 1
  {
    if items == [] then []
    else if |items| == 1 then Print(items[0])
    else Print(items[0]) + [COMMA] + PrintItems(items[1..])
  }

  function PrintEntry(e: Entry): Text
    decreases e, 1
  {
    Quoted(e.key) + [COLON] + Print(e.value)
  }

  function PrintMembers(members: seq<Entry>): Text
    decreases members, 2
  {
    if members == [] then []
    else if |members| == 1 then PrintEntry(members[0])
    else PrintEntry(members[0]) + [COMMA] + PrintMembers(members[1..])
  }

  /** How values are spelled. */
  lemma Spelling()
    ensures Print(JNull) == Ascii("null") && Print(JBool(true)) == Ascii("true")
            && Print(JBool(false)) == Ascii("false")
    ensures Print(JArray([])) == Ascii("[]") && Print(JObject([])) == Ascii("{}")
  {
    assert NULL == Ascii("null") && TRUE == Ascii("true") && FALSE == Ascii("false");
  }

  lemma Punctuation()
    ensures Ascii("[") == [91] && Ascii("]") == [93] && Ascii("{") == [123] && Ascii("}") == [125] && Ascii(",") == [44]
  {
  }

  /** And how they are put together. */
  lemma ArrayOfTwo(a: Json, b: Json)
    ensures Print(JArray([a, b])) == Ascii("[") + Print(a) + Ascii(",") + Print(b) + Ascii("]")
  {
    hide Ascii;
    Punctuation();
    assert [a, b][1..] == [b];
    assert PrintItems([a, b]) == Print(a) + [COMMA] + PrintItems([b]);
  }

  lemma ObjectOfTwo(a: Json, b: Json)
    ensures Print(JObject([Entry(Ascii("x"), a), Entry(Ascii("y"), b)]))
            == Ascii("{") + Ascii("\"x\":") + Print(a) + Ascii(",") + Ascii("\"y\":") + Print(b) + Ascii("}")
  {
    hide Ascii, Quoted;
    Punctuation();
    var x, y := Entry(Ascii("x"), a), Entry(Ascii("y"), b);
    assert [x, y][1..] == [y];
    assert PrintMembers([x, y]) == PrintEntry(x) + [COMMA] + PrintMembers([y]);
    assert PrintEntry(x) == Ascii("\"x\":") + Print(a) by { QuotedKey('x'); }
    assert PrintEntry(y) == Ascii("\"y\":") + Print(b) by { QuotedKey('y'); }
  }

  lemma QuotedKey(c: char)
    requires 'a' <= c <= 'z'
    ensures Quoted(Ascii([c])) + [COLON] == Ascii(['"', c, '"', ':'])
  {
    assert Ascii([c]) == [c as int];
    assert EscapedAll([c as int]) == Escaped(c as int) + EscapedAll([]);
  }

  /** Which code units are escaped. */
  lemma EscapesExactly(u: Unit)
    ensures Escaped(u) == [u] <==> u >= 32 && u != '"' as int && u != '\\' as int && !(0xD800 <= u < 0xE000)
  {
  }

  /** And how: by a letter where there is one, and else by four hexadecimal digits in lower case. */
  lemma EscapeLetters()
    ensures Escaped('\n' as int) == Ascii("\\n") && Escaped('\t' as int) == Ascii("\\t")
    ensures Escaped('\r' as int) == Ascii("\\r") && Escaped(8) == Ascii("\\b") && Escaped(12) == Ascii("\\f")
  {
  }

  lemma EscapeMarks()
    ensures Escaped('"' as int) == Ascii("\\\"") && Escaped('\\' as int) == Ascii("\\\\")
  {
  }

  lemma EscapeDigits()
    ensures Escaped(0x1f) == Ascii("\\u001f") && Escaped(0xDABC) == Ascii("\\udabc")
  {
  }

  // ------------------------------------------------------------------ reading

  function HexValue(u: Unit): (v: Option<int>)
    ensures v.Some? ==> 0 <= v.value < 16
  {
    if 48 <= u <= 57 then Some(u - 48)
    else if 97 <= u <= 102 then Some(u - 87)
    else if 65 <= u <= 70 then Some(u - 55)
    else None
  }

  function ReadHex(digits: Text): Option<Unit>
    requires |digits| == 4
  {
    var a, b, c, d := HexValue(digits[0]), HexValue(digits[1]), HexValue(digits[2]), HexValue(digits[3]);
    if a.Some? && b.Some? && c.Some? && d.Some?
    then Some(256 * (16 * a.value + b.value) + (16 * c.value + d.value))
    else None
  }

  /** The code unit a backslash and what follows it stand for. */
  function ReadEscape(t: Text): (r: Parsed<Unit>)
    ensures r.Got? ==> |r.rest| < |t|
  {
    if t == [] then Bad
    else if t[0] == 98 then Got(8, t[1..])
    else if t[0] == 116 then Got(9, t[1..])
    else if t[0] == 110 then Got(10, t[1..])
    else if t[0] == 102 then Got(12, t[1..])
    else if t[0] == 114 then Got(13, t[1..])
    else if t[0] == QUOTE || t[0] == BACKSLASH || t[0] == 47 then Got(t[0], t[1..])
    else if t[0] == 117 && |t| >= 5 then
      var u := ReadHex(t[1..5]);
      if u.Some? then Got(u.value, t[5..]) else Bad
    else Bad
  }

  /** Up to and including the closing quote. */
  function ReadChars(t: Text): (r: Parsed<Text>)
    ensures r.Got? ==> |r.rest| < |t|
    decreases |t|
  {
    if t == [] || t[0] < 32 then Bad
    else if t[0] == QUOTE then Got([], t[1..])
    else
      var first := if t[0] == BACKSLASH then ReadEscape(t[1..]) else Got(t[0], t[1..]);
      if first.Bad? then Bad
      else
        match ReadChars(first.rest)
        case Bad => Bad
        case Got(s, rest) => Got([first.value] + s, rest)
  }

  function ReadString(t: Text): (r: Parsed<Text>)
    ensures r.Got? ==> |r.rest| < |t|
  {
    if t == [] || t[0] != QUOTE then Bad else ReadChars(t[1..])
  }

  function NumberLength(t: Text): (n: nat)
    ensures n <= |t| && (forall i :: 0 <= i < n ==> NumberUnit(t[i])) && (n < |t| ==> !NumberUnit(t[n]))
  {
    if t == [] || !NumberUnit(t[0]) then 0 else 1 + NumberLength(t[1..])
  }

  function Expect(t: Text, word: Text, j: Json): (r: Parsed<Json>)
    requires word != []
    ensures r.Got? ==> |r.rest| < |t|
  {
    if word <= t then Got(j, t[|word|..]) else Bad
  }

  function Read(t: Text): (r: Parsed<Json>)
    ensures r.Got? ==> |r.rest| < |t|
    decreases |t|, 0
  {
    if t == [] then Bad
    else if t[0] == 110 then Expect(t, NULL, JNull)
    else if t[0] == 116 then Expect(t, TRUE, JBool(true))
    else if t[0] == 102 then Expect(t, FALSE, JBool(false))
    else if t[0] == QUOTE then
      match ReadString(t)
      case Bad => Bad
      case Got(s, rest) => Got(JString(s), rest)
    else if t[0] == 91 then
      if |t| > 1 && t[1] == 93 then Got(JArray([]), t[2..])
      else
        match ReadItems(t[1..])
        case Bad => Bad
        case Got(items, rest) => Got(JArray(items), rest)
    else if t[0] == 123 then
      if |t| > 1 && t[1] == 125 then Got(JObject([]), t[2..])
      else
        match ReadMembers(t[1..])
        case Bad => Bad
        case Got(members, rest) => Got(JObject(members), rest)
    else if 48 <= t[0] <= 57 || t[0] == 45 then
      var n := NumberLength(t);
      Got(JNumber(t[..n]), t[n..])
    else Bad
  }

  /** One or more values, up to and including the closing bracket. */
  function ReadItems(t: Text): (r: Parsed<seq<Json>>)
    ensures r.Got? ==> |r.rest| < |t|
    decreases |t|, 1
  {
    match Read(t)
    case Bad => Bad
    case Got(item, rest) =>
      if rest == [] then Bad
      else if rest[0] == 93 then Got([item], rest[1..])
      else if rest[0] == COMMA then
        match ReadItems(rest[1..])
        case Bad => Bad
        case Got(items, after) => Got([item] + items, after)
      else Bad
  }

  function ReadEntry(t: Text): (r: Parsed<Entry>)
    ensures r.Got? ==> |r.rest| < |t|
    decreases |t|, 1
  {
    match ReadString(t)
    case Bad => Bad
    case Got(key, rest) =>
      if rest == [] || rest[0] != COLON then Bad
      else
        match Read(rest[1..])
        case Bad => Bad
        case Got(value, after) => Got(Entry(key, value), after)
  }

  function ReadMembers(t: Text): (r: Parsed<seq<Entry>>)
    ensures r.Got? ==> |r.rest| < |t|
    decreases |t|, 2
  {
    match ReadEntry(t)
    case Bad => Bad
    case Got(entry, rest) =>
      if rest == [] then Bad
      else if rest[0] == 125 then Got([entry], rest[1..])
      else if rest[0] == COMMA then
        match ReadMembers(rest[1..])
        case Bad => Bad
        case Got(members, after) => Got([entry] + members, after)
      else Bad
  }

  // --------------------------------------------------------------- round trip

  lemma DigitRead(n: int)
    requires 0 <= n < 16
    ensures HexValue(HexDigit(n)) == Some(n)
  {
  }

  lemma HexRead(u: Unit)
    ensures ReadHex(Hex(u)) == Some(u)
  {
    hide HexValue, HexDigit;
    DigitRead(u / 256 / 16);
    DigitRead(u / 256 % 16);
    DigitRead(u % 256 / 16);
    DigitRead(u % 256 % 16);
  }

  lemma UnicodeRead(u: Unit, rest: Text)
    ensures ReadEscape([117] + Hex(u) + rest) == Got(u, rest)
  {
    hide Hex, ReadHex;
    var t := [117] + Hex(u) + rest;
    HexRead(u);
    assert t[0] == 117 && t[1..5] == Hex(u) && t[5..] == rest;
  }

  lemma EscapeRead(u: Unit, rest: Text)
    requires |Escaped(u)| > 1
    ensures Escaped(u)[0] == BACKSLASH
    ensures ReadEscape(Escaped(u)[1..] + rest) == Got(u, rest)
  {
    hide Hex, ReadHex;
    if |Escaped(u)| == 2 {
      var t := Escaped(u)[1..] + rest;
      assert t[1..] == rest;
    } else {
      assert Escaped(u)[1..] == [117] + Hex(u);
      UnicodeRead(u, rest);
    }
  }

  function Prepended(u: Unit, r: Parsed<Text>): Parsed<Text> {
    match r
    case Bad => Bad
    case Got(s, rest) => Got([u] + s, rest)
  }

  lemma RawRead(u: Unit, tail: Text)
    requires u >= 32 && u != QUOTE && u != BACKSLASH
    ensures ReadChars([u] + tail) == Prepended(u, ReadChars(tail))
  {
    assert ([u] + tail)[1..] == tail;
  }

  lemma EscapedRead(u: Unit, tail: Text)
    ensures ReadChars(Escaped(u) + tail) == Prepended(u, ReadChars(tail))
  {
    hide ReadEscape, ReadChars, Hex;
    if |Escaped(u)| > 1 {
      EscapeReadBack(u, tail);
    } else {
      assert Escaped(u) == [u];
      RawRead(u, tail);
    }
  }

  lemma EscapeReadBack(u: Unit, tail: Text)
    requires |Escaped(u)| > 1
    ensures ReadChars(Escaped(u) + tail) == Prepended(u, ReadChars(tail))
  {
    hide Escaped, ReadEscape;
    EscapeRead(u, tail);
    assert (Escaped(u) + tail)[1..] == Escaped(u)[1..] + tail;
  }

  lemma Reassociated(a: Text, b: Text, c: Text, d: Text)
    ensures a + b + c + d == a + (b + c + d)
  {
  }

  lemma {:induction false} CharsRoundTrip(s: Text, rest: Text)
    ensures ReadChars(EscapedAll(s) + [QUOTE] + rest) == Got(s, rest)
    decreases |s|
  {
    hide ReadChars, Escaped;
    if s == [] {
      assert [] + [QUOTE] + rest == [QUOTE] + rest;
      QuoteRead(rest);
    } else if Lead(s[0]) && |s| > 1 && Trail(s[1]) {
      CharsRoundTrip(s[2..], rest);
      Reassociated([s[0], s[1]], EscapedAll(s[2..]), [QUOTE], rest);
      PairRead(s[0], s[1], EscapedAll(s[2..]) + [QUOTE] + rest);
      assert s == [s[0], s[1]] + s[2..];
    } else {
      CharsRoundTrip(s[1..], rest);
      Reassociated(Escaped(s[0]), EscapedAll(s[1..]), [QUOTE], rest);
      EscapedRead(s[0], EscapedAll(s[1..]) + [QUOTE] + rest);
      assert s == [s[0]] + s[1..];
    }
  }

  lemma PairRead(u: Unit, v: Unit, tail: Text)
    requires Lead(u) && Trail(v)
    ensures ReadChars([u, v] + tail) == match ReadChars(tail) case Bad => Bad case Got(s, rest) => Got([u, v] + s, rest)
  {
    hide ReadChars;
    assert [u, v] + tail == [u] + ([v] + tail);
    RawRead(u, [v] + tail);
    RawRead(v, tail);
    if ReadChars(tail).Got? {
      assert [u] + ([v] + ReadChars(tail).value) == [u, v] + ReadChars(tail).value;
    }
  }

  lemma QuoteRead(rest: Text)
    ensures ReadChars([QUOTE] + rest) == Got([], rest)
  {
    assert ([QUOTE] + rest)[1..] == rest;
  }

  lemma StringRoundTrip(s: Text, rest: Text)
    ensures ReadString(Quoted(s) + rest) == Got(s, rest)
  {
    CharsRoundTrip(s, rest);
    assert (Quoted(s) + rest)[1..] == EscapedAll(s) + [QUOTE] + rest;
  }

  /** Where a printed value may stand: before the end, or before something no number contains. */
  predicate Stops(rest: Text) {
    rest == [] || !NumberUnit(rest[0])
  }

  lemma {:induction false} NumberRead(token: Text, rest: Text)
    requires (forall i :: 0 <= i < |token| ==> NumberUnit(token[i])) && Stops(rest)
    ensures NumberLength(token + rest) == |token|
  {
    if token == [] {
      assert token + rest == rest;
    } else {
      NumberRead(token[1..], rest);
      assert (token + rest)[1..] == token[1..] + rest;
    }
  }

  lemma Stopped(u: Unit, rest: Text)
    requires u in {93, 125, COMMA, COLON}
    ensures Stops([u] + rest)
  {
  }

  lemma ScalarRoundTrip(j: Json, rest: Text)
    requires Valid(j) && Stops(rest) && !j.JArray? && !j.JObject?
    ensures Read(Print(j) + rest) == Got(j, rest)
  {
    hide Quoted, ReadString, NumberLength, Stops;
    var t := Print(j) + rest;
    match j
    case JNull => assert t[4..] == rest;
    case JBool(b) => assert t[if b then 4 else 5..] == rest;
    case JNumber(token) =>
      NumberRead(token, rest);
      assert t[..|token|] == token && t[|token|..] == rest;
    case JString(s) =>
      StringRoundTrip(s, rest);
      assert Quoted(s)[0] == QUOTE by { QuotedStart(s); }
  }

  lemma QuotedStart(s: Text)
    ensures |Quoted(s)| >= 2 && Quoted(s)[0] == QUOTE
  {
  }

  lemma ArrayRead(printed: Text, items: seq<Json>, rest: Text)
    requires items != [] && printed != [] && printed[0] != 93
    requires ReadItems(printed + [93] + rest) == Got(items, rest)
    ensures Read([91] + printed + [93] + rest) == Got(JArray(items), rest)
  {
    hide ReadItems;
    assert ([91] + printed + [93] + rest)[1..] == printed + [93] + rest;
  }

  lemma ObjectRead(printed: Text, members: seq<Entry>, rest: Text)
    requires members != [] && printed != [] && printed[0] != 125
    requires ReadMembers(printed + [125] + rest) == Got(members, rest)
    ensures Read([123] + printed + [125] + rest) == Got(JObject(members), rest)
  {
    hide ReadMembers;
    assert ([123] + printed + [125] + rest)[1..] == printed + [125] + rest;
  }

  lemma EmptyRead(rest: Text)
    ensures Read([91] + [] + [93] + rest) == Got(JArray([]), rest)
    ensures Read([123] + [] + [125] + rest) == Got(JObject([]), rest)
  {
    assert ([91] + [] + [93] + rest)[2..] == rest;
    assert ([123] + [] + [125] + rest)[2..] == rest;
  }

  /** What is printed reads back as itself, whatever follows it. */
  lemma {:induction false} RoundTrip(j: Json, rest: Text)
    requires Valid(j) && Stops(rest)
    ensures Read(Print(j) + rest) == Got(j, rest)
    decreases j, 0
  {
    hide Read, ReadItems, ReadMembers, Stops;
    match j
    case JArray(items) =>
      if items == [] {
        EmptyRead(rest);
      } else {
        ItemsRoundTrip(items, rest);
        ItemsStart(items);
        ArrayRead(PrintItems(items), items, rest);
      }
    case JObject(members) =>
      if members == [] {
        EmptyRead(rest);
      } else {
        MembersRoundTrip(members, rest);
        MembersStart(members);
        ObjectRead(PrintMembers(members), members, rest);
      }
    case _ => ScalarRoundTrip(j, rest);
  }

  lemma MembersStart(members: seq<Entry>)
    requires members != []
    ensures PrintMembers(members) != [] && PrintMembers(members)[0] == QUOTE
  {
    QuotedStart(members[0].key);
  }

  /** A printed value starts with none of the closing brackets. */
  lemma ItemsStart(items: seq<Json>)
    requires items != [] && Valid(items[0])
    ensures PrintItems(items) != [] && PrintItems(items)[0] != 93
  {
    assert Print(items[0]) != [] && Print(items[0])[0] != 93;
  }

  lemma LastItemRead(item: Json, printed: Text, rest: Text)
    requires Read(printed + ([93] + rest)) == Got(item, [93] + rest)
    ensures ReadItems(printed + [93] + rest) == Got([item], rest)
  {
    hide Read;
    assert printed + [93] + rest == printed + ([93] + rest);
    assert ([93] + rest)[1..] == rest;
  }

  lemma NextItemRead(item: Json, printed: Text, items: seq<Json>, tail: Text, rest: Text)
    requires Read(printed + ([COMMA] + tail)) == Got(item, [COMMA] + tail)
    requires ReadItems(tail) == Got(items, rest)
    ensures ReadItems(printed + ([COMMA] + tail)) == Got([item] + items, rest)
  {
    hide Read;
    assert ([COMMA] + tail)[1..] == tail;
  }

  lemma {:induction false} ItemsRoundTrip(items: seq<Json>, rest: Text)
    requires items != [] && forall i :: 0 <= i < |items| ==> Valid(items[i])
    ensures ReadItems(PrintItems(items) + [93] + rest) == Got(items, rest)
    decreases items, 1
  {
    hide Read, ReadItems, Print, Valid, Stops;
    if |items| == 1 {
      Stopped(93, rest);
      RoundTrip(items[0], [93] + rest);
      LastItemRead(items[0], Print(items[0]), rest);
      assert items == [items[0]];
    } else {
      var tail := PrintItems(items[1..]) + [93] + rest;
      Stopped(COMMA, tail);
      RoundTrip(items[0], [COMMA] + tail);
      ItemsRoundTrip(items[1..], rest);
      NextItemRead(items[0], Print(items[0]), items[1..], tail, rest);
      assert PrintItems(items) + [93] + rest == Print(items[0]) + ([COMMA] + tail);
      assert items == [items[0]] + items[1..];
    }
  }

  lemma {:induction false} EntryRoundTrip(e: Entry, rest: Text)
    requires Valid(e.value) && Stops(rest)
    ensures ReadEntry(PrintEntry(e) + rest) == Got(e, rest)
    decreases e, 1
  {
    hide Read, ReadString, Quoted, Print, Stops, Valid;
    var after := [COLON] + Print(e.value) + rest;
    StringRoundTrip(e.key, after);
    assert PrintEntry(e) + rest == Quoted(e.key) + after;
    assert after[1..] == Print(e.value) + rest;
    RoundTrip(e.value, rest);
  }

  lemma LastEntryRead(entry: Entry, printed: Text, rest: Text)
    requires ReadEntry(printed + ([125] + rest)) == Got(entry, [125] + rest)
    ensures ReadMembers(printed + [125] + rest) == Got([entry], rest)
  {
    hide ReadEntry;
    assert printed + [125] + rest == printed + ([125] + rest);
    assert ([125] + rest)[1..] == rest;
  }

  lemma NextEntryRead(entry: Entry, printed: Text, members: seq<Entry>, tail: Text, rest: Text)
    requires ReadEntry(printed + ([COMMA] + tail)) == Got(entry, [COMMA] + tail)
    requires ReadMembers(tail) == Got(members, rest)
    ensures ReadMembers(printed + ([COMMA] + tail)) == Got([entry] + members, rest)
  {
    hide ReadEntry;
    assert ([COMMA] + tail)[1..] == tail;
  }

  lemma {:induction false} MembersRoundTrip(members: seq<Entry>, rest: Text)
    requires members != [] && forall i :: 0 <= i < |members| ==> Valid(members[i].value)
    ensures ReadMembers(PrintMembers(members) + [125] + rest) == Got(members, rest)
    decreases members, 2
  {
    hide ReadEntry, ReadMembers, PrintEntry, Valid, Stops;
    if |members| == 1 {
      Stopped(125, rest);
      EntryRoundTrip(members[0], [125] + rest);
      LastEntryRead(members[0], PrintEntry(members[0]), rest);
      assert members == [members[0]];
    } else {
      var tail := PrintMembers(members[1..]) + [125] + rest;
      Stopped(COMMA, tail);
      EntryRoundTrip(members[0], [COMMA] + tail);
      MembersRoundTrip(members[1..], rest);
      NextEntryRead(members[0], PrintEntry(members[0]), members[1..], tail, rest);
      assert PrintMembers(members) + [125] + rest == PrintEntry(members[0]) + ([COMMA] + tail);
      assert members == [members[0]] + members[1..];
    }
  }

  /** Different values print differently. */
  lemma PrintInjective(a: Json, b: Json)
    requires Valid(a) && Valid(b)
    ensures Print(a) == Print(b) <==> a == b
  {
    RoundTrip(a, []);
    RoundTrip(b, []);
    assert Print(a) + [] == Print(a) && Print(b) + [] == Print(b);
  }
}
