/** The manifest's entries as JSON text, a reader for it, and its length. */
module ManifestJson {
  import opened Options
  import opened Utf8
  import opened Digits
  import opened Sequences

  /** A listed file; the size is a 64-bit count. */
  datatype Entry = Entry(path: Text, size: nat)

  function Ascii(s: string): Text { seq(|s|, i requires 0 <= i < |s| => s[i] as int % 128) }

  const QUOTE: Byte := 0x22
  const BACKSLASH: Byte := 0x5C
  const COMMA: Byte := 0x2C

  function HexDigit(d: nat): Byte
    requires d < 16
  {
    if d < 10 then 0x30 + d else 0x61 + (d - 10)
  }

  /** Section 7 of RFC 8259: quotes, backslashes and control characters are escaped, the latter by a letter if
      they have one. */
  function Escaped(b: Byte): Text {
    if b == QUOTE || b == BACKSLASH then [BACKSLASH, b]
    else if b == 0x08 then Ascii("\\b")
    else if b == 0x09 then Ascii("\\t")
    else if b == 0x0A then Ascii("\\n")
    else if b == 0x0C then Ascii("\\f")
    else if b == 0x0D then Ascii("\\r")
    else if b < 0x20 then Ascii("\\u00") + [HexDigit(b / 16), HexDigit(b % 16)]
    else [b]
  }

  function Body(path: Text): Text { if path == [] then [] else Escaped(path[0]) + Body(path[1..]) }

  function Decimal(n: nat): Text { (if n < 10 then [] else Decimal(n / 10)) + [0x30 + n % 10] }

  const OPEN: Text := Ascii("{\"path\":\"")
  const MIDDLE: Text := Ascii(",\"size_bytes\":")
  const CLOSE: Text := Ascii("}")

  function Object(e: Entry): Text { OPEN + Body(e.path) + [QUOTE] + MIDDLE + Decimal(e.size) + CLOSE }

  function Objects(entries: seq<Entry>): Text {
    if entries == [] then []
    else if |entries| == 1 then Object(entries[0])
    else Object(entries[0]) + [COMMA] + Objects(entries[1..])
  }

  function Json(entries: seq<Entry>): Text { Ascii("[") + Objects(entries) + Ascii("]") }

  // Reading

  function HexValue(b: Byte): nat {
    if 0x30 <= b <= 0x39 then b - 0x30
    else if 0x61 <= b <= 0x66 then b - 0x61 + 10
    else if 0x41 <= b <= 0x46 then b - 0x41 + 10
    else 16
  }

  /** What a letter after a backslash stands for. */
  function Unescaped(letter: Byte): Option<Byte> {
    if letter == QUOTE || letter == BACKSLASH || letter == 0x2F then Some(letter)
    else if [letter] == Ascii("b") then Some(0x08)
    else if [letter] == Ascii("t") then Some(0x09)
    else if [letter] == Ascii("n") then Some(0x0A)
    else if [letter] == Ascii("f") then Some(0x0C)
    else if [letter] == Ascii("r") then Some(0x0D)
    else None
  }

  /** One character of a string, and the rest; escapes by number below U+0080 only. */
  function ReadChar(s: Text): (r: Option<(Byte, Text)>)
    ensures r.Some? ==> |r.value.1| < |s|
  {
    if s == [] || s[0] == QUOTE || s[0] < 0x20 then None
    else if s[0] != BACKSLASH then Some((s[0], s[1..]))
    else if |s| >= 2 && Unescaped(s[1]).Some? then Some((Unescaped(s[1]).value, s[2..]))
    else if |s| >= 6 && s[1..4] == Ascii("u00") && HexValue(s[4]) < 8 && HexValue(s[5]) < 16
    then Some((HexValue(s[4]) * 16 + HexValue(s[5]), s[6..]))
    else None
  }

  /** The rest of a string after its opening quote, up to the closing one. */
  function ReadBody(s: Text): (r: Option<(Text, Text)>)
    ensures r.Some? ==> |r.value.1| < |s|
    decreases |s|
  {
    if s != [] && s[0] == QUOTE then Some(([], s[1..]))
    else
      match ReadChar(s)
      case None => None
      case Some(first) =>
        match ReadBody(first.1)
        case None => None
        case Some(more) => Some(([first.0] + more.0, more.1))
  }

  predicate IsDigit(b: Byte) { 0x30 <= b <= 0x39 }

  /** As many digits as there are, after those that make up `n`. */
  function ReadDigits(s: Text, n: nat): (r: (nat, Text))
    ensures |r.1| <= |s|
  {
    if s != [] && IsDigit(s[0]) then ReadDigits(s[1..], n * 10 + (s[0] - 0x30)) else (n, s)
  }

  function After(s: Text, expected: Text): (r: Option<Text>)
    ensures r.Some? ==> |r.value| + |expected| == |s|
  {
    if expected <= s then Some(s[|expected|..]) else None
  }

  function ReadObject(s: Text): (r: Option<(Entry, Text)>)
    ensures r.Some? ==> |r.value.1| < |s|
  {
    match After(s, OPEN)
    case None => None
    case Some(body) =>
      match ReadBody(body)
      case None => None
      case Some(path) =>
        match After(path.1, MIDDLE)
        case None => None
        case Some(number) =>
          if number == [] || !IsDigit(number[0]) then None
          else
            var size := ReadDigits(number, 0);
            match After(size.1, CLOSE)
            case None => None
            case Some(rest) => Some((Entry(path.0, size.0), rest))
  }

  function ReadObjects(s: Text): Option<(seq<Entry>, Text)>
    decreases |s|
  {
    match ReadObject(s)
    case None => None
    case Some(first) =>
      if first.1 == [] || first.1[0] != COMMA then Some(([first.0], first.1))
      else
        match ReadObjects(first.1[1..])
        case None => None
        case Some(more) => Some(([first.0] + more.0, more.1))
  }

  function ReadJson(s: Text): Option<seq<Entry>> {
    match After(s, Ascii("["))
    case None => None
    case Some(inner) =>
      if inner == Ascii("]") then Some([])
      else
        match ReadObjects(inner)
        case None => None
        case Some(read) => if read.1 == Ascii("]") then Some(read.0) else None
  }

  lemma Ascii1(c: char)
    requires c as int < 128
    ensures Ascii([c]) == [c as int]
  {
  }

  lemma EscapedReads(b: Byte, rest: Text)
    ensures ReadChar(Escaped(b) + rest) == Some((b, rest))
    ensures Escaped(b) != [] && Escaped(b)[0] != QUOTE
  {
    Ascii1('b'); Ascii1('t'); Ascii1('n'); Ascii1('f'); Ascii1('r');
    var s := Escaped(b) + rest;
    if Escaped(b) == [b] {
      assert s[1..] == rest;
    } else if |Escaped(b)| == 2 {
      assert s[2..] == rest;
    } else {
      assert s[1..4] == Ascii("u00");
      assert s[6..] == rest;
    }
  }

  lemma CharThenBody(b: Byte, more: Text, path: Text, rest: Text)
    requires ReadBody(more) == Some((path, rest))
    ensures ReadBody(Escaped(b) + more) == Some(([b] + path, rest))
  {
    EscapedReads(b, more);
  }

  lemma {:induction false} BodyReads(path: Text, rest: Text)
    ensures ReadBody(Body(path) + [QUOTE] + rest) == Some((path, rest))
  {
    var s := Body(path) + [QUOTE] + rest;
    if path == [] {
      assert s == [QUOTE] + rest;
    } else {
      var more := Body(path[1..]) + [QUOTE] + rest;
      assert s == Escaped(path[0]) + more;
      BodyReads(path[1..], rest);
      CharThenBody(path[0], more, path[1..], rest);
      assert path == [path[0]] + path[1..];
    }
  }

  lemma {:induction false} DecimalReads(n: nat, tail: Text)
    ensures ReadDigits(Decimal(n) + tail, 0) == ReadDigits(tail, n)
  {
    var d := n % 10;
    var last: Text := [0x30 + d];
    if n < 10 {
      assert Decimal(n) + tail == last + tail;
    } else {
      assert Decimal(n) + tail == Decimal(n / 10) + (last + tail);
      DecimalReads(n / 10, last + tail);
    }
    assert (last + tail)[1..] == tail;
  }

  lemma {:induction false} DecimalIsDigits(n: nat)
    ensures Decimal(n) != [] && IsDigit(Decimal(n)[0]) && |Decimal(n)| == DigitCount(n, 10)
  {
    if n >= 10 {
      DecimalIsDigits(n / 10);
    }
  }

  lemma AfterIs(expected: Text, rest: Text)
    ensures After(expected + rest, expected) == Some(rest)
  {
    assert (expected + rest)[|expected|..] == rest;
  }

  lemma ObjectParts(e: Entry, rest: Text)
    ensures Object(e) + rest == OPEN + (Body(e.path) + [QUOTE] + (MIDDLE + (Decimal(e.size) + (CLOSE + rest))))
  {
  }

  lemma ObjectReads(e: Entry, rest: Text)
    ensures ReadObject(Object(e) + rest) == Some((e, rest))
    ensures Object(e) != []
  {
    var number := Decimal(e.size) + (CLOSE + rest);
    ObjectParts(e, rest);
    AfterIs(OPEN, Body(e.path) + [QUOTE] + (MIDDLE + number));
    BodyReads(e.path, MIDDLE + number);
    AfterIs(MIDDLE, number);
    DecimalReads(e.size, CLOSE + rest);
    DecimalIsDigits(e.size);
    assert !IsDigit((CLOSE + rest)[0]);
    AfterIs(CLOSE, rest);
  }

  lemma LastObject(e: Entry, rest: Text)
    requires rest != [] && rest[0] != COMMA
    ensures ReadObjects(Object(e) + rest) == Some(([e], rest))
  {
    ObjectReads(e, rest);
  }

  lemma NextObject(e: Entry, more: Text, entries: seq<Entry>, rest: Text)
    requires ReadObjects(more) == Some((entries, rest))
    ensures ReadObjects(Object(e) + ([COMMA] + more)) == Some(([e] + entries, rest))
  {
    ObjectReads(e, [COMMA] + more);
    assert ([COMMA] + more)[1..] == more;
  }

  lemma ObjectsCons(entries: seq<Entry>, rest: Text)
    requires |entries| > 1
    ensures Objects(entries) + rest == Object(entries[0]) + ([COMMA] + (Objects(entries[1..]) + rest))
  {
    FourParts(Object(entries[0]), [COMMA], Objects(entries[1..]), rest);
  }

  lemma FourParts(a: Text, b: Text, c: Text, d: Text)
    ensures a + b + c + d == a + (b + (c + d))
  {
  }

  lemma {:induction false} ObjectsRead(entries: seq<Entry>, rest: Text)
    requires entries != [] && rest != [] && rest[0] != COMMA
    ensures ReadObjects(Objects(entries) + rest) == Some((entries, rest))
  {
    if |entries| == 1 {
      LastObject(entries[0], rest);
      assert entries == [entries[0]];
    } else {
      var more := Objects(entries[1..]) + rest;
      ObjectsCons(entries, rest);
      ObjectsRead(entries[1..], rest);
      NextObject(entries[0], more, entries[1..], rest);
      assert entries == [entries[0]] + entries[1..];
    }
  }

  /** Whatever bytes the paths hold, the printed entries are read back. */
  lemma JsonReads(entries: seq<Entry>)
    ensures ReadJson(Json(entries)) == Some(entries)
  {
    var inner := Objects(entries) + Ascii("]");
    assert Json(entries) == Ascii("[") + inner;
    AfterIs(Ascii("["), inner);
    if entries == [] {
      assert inner == Ascii("]");
    } else {
      ObjectsRead(entries, Ascii("]"));
      ObjectsNotEmpty(entries);
      assert |inner| > 1;
    }
  }

  lemma ObjectsNotEmpty(entries: seq<Entry>)
    requires entries != []
    ensures Objects(entries) != []
  {
    ObjectReads(entries[0], []);
  }

  // Length

  function EntriesLength(entries: seq<Entry>): nat {
    if entries == [] then 0 else |Object(entries[0])| + EntriesLength(entries[1..])
  }

  /** Brackets, objects, and a comma between two of them. */
  lemma {:induction false} JsonLengthIs(entries: seq<Entry>)
    ensures |Json(entries)| == 2 + EntriesLength(entries) + if entries == [] then 0 else |entries| - 1
  {
    ObjectsLength(entries);
  }

  lemma {:induction false} ObjectsLength(entries: seq<Entry>)
    ensures |Objects(entries)| == EntriesLength(entries) + if entries == [] then 0 else |entries| - 1
  {
    if entries != [] {
      ObjectsLength(entries[1..]);
    }
  }

  lemma ObjectLength(e: Entry)
    ensures |Object(e)| == |Body(e.path)| + DigitCount(e.size, 10) + 25
  {
    DecimalIsDigits(e.size);
  }
}
