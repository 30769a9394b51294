/** The default cache and single-flight keys: Python's repr of a string and of an int inside an
    f-string, and a parser that reads the request back from the printed key. `printable` is the
    Unicode property behind str.isprintable, which only matters beyond ASCII. */
module PyRepr {
  import opened Prelude

  const TAB: CodePoint := 9
  const NEWLINE: CodePoint := 10
  const RETURN: CodePoint := 13
  const DOUBLE_QUOTE: CodePoint := 34
  const SINGLE_QUOTE: CodePoint := 39
  const MINUS: CodePoint := 45
  const BACKSLASH: CodePoint := 92
  const LETTER_N: CodePoint := 110
  const LETTER_R: CodePoint := 114
  const LETTER_T: CodePoint := 116
  const LETTER_X: CodePoint := 120
  const LOWER_U: CodePoint := 117
  const UPPER_U: CodePoint := 85

  function Ascii(s: string): (r: Str)
    ensures |r| == |s|
  {
    seq(|s|, i requires 0 <= i < |s| => s[i] as int)
  }

  // ---- hexadecimal ----

  function HexDigit(d: nat): (c: CodePoint)
    requires d < 16
  {
    if d < 10 then 48 + d else 87 + d
  }

  function HexValue(c: CodePoint): Option<nat> {
    if 48 <= c <= 57 then Some(c - 48) else if 97 <= c <= 102 then Some(c - 87) else None
  }

  function Hex(n: nat, width: nat): (s: Str)
    ensures |s| == width
  {
    if width == 0 then [] else Hex(n / 16, width - 1) + [HexDigit(n % 16)]
  }

  function Pow16(width: nat): nat {
    if width == 0 then 1 else 16 * Pow16(width - 1)
  }

  function ReadHex(s: Str, width: nat, acc: nat): (r: Option<(nat, Str)>)
    ensures r.Some? ==> |r.value.1| + width == |s|
    decreases width
  {
    if width == 0 then Some((acc, s))
    else if s == [] || HexValue(s[0]).None? then None
    else ReadHex(s[1..], width - 1, acc * 16 + HexValue(s[0]).value)
  }

  lemma {:induction false} ReadHexOfHex(n: nat, width: nat, more: nat, rest: Str)
    requires n < Pow16(width)
    ensures ReadHex(Hex(n, width) + rest, width + more, 0) == ReadHex(rest, more, n)
  {
    if width == 0 {
      assert Hex(n, 0) + rest == rest;
    } else {
      var d := HexDigit(n % 16);
      ReadHexOfHex(n / 16, width - 1, more + 1, [d] + rest);
      assert Hex(n, width) + rest == Hex(n / 16, width - 1) + ([d] + rest);
      assert ([d] + rest)[1..] == rest;
    }
  }

  // ---- string repr ----

  predicate IsQuote(q: CodePoint) {
    q == SINGLE_QUOTE || q == DOUBLE_QUOTE
  }

  function QuoteFor(s: Str): (q: CodePoint) {
    if SINGLE_QUOTE in s && DOUBLE_QUOTE !in s then DOUBLE_QUOTE else SINGLE_QUOTE
  }

  function Escape(printable: CodePoint -> bool, q: CodePoint, c: CodePoint): Str {
    if c == q || c == BACKSLASH then [BACKSLASH, c]
    else if c == TAB then [BACKSLASH, LETTER_T]
    else if c == NEWLINE then [BACKSLASH, LETTER_N]
    else if c == RETURN then [BACKSLASH, LETTER_R]
    else if c < 32 || c == 127 then [BACKSLASH, LETTER_X] + Hex(c, 2)
    else if c < 127 || printable(c) then [c]
    else if c <= 0xff then [BACKSLASH, LETTER_X] + Hex(c, 2)
    else if c <= 0xffff then [BACKSLASH, LOWER_U] + Hex(c, 4)
    else [BACKSLASH, UPPER_U] + Hex(c, 8)
  }

  function EscapeAll(printable: CodePoint -> bool, q: CodePoint, s: Str): Str {
    if s == [] then [] else Escape(printable, q, s[0]) + EscapeAll(printable, q, s[1..])
  }

  function ReprStr(printable: CodePoint -> bool, s: Str): Str {
    var q := QuoteFor(s);
    [q] + EscapeAll(printable, q, s) + [q]
  }

  function AsCodePoint(r: Option<(nat, Str)>): Option<(CodePoint, Str)> {
    if r.Some? && r.value.0 < 0x11_0000 then Some((r.value.0, r.value.1)) else None
  }

  /** One character of a string literal. */
  function ReadChar(s: Str): (r: Option<(CodePoint, Str)>)
    ensures r.Some? ==> |r.value.1| < |s|
  {
    if s == [] then None
    else if s[0] != BACKSLASH then Some((s[0], s[1..]))
    else if |s| < 2 then None
    else if s[1] == BACKSLASH || IsQuote(s[1]) then Some((s[1], s[2..]))
    else if s[1] == LETTER_T then Some((TAB, s[2..]))
    else if s[1] == LETTER_N then Some((NEWLINE, s[2..]))
    else if s[1] == LETTER_R then Some((RETURN, s[2..]))
    else if s[1] == LETTER_X then AsCodePoint(ReadHex(s[2..], 2, 0))
    else if s[1] == LOWER_U then AsCodePoint(ReadHex(s[2..], 4, 0))
    else if s[1] == UPPER_U then AsCodePoint(ReadHex(s[2..], 8, 0))
    else None
  }

  /** The characters up to the closing quote, and what follows it. */
  function ReadBody(q: CodePoint, s: Str): (r: Option<(Str, Str)>)
    decreases |s|
  {
    if s == [] then None
    else if s[0] == q then Some(([], s[1..]))
    else
      var c := ReadChar(s);
      if c.None? then None
      else
        var body := ReadBody(q, c.value.1);
        if body.None? then None else Some(([c.value.0] + body.value.0, body.value.1))
  }

  function ReadStr(s: Str): Option<(Str, Str)> {
    if s == [] || !IsQuote(s[0]) then None else ReadBody(s[0], s[1..])
  }

  lemma ReadEscapedHex(letter: CodePoint, c: CodePoint, width: nat, rest: Str)
    requires c < Pow16(width)
    ensures ReadHex(([BACKSLASH, letter] + Hex(c, width) + rest)[2..], width, 0) == Some((c, rest))
  {
    ReadHexOfHex(c, width, 0, rest);
    assert ([BACKSLASH, letter] + Hex(c, width) + rest)[2..] == Hex(c, width) + rest;
  }

  lemma ReadEscaped(printable: CodePoint -> bool, q: CodePoint, c: CodePoint, rest: Str)
    requires IsQuote(q)
    ensures |Escape(printable, q, c)| >= 1 && Escape(printable, q, c)[0] != q
    ensures ReadChar(Escape(printable, q, c) + rest) == Some((c, rest))
  {
    var e := Escape(printable, q, c);
    var s := e + rest;
    assert Pow16(2) == 0x100 && Pow16(4) == 0x1_0000 && Pow16(8) == 0x1_0000_0000;
    assert |e| == 1 ==> s[1..] == rest;
    assert |e| == 2 ==> s[2..] == rest;
    if |e| > 2 {
      ReadEscapedHex(e[1], c, |e| - 2, rest);
      assert e == [BACKSLASH, e[1]] + Hex(c, |e| - 2);
    }
  }

  lemma {:induction false} ReadEscapedBody(printable: CodePoint -> bool, q: CodePoint, s: Str, rest: Str)
    requires IsQuote(q)
    ensures ReadBody(q, EscapeAll(printable, q, s) + ([q] + rest)) == Some((s, rest))
  {
    if s == [] {
      assert EscapeAll(printable, q, s) + ([q] + rest) == [q] + rest;
    } else {
      var tail := EscapeAll(printable, q, s[1..]) + ([q] + rest);
      ReadEscapedBody(printable, q, s[1..], rest);
      ReadOneMore(printable, q, s[0], s[1..], tail, rest);
      ConcatAssociates(Escape(printable, q, s[0]), EscapeAll(printable, q, s[1..]), [q] + rest);
      assert s == [s[0]] + s[1..];
    }
  }

  lemma ReadOneMore(printable: CodePoint -> bool, q: CodePoint, c: CodePoint, body: Str, tail: Str, rest: Str)
    requires IsQuote(q) && ReadBody(q, tail) == Some((body, rest))
    ensures ReadBody(q, Escape(printable, q, c) + tail) == Some(([c] + body, rest))
  {
    ReadEscaped(printable, q, c, tail);
    var s := Escape(printable, q, c) + tail;
    assert s != [] && s[0] != q;
    assert ReadChar(s) == Some((c, tail));
  }

  lemma ReadReprStr(printable: CodePoint -> bool, s: Str, rest: Str)
    ensures ReadStr(ReprStr(printable, s) + rest) == Some((s, rest))
  {
    var q := QuoteFor(s);
    ReadEscapedBody(printable, q, s, rest);
    Enclosed(q, EscapeAll(printable, q, s), rest);
  }

  lemma Enclosed(q: CodePoint, body: Str, rest: Str)
    ensures var s := [q] + body + [q] + rest; s[0] == q && s[1..] == body + ([q] + rest)
  {
  }

  // ---- int repr ----

  predicate IsDigit(c: CodePoint) {
    48 <= c <= 57
  }

  function Decimal(n: nat): (s: Str)
    ensures s != [] && IsDigit(s[0])
  {
    if n < 10 then [48 + n] else Decimal(n / 10) + [48 + n % 10]
  }

  function ReprInt(n: int): Str {
    if n < 0 then [MINUS] + Decimal(-n) else Decimal(n)
  }

  function ReadDigits(acc: nat, s: Str): (nat, Str)
    decreases |s|
  {
    if s == [] || !IsDigit(s[0]) then (acc, s) else ReadDigits(acc * 10 + (s[0] - 48), s[1..])
  }

  function Signed(sign: int, r: (nat, Str)): (int, Str) {
    (sign * r.0, r.1)
  }

  function ReadInt(s: Str): Option<(int, Str)> {
    if s == [] then None
    else if s[0] == MINUS then Some(Signed(-1, ReadDigits(0, s[1..])))
    else if !IsDigit(s[0]) then None
    else Some(Signed(1, ReadDigits(0, s)))
  }

  lemma {:induction false} ReadDecimal(n: nat, rest: Str)
    ensures ReadDigits(0, Decimal(n) + rest) == ReadDigits(n, rest)
  {
    var d := 48 + n % 10;
    if n < 10 {
      assert (Decimal(n) + rest)[1..] == rest;
    } else {
      ReadDecimal(n / 10, [d] + rest);
      assert Decimal(n) + rest == Decimal(n / 10) + ([d] + rest);
      assert ([d] + rest)[1..] == rest;
    }
  }

  lemma ReadReprInt(n: int, rest: Str)
    requires rest != [] ==> !IsDigit(rest[0])
    ensures ReadInt(ReprInt(n) + rest) == Some((n, rest))
  {
    if n < 0 {
      ReadDecimal(-n, rest);
      assert (ReprInt(n) + rest)[1..] == Decimal(-n) + rest;
    } else {
      ReadDecimal(n, rest);
    }
  }

  // ---- what a text prints as ----

  /** A character that prints as itself in any text. */
  predicate Plain(printable: CodePoint -> bool, c: CodePoint) {
    c >= 32 && c != 127 && c != BACKSLASH && (c < 127 || printable(c))
  }

  lemma {:induction false} EscapesNothing(printable: CodePoint -> bool, q: CodePoint, s: Str)
    requires q !in s && forall i :: 0 <= i < |s| ==> Plain(printable, s[i])
    ensures EscapeAll(printable, q, s) == s
  {
    if s != [] {
      EscapesNothing(printable, q, s[1..]);
      assert Escape(printable, q, s[0]) == [s[0]];
      assert s == [s[0]] + s[1..];
    }
  }

  /** How many characters a character prints as: one when plain, two for a backslash, the quote, a tab
      and the line ends, otherwise the shortest of the three hexadecimal escapes that holds it. */
  lemma EscapeLengths(printable: CodePoint -> bool, q: CodePoint, c: CodePoint)
    requires IsQuote(q)
    ensures |Escape(printable, q, c)| ==
      if c == q || c == BACKSLASH || c == TAB || c == NEWLINE || c == RETURN then 2
      else if Plain(printable, c) then 1
      else if c < 0x100 then 4 else if c < 0x1_0000 then 6 else 10
  {
  }

  /** A text of plain characters prints as itself: between single quotes, unless it holds one and no
      double quote, and then between double quotes. */
  lemma PlainRepr(printable: CodePoint -> bool, s: Str)
    requires forall i :: 0 <= i < |s| ==> Plain(printable, s[i])
    ensures SINGLE_QUOTE !in s ==> ReprStr(printable, s) == [SINGLE_QUOTE] + s + [SINGLE_QUOTE]
    ensures SINGLE_QUOTE in s && DOUBLE_QUOTE !in s ==>
      ReprStr(printable, s) == [DOUBLE_QUOTE] + s + [DOUBLE_QUOTE]
  {
    if QuoteFor(s) !in s {
      EscapesNothing(printable, QuoteFor(s), s);
    }
  }

  // ---- keys ----

  /** The keyword arguments of a search. */
  datatype Request = Request(query: Str, limit: int, offset: int)

  const OPENING := ":search:():{'query': "
  const LIMIT := ", 'limit': "
  const OFFSET := ", 'offset': "

  /** The default key: class name, function name, no positional arguments, then the keyword arguments
      in call order, joined by colons. */
  function Key(printable: CodePoint -> bool, cls: Str, r: Request): Str {
    cls + (Ascii(OPENING) + (ReprStr(printable, r.query) +
      (Ascii(LIMIT) + (ReprInt(r.limit) + (Ascii(OFFSET) + (ReprInt(r.offset) + Ascii("}")))))))
  }

  function Skip(prefix: Str, s: Str): Option<Str> {
    if prefix <= s then Some(s[|prefix|..]) else None
  }

  lemma SkipPrefix(prefix: Str, rest: Str)
    ensures Skip(prefix, prefix + rest) == Some(rest)
  {
  }

  function ParseKey(cls: Str, s: Str): Option<Request> {
    var s1 := Skip(cls, s);
    if s1.None? then None else
    var s2 := Skip(Ascii(OPENING), s1.value);
    if s2.None? then None else
    var query := ReadStr(s2.value);
    if query.None? then None else
    var s3 := Skip(Ascii(LIMIT), query.value.1);
    if s3.None? then None else
    var limit := ReadInt(s3.value);
    if limit.None? then None else
    var s4 := Skip(Ascii(OFFSET), limit.value.1);
    if s4.None? then None else
    var offset := ReadInt(s4.value);
    if offset.None? || offset.value.1 != Ascii("}") then None
    else Some(Request(query.value.0, limit.value.0, offset.value.0))
  }

  /** The printed key determines the request, whatever quotes, colons, commas or braces the query
      contains. */
  lemma ParseOfKey(printable: CodePoint -> bool, cls: Str, r: Request)
    ensures ParseKey(cls, Key(printable, cls, r)) == Some(r)
  {
    var r4 := ReprInt(r.offset) + Ascii("}");
    var r3 := Ascii(OFFSET) + r4;
    var r2 := Ascii(LIMIT) + (ReprInt(r.limit) + r3);
    var r1 := ReprStr(printable, r.query) + r2;
    SkipPrefix(cls, Ascii(OPENING) + r1);
    SkipPrefix(Ascii(OPENING), r1);
    ReadReprStr(printable, r.query, r2);
    SkipPrefix(Ascii(LIMIT), ReprInt(r.limit) + r3);
    assert r3[0] == 44;
    ReadReprInt(r.limit, r3);
    SkipPrefix(Ascii(OFFSET), r4);
    assert Ascii("}")[0] == 125;
    ReadReprInt(r.offset, Ascii("}"));
  }

  lemma KeyInjective(printable: CodePoint -> bool, cls: Str, a: Request, b: Request)
    requires Key(printable, cls, a) == Key(printable, cls, b)
    ensures a == b
  {
    ParseOfKey(printable, cls, a);
    ParseOfKey(printable, cls, b);
  }

  lemma AsciiConcat(a: string, b: string)
    ensures Ascii(a + b) == Ascii(a) + Ascii(b)
  {
  }

  lemma ExampleNumbers()
    ensures ReprInt(100) == Ascii("100") && ReprInt(0) == Ascii("0")
  {
    assert Decimal(1) == [49];
    assert Decimal(10) == [49, 48];
    assert Decimal(100) == [49, 48, 48];
  }

  /** The key of a plain query, in full. */
  lemma KeyExample(printable: CodePoint -> bool, cls: string)
    ensures Key(printable, Ascii(cls), Request(Ascii("dune"), 100, 0))
         == Ascii(cls + (":search:():{'query': " +
                  ("'dune'" + (", 'limit': " + ("100" + (", 'offset': " + ("0" + "}")))))))
  {
    PlainRepr(printable, Ascii("dune"));
    assert ReprStr(printable, Ascii("dune")) == Ascii("'dune'");
    ExampleNumbers();
    AsciiConcat("0", "}");
    AsciiConcat(OFFSET, "0" + "}");
    AsciiConcat("100", OFFSET + ("0" + "}"));
    AsciiConcat(LIMIT, "100" + (OFFSET + ("0" + "}")));
    AsciiConcat("'dune'", LIMIT + ("100" + (OFFSET + ("0" + "}"))));
    AsciiConcat(OPENING, "'dune'" + (LIMIT + ("100" + (OFFSET + ("0" + "}")))));
    AsciiConcat(cls, OPENING + ("'dune'" + (LIMIT + ("100" + (OFFSET + ("0" + "}"))))));
  }
}
