/** The texts a form is made of: query escaping, decimal numbers and boolean words as the
    conversions of utils/index.go give and take them, and splitting at a delimiter. */
module UrlText {
  import opened Options

  type Byte = b: int | 0 <= b < 256
  type Bytes = seq<Byte>

  const AMPERSAND: Byte := 0x26
  const EQUALS: Byte := 0x3d
  const COMMA: Byte := 0x2c
  const MINUS: Byte := 0x2d
  const PLUS: Byte := 0x2b
  const PERCENT: Byte := 0x25
  const BLANK: Byte := 0x20

  // ---------------------------------------------------------------------------
  // Query escaping
  // ---------------------------------------------------------------------------

  predicate IsDigit(c: Byte) {
    0x30 <= c <= 0x39
  }

  predicate Unreserved(c: Byte) {
    IsDigit(c) || 0x41 <= c <= 0x5a || 0x61 <= c <= 0x7a || c == MINUS || c == 0x5f || c == 0x2e || c == 0x7e
  }

  function HexDigit(n: nat): Byte
    requires n < 16
  {
    if n < 10 then 0x30 + n else 0x37 + n
  }

  function FromHex(c: Byte): Option<nat> {
    if IsDigit(c) then Some(c - 0x30)
    else if 0x41 <= c <= 0x46 then Some(c - 0x37)
    else if 0x61 <= c <= 0x66 then Some(c - 0x57)
    else None
  }

  function EscapeByte(c: Byte): Bytes {
    if Unreserved(c) then [c]
    else if c == BLANK then [PLUS]
    else [PERCENT, HexDigit(c / 16), HexDigit(c % 16)]
  }

  /** Letters, digits, hyphen, underscore, dot and tilde stay, a blank becomes a plus, and any
      other byte a percent sign with two hexadecimal digits in capitals. */
  lemma EscapesExactly(c: Byte)
    ensures var ch, hex := c as char, "0123456789ABCDEF";
            EscapeByte(c) ==
            if 'A' <= ch <= 'Z' || 'a' <= ch <= 'z' || '0' <= ch <= '9' || ch in "-_.~" then [c]
            else if ch == ' ' then ['+' as int]
            else ['%' as int, hex[c / 16] as int, hex[c % 16] as int]
  {
    HexDigitIs(c / 16);
    HexDigitIs(c % 16);
  }

  lemma HexDigitIs(n: nat)
    requires n < 16
    ensures HexDigit(n) == "0123456789ABCDEF"[n] as int
  {
    assert n == 0 || n == 1 || n == 2 || n == 3 || n == 4 || n == 5 || n == 6 || n == 7 || n == 8 || n == 9
           || n == 10 || n == 11 || n == 12 || n == 13 || n == 14 || n == 15;
  }

  function Escape(s: Bytes): Bytes {
    if s == [] then [] else EscapeByte(s[0]) + Escape(s[1..])
  }

  function Unescape(s: Bytes): Option<Bytes>
    decreases |s|
  {
    if s == [] then Some([])
    else if s[0] != PERCENT then
      var rest := Unescape(s[1..]);
      if rest.None? then None else Some([if s[0] == PLUS then BLANK else s[0]] + rest.value)
    else if |s| < 3 || FromHex(s[1]).None? || FromHex(s[2]).None? then None
    else
      var rest := Unescape(s[3..]);
      if rest.None? then None else Some([FromHex(s[1]).value * 16 + FromHex(s[2]).value] + rest.value)
  }

  /** A text that cannot be unescaped is taken as it is. */
  function Decode(s: Bytes): Bytes {
    if Unescape(s).Some? then Unescape(s).value else s
  }

  /** Escaping is undone by decoding, for every byte string, and leaves no delimiter. */
  lemma {:induction false} EscapeBack(s: Bytes)
    ensures Unescape(Escape(s)) == Some(s) && Decode(Escape(s)) == s
    ensures AMPERSAND !in Escape(s) && EQUALS !in Escape(s)
    ensures Escape(s) == [] <==> s == []
  {
    if s != [] {
      EscapeBack(s[1..]);
      var e := EscapeByte(s[0]);
      assert e + Escape(s[1..]) == Escape(s);
      if |e| == 3 {
        assert Escape(s)[3..] == Escape(s[1..]);
      } else {
        assert Escape(s)[1..] == Escape(s[1..]);
      }
      assert s == [s[0]] + s[1..];
    }
  }

  // ---------------------------------------------------------------------------
  // Numbers and booleans
  // ---------------------------------------------------------------------------

  function Digits(n: nat): Bytes {
    if n < 10 then [0x30 + n] else Digits(n / 10) + [0x30 + n % 10]
  }

  function FormatInt(n: int): Bytes {
    if n < 0 then [MINUS] + Digits(-n) else Digits(n)
  }

  predicate AllDigits(s: Bytes) {
    forall i :: 0 <= i < |s| ==> IsDigit(s[i])
  }

  function Magnitude(s: Bytes): nat
    requires AllDigits(s)
  {
    if s == [] then 0 else Magnitude(s[..|s| - 1]) * 10 + (s[|s| - 1] - 0x30)
  }

  const TWO_63: int := 0x8000_0000_0000_0000
  const TWO_64: int := 0x1_0000_0000_0000_0000

  /** Digits of a 64-bit number; no sign. */
  function ParseUint(s: Bytes): Option<nat> {
    if s == [] || !AllDigits(s) || Magnitude(s) >= TWO_64 then None else Some(Magnitude(s))
  }

  /** A 64-bit number with an optional sign. */
  function ParseInt(s: Bytes): Option<int> {
    var negative := s != [] && s[0] == MINUS;
    var digits := if negative || (s != [] && s[0] == PLUS) then s[1..] else s;
    if digits == [] || !AllDigits(digits) then None
    else if negative then if Magnitude(digits) > TWO_63 then None else Some(0 - Magnitude(digits))
    else if Magnitude(digits) >= TWO_63 then None else Some(Magnitude(digits))
  }

  lemma {:induction false} DigitsBack(n: nat)
    ensures Digits(n) != [] && AllDigits(Digits(n)) && Magnitude(Digits(n)) == n
  {
    if n < 10 {
      assert Magnitude([]) == 0;
      assert Digits(n)[..0] == [];
    } else {
      DigitsBack(n / 10);
      assert Digits(n)[..|Digits(n)| - 1] == Digits(n / 10);
    }
  }

  lemma NumbersBack(n: int)
    ensures 0 <= n < TWO_64 ==> ParseUint(Digits(n)) == Some(n)
    ensures -TWO_63 <= n < TWO_63 ==> ParseInt(FormatInt(n)) == Some(n)
    ensures FormatInt(n) != [] && (n >= 0 ==> Digits(n) != [])
  {
    if n < 0 {
      DigitsBack(-n);
      assert FormatInt(n)[1..] == Digits(-n);
    } else {
      DigitsBack(n);
      assert IsDigit(Digits(n)[0]);
    }
  }

  const TRUE: Bytes := [0x74, 0x72, 0x75, 0x65]
  const FALSE: Bytes := [0x66, 0x61, 0x6c, 0x73, 0x65]

  /** The words for true are 1, t, T, TRUE, true and True; anything else is false. */
  predicate ToBoolean(s: Bytes) {
    s == [0x31] || s == [0x74] || s == [0x54] || s == [0x54, 0x52, 0x55, 0x45] || s == TRUE
    || s == [0x54, 0x72, 0x75, 0x65]
  }

  /** The bytes as characters. */
  function Chars(s: Bytes): (r: string)
    ensures |r| == |s| && forall i :: 0 <= i < |s| ==> r[i] == s[i] as char
  {
    seq(|s|, i requires 0 <= i < |s| => s[i] as char)
  }

  lemma BooleanWords(s: Bytes)
    ensures Chars(TRUE) == "true" && Chars(FALSE) == "false"
    ensures ToBoolean(s) <==> Chars(s) in ["1", "t", "T", "TRUE", "true", "True"]
  {
    SameChars(s, [0x31]);
    SameChars(s, [0x74]);
    SameChars(s, [0x54]);
    SameChars(s, [0x54, 0x52, 0x55, 0x45]);
    SameChars(s, [0x74, 0x72, 0x75, 0x65]);
    SameChars(s, [0x54, 0x72, 0x75, 0x65]);
    assert Chars([0x31]) == "1" && Chars([0x74]) == "t" && Chars([0x54]) == "T";
    assert Chars([0x54, 0x52, 0x55, 0x45]) == "TRUE" && Chars([0x74, 0x72, 0x75, 0x65]) == "true";
    assert Chars([0x54, 0x72, 0x75, 0x65]) == "True";
  }

  lemma SameChars(s: Bytes, t: Bytes)
    ensures Chars(s) == Chars(t) <==> s == t
  {
    if Chars(s) == Chars(t) {
      forall i | 0 <= i < |s| ensures s[i] == t[i] {
        assert Chars(s)[i] == Chars(t)[i];
      }
    }
  }

  /** Decimal numbers have no leading zero, and a minus sign in front where they are negative. */
  lemma {:induction false} DecimalForm(n: nat)
    ensures n > 0 ==> Digits(n)[0] != 0x30
    ensures n == 0 ==> Chars(Digits(n)) == "0"
    ensures n > 0 ==> Chars(FormatInt(0 - n)) == "-" + Chars(Digits(n))
  {
    if n >= 10 {
      DecimalForm(n / 10);
    }
  }

  // ---------------------------------------------------------------------------
  // Delimiters
  // ---------------------------------------------------------------------------

  function Split(s: Bytes, sep: Byte): (parts: seq<Bytes>)
    ensures parts != []
  {
    if s == [] then [[]]
    else
      var rest := Split(s[1..], sep);
      if s[0] == sep then [[]] + rest else [[s[0]] + rest[0]] + rest[1..]
  }

  function Join(parts: seq<Bytes>, sep: Byte): Bytes {
    if parts == [] then [] else if |parts| == 1 then parts[0] else parts[0] + [sep] + Join(parts[1..], sep)
  }

  lemma {:induction false} SplitWhole(s: Bytes, sep: Byte)
    requires sep !in s
    ensures Split(s, sep) == [s]
  {
    if s != [] {
      SplitWhole(s[1..], sep);
      assert [s[0]] + s[1..] == s;
    }
  }

  lemma {:induction false} SplitFirst(s: Bytes, rest: Bytes, sep: Byte)
    requires sep !in s
    ensures Split(s + [sep] + rest, sep) == [s] + Split(rest, sep)
  {
    var whole := s + [sep] + rest;
    if s == [] {
      assert whole[1..] == rest;
    } else {
      SplitFirst(s[1..], rest, sep);
      assert whole[1..] == s[1..] + [sep] + rest;
      assert [s[0]] + s[1..] == s;
    }
  }

  lemma {:induction false} SplitNoDelimiter(s: Bytes, sep: Byte)
    ensures forall i :: 0 <= i < |Split(s, sep)| ==> sep !in Split(s, sep)[i]
  {
    if s != [] {
      SplitNoDelimiter(s[1..], sep);
      var rest := Split(s[1..], sep);
      forall i | 0 <= i < |Split(s, sep)|
        ensures sep !in Split(s, sep)[i]
      {
        if s[0] == sep {
          assert Split(s, sep)[i] == if i == 0 then [] else rest[i - 1];
        } else {
          assert Split(s, sep)[i] == if i == 0 then [s[0]] + rest[0] else rest[i];
        }
      }
    }
  }

  lemma {:induction false} SplitWithin(s: Bytes, sep: Byte, i: nat, c: Byte)
    requires i < |Split(s, sep)| && c in Split(s, sep)[i]
    ensures c in s
  {
    if s != [] {
      var rest := Split(s[1..], sep);
      if s[0] == sep {
        SplitWithin(s[1..], sep, i - 1, c);
      } else if i > 0 || c in rest[0] {
        assert Split(s, sep)[i] == if i == 0 then [s[0]] + rest[0] else rest[i];
        SplitWithin(s[1..], sep, i, c);
      }
    }
  }

  /** Pieces without the delimiter come back one by one. */
  lemma {:induction false} JoinBack(parts: seq<Bytes>, sep: Byte)
    requires forall i :: 0 <= i < |parts| ==> sep !in parts[i]
    ensures Split(Join(parts, sep), sep) == if parts == [] then [[]] else parts
  {
    if parts == [] {
    } else if |parts| == 1 {
      SplitWhole(parts[0], sep);
    } else {
      JoinBack(parts[1..], sep);
      SplitFirst(parts[0], Join(parts[1..], sep), sep);
    }
  }
}
