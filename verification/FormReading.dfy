/** What reading makes of any form, whether a client of this code has written it or not
    (unmarshalURLEncode of urlencodeserializer.go, and the conversions of utils/index.go). */
module FormReading {
  import opened Options
  import opened UrlText
  import opened FormCodec
  import FormProofs

  // ---------------------------------------------------------------------------
  // Escapes
  // ---------------------------------------------------------------------------

  /** What an escaped text is made of: a byte that stands for itself, a plus for a blank, and
      two hexadecimal digits behind a percent sign, with the values they spell. */
  datatype Unit = Plain(c: Byte) | Blank | Hex(high: Byte, low: Byte, h: nat, l: nat)

  /** The hexadecimal digit, small or capital, of that value. */
  predicate Spells(c: Byte, n: nat) {
    n < 16 && (c as char == "0123456789abcdef"[n] || c as char == "0123456789ABCDEF"[n])
  }

  predicate IsUnit(u: Unit) {
    match u
    case Plain(c) => c as char != '%' && c as char != '+'
    case Blank => true
    case Hex(high, low, h, l) => Spells(high, h) && Spells(low, l)
  }

  function Spelled(u: Unit): Bytes {
    match u
    case Plain(c) => [c]
    case Blank => ['+' as int]
    case Hex(high, low, _, _) => ['%' as int, high, low]
  }

  function Meant(u: Unit): Byte
    requires IsUnit(u)
  {
    match u
    case Plain(c) => c
    case Blank => ' ' as int
    case Hex(_, _, h, l) => h * 16 + l
  }

  function Text(us: seq<Unit>): Bytes {
    if us == [] then [] else Spelled(us[0]) + Text(us[1..])
  }

  predicate AreUnits(us: seq<Unit>) {
    forall i :: 0 <= i < |us| ==> IsUnit(us[i])
  }

  function Meaning(us: seq<Unit>): Bytes
    requires AreUnits(us)
  {
    if us == [] then [] else [Meant(us[0])] + Meaning(us[1..])
  }

  lemma FromHexIs(c: Byte, n: nat)
    ensures FromHex(c) == Some(n) <==> Spells(c, n)
  {
    if n < 16 {
      assert n == 0 || n == 1 || n == 2 || n == 3 || n == 4 || n == 5 || n == 6 || n == 7 || n == 8 || n == 9
             || n == 10 || n == 11 || n == 12 || n == 13 || n == 14 || n == 15;
    }
  }

  /** The first unit of a text, and the rest of it. */
  lemma FirstUnit(u: Unit, rest: Bytes)
    requires IsUnit(u)
    ensures Unescape(Spelled(u) + rest)
            == if Unescape(rest).None? then None else Some([Meant(u)] + Unescape(rest).value)
  {
    if u.Hex? {
      FromHexIs(u.high, u.h);
      FromHexIs(u.low, u.l);
      FirstHex(u.high, u.low, u.h, u.l, rest);
    } else {
      assert (Spelled(u) + rest)[1..] == rest;
    }
  }

  lemma FirstHex(high: Byte, low: Byte, h: nat, l: nat, rest: Bytes)
    requires FromHex(high) == Some(h) && FromHex(low) == Some(l) && h < 16 && l < 16
    ensures Unescape([PERCENT, high, low] + rest)
            == if Unescape(rest).None? then None else Some([h * 16 + l] + Unescape(rest).value)
  {
    assert ([PERCENT, high, low] + rest)[3..] == rest;
  }

  lemma {:induction false} UnitsRead(us: seq<Unit>)
    requires AreUnits(us)
    ensures Unescape(Text(us)) == Some(Meaning(us))
  {
    if us != [] {
      UnitsRead(us[1..]);
      FirstUnit(us[0], Text(us[1..]));
    }
  }

  lemma {:induction false} UnitsOf(s: Bytes) returns (us: seq<Unit>)
    requires Unescape(s).Some?
    ensures AreUnits(us) && Text(us) == s
    decreases |s|
  {
    if s == [] {
      us := [];
    } else {
      var u := if s[0] != PERCENT then if s[0] == PLUS then Blank else Plain(s[0])
               else Hex(s[1], s[2], FromHex(s[1]).value, FromHex(s[2]).value);
      if u.Hex? {
        FromHexIs(u.high, u.h);
        FromHexIs(u.low, u.l);
      }
      var rest := UnitsOf(s[|Spelled(u)|..]);
      us := [u] + rest;
      assert s == Spelled(u) + s[|Spelled(u)|..];
    }
  }

  /** Reading an escaped text: it succeeds if and only if the text is made of units, and gives
      the bytes they mean; any other text is taken as it is. */
  lemma DecodesExactly(s: Bytes)
    ensures forall us :: AreUnits(us) && Text(us) == s ==> Decode(s) == Meaning(us)
    ensures !(exists us :: AreUnits(us) && Text(us) == s) ==> Decode(s) == s
  {
    forall us | AreUnits(us) && Text(us) == s ensures Decode(s) == Meaning(us) {
      UnitsRead(us);
    }
    if Unescape(s).Some? {
      var us := UnitsOf(s);
    }
  }

  // ---------------------------------------------------------------------------
  // Numbers
  // ---------------------------------------------------------------------------

  function PowerOfTen(n: nat): nat {
    if n == 0 then 1 else 10 * PowerOfTen(n - 1)
  }

  /** Decimal places: a digit in front counts ten times as much for every digit behind it, and
      leading zeros count nothing. */
  lemma {:induction false} FrontDigit(d: Byte, digits: Bytes)
    requires IsDigit(d) && AllDigits(digits)
    ensures AllDigits([d] + digits)
    ensures Magnitude([d] + digits) == (d - '0' as int) * PowerOfTen(|digits|) + Magnitude(digits)
  {
    var s := [d] + digits;
    if digits == [] {
      assert s[..0] == [] && Magnitude(s[..0]) == 0;
    } else {
      var front, last := digits[..|digits| - 1], digits[|digits| - 1];
      FrontDigit(d, front);
      assert s[..|s| - 1] == [d] + front && s[|s| - 1] == last;
      OnePlaceMore(d - '0' as int, PowerOfTen(|front|), Magnitude(front), last - '0' as int);
    }
  }

  lemma OnePlaceMore(c: int, p: int, m: int, last: int)
    ensures (c * p + m) * 10 + last == c * (10 * p) + (m * 10 + last)
  {
  }

  /** The text is a sign, or none, and digits of that number, and the number has 64 bits. */
  predicate SpellsInt(s: Bytes, sign: Bytes, digits: Bytes, n: int) {
    && s == sign + digits && Chars(sign) in ["", "+", "-"] && digits != [] && AllDigits(digits)
    && n == (if Chars(sign) == "-" then 0 - Magnitude(digits) else Magnitude(digits))
    && -9223372036854775808 <= n <= 9223372036854775807
  }

  lemma SignedRead(s: Bytes, sign: Bytes, digits: Bytes, n: int)
    requires SpellsInt(s, sign, digits, n)
    ensures ParseInt(s) == Some(n)
  {
    SameChars(sign, []);
    SameChars(sign, [PLUS]);
    SameChars(sign, [MINUS]);
    assert Chars([PLUS]) == "+" && Chars([MINUS]) == "-" && Chars([]) == "";
    if sign == [] {
      assert s == digits && IsDigit(s[0]);
    } else {
      assert s[1..] == digits;
    }
  }

  /** Which texts are numbers, and which number: those with a sign or none in front of digits,
      for the signed kinds, and those of digits alone, for the unsigned ones. */
  lemma NumbersExactly(s: Bytes, n: int)
    ensures ParseInt(s) == Some(n) <==> exists sign, digits :: SpellsInt(s, sign, digits, n)
    ensures n >= 0 ==> (ParseUint(s) == Some(n) <==> s != [] && AllDigits(s) && Magnitude(s) == n <= 18446744073709551615)
  {
    forall sign, digits | SpellsInt(s, sign, digits, n) ensures ParseInt(s) == Some(n) {
      SignedRead(s, sign, digits, n);
    }
    if ParseInt(s) == Some(n) {
      SignAndDigits(s, n);
    }
  }

  lemma SignAndDigits(s: Bytes, n: int)
    requires ParseInt(s) == Some(n)
    ensures var k := if s[0] == MINUS || s[0] == PLUS then 1 else 0; SpellsInt(s, s[..k], s[k..], n)
  {
    var k := if s[0] == MINUS || s[0] == PLUS then 1 else 0;
    assert Chars(s[..k]) == if k == 0 then "" else [s[0] as char];
    assert s[0..] == s && s == s[..k] + s[k..];
  }

  // ---------------------------------------------------------------------------
  // Fields
  // ---------------------------------------------------------------------------

  /** What a text makes of a field: nothing without one; a number of 64 bits is cut to the width
      of the field, and a text that is no number is an error; any word that does not mean true
      is false; fields of other kinds stay. */
  lemma SetExactly(k: Kind, was: Value, text: Bytes)
    ensures SetField(k, was, None) == Some(was)
    ensures k.IntKind? ==>
              var n, v := ParseInt(text), SetField(k, was, Some(text));
              if n.None? then v == None
              else v.Some? && v.value.Int? && -Half(k.width) <= v.value.n < Half(k.width)
                   && (n.value - v.value.n) % (2 * Half(k.width)) == 0
    ensures k.UintKind? ==>
              var n, v := ParseUint(text), SetField(k, was, Some(text));
              if n.None? then v == None
              else v.Some? && v.value.Uint? && v.value.u < 2 * Half(k.width)
                   && (n.value - v.value.u) % (2 * Half(k.width)) == 0
    ensures k.StringKind? ==> SetField(k, was, Some(text)) == Some(Str(text))
    ensures k.BoolKind? ==>
              SetField(k, was, Some(text)) == Some(Bool(Chars(text) in ["1", "t", "T", "TRUE", "true", "True"]))
    ensures k.OtherKind? ==> SetField(k, was, Some(text)) == Some(was)
  {
    match k
    case IntKind(width) =>
      if ParseInt(text).Some? {
        FormProofs.CutToWidth(ParseInt(text).value, width);
      }
    case UintKind(width) =>
      if ParseUint(text).Some? {
        FormProofs.CutToWidth(ParseUint(text).value, width);
      }
    case BoolKind => BooleanWords(text);
    case _ =>
  }

  /** Where a piece is cut: the name ends at the first equals sign, and the text at the second. */
  lemma PieceExactly(name: Bytes, text: Bytes, rest: Bytes)
    requires '=' !in Chars(name) && '=' !in Chars(text)
    ensures PieceName(name) == name && PieceText(name) == []
    ensures var piece := name + ['=' as int] + text; PieceName(piece) == name && PieceText(piece) == Decode(text)
    ensures var piece := name + ['=' as int] + (text + ['=' as int] + rest);
            PieceName(piece) == name && PieceText(piece) == Decode(text)
  {
    NoneAmong(name);
    NoneAmong(text);
    SplitWhole(name, EQUALS);
    SplitWhole(text, EQUALS);
    SplitFirst(name, text, EQUALS);
    SplitFirst(name, text + [EQUALS] + rest, EQUALS);
    SplitFirst(text, rest, EQUALS);
  }

  lemma NoneAmong(s: Bytes)
    requires '=' !in Chars(s)
    ensures EQUALS !in s
  {
    forall i | 0 <= i < |s| ensures s[i] != EQUALS {
      assert Chars(s)[i] in Chars(s);
    }
  }

  /** What becomes of field `k` in reading any form: it is set from the text found for it, up to
      the first field whose text is no number; that one and those behind it stay as they were. */
  lemma DecodeExactly(fields: seq<Field>, was: seq<Value>, buffer: Bytes, k: nat)
    requires |fields| == |was| && AllDeclared(fields) && k < |fields|
    ensures var t := DecodeForm(fields, was, buffer);
            var given := SetField(fields[k].kind, was[k], Lookup(Split(buffer, '&' as int), WireName(fields[k])));
            && |t.values| == |was| && (t.failed.Some? ==> t.failed.value < |fields|)
            && (if t.failed.None? || k < t.failed.value then given == Some(t.values[k]) else t.values[k] == was[k])
            && (t.failed == Some(k) ==> given == None)
  {
    FormProofs.DecodeFromExactly(fields, was, Split(buffer, AMPERSAND), 0, k);
  }
}
