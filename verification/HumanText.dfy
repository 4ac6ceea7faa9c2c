/** Byte strings as readable text (utils/humanreadable.go): printable ASCII and whole
    UTF-8 sequences are kept, everything else is escaped. UTF-8 is meant structurally,
    as a lead byte with its number of continuation bytes (RFC 3629, section 3). */
module HumanText {
  import opened Options

  type Byte = bv8

  predicate Continuation(c: Byte) {
    c & 0xc0 == 0x80
  }

  /** The length of the sequence a lead byte announces; 0 for any other byte. */
  function LeadLength(c: Byte): nat {
    if c & 0xf8 == 0xf0 then 4 else if c & 0xf0 == 0xe0 then 3 else if c & 0xe0 == 0xc0 then 2 else 0
  }

  /** The length of the whole multi-byte sequence in front, or 0 if there is none. */
  function WholeSequence(bs: seq<Byte>): (n: nat)
    ensures n <= |bs|
    ensures n > 0 ==> bs[0] >= 0x80 && forall j :: 1 <= j < n ==> Continuation(bs[j])
  {
    if bs == [] then 0
    else
      var n := LeadLength(bs[0]);
      if n == 0 || n > |bs| || exists j :: 1 <= j < n && !Continuation(bs[j]) then 0 else n
  }

  /** Continuation and lead bytes by their ranges. */
  lemma BytesByRange(c: Byte)
    ensures Continuation(c) <==> 0x80 <= c <= 0xbf
    ensures LeadLength(c) == if 0xc0 <= c <= 0xdf then 2 else if 0xe0 <= c <= 0xef then 3
                             else if 0xf0 <= c <= 0xf7 then 4 else 0
  {
  }

  /** Which sequences are kept: a lead byte followed by as many continuation bytes as it announces. */
  lemma KeptExactly(bs: seq<Byte>, n: nat)
    ensures WholeSequence(bs) == n && n > 0 <==>
              && 2 <= n <= 4 && n <= |bs|
              && (if n == 2 then 0xc0 <= bs[0] <= 0xdf else if n == 3 then 0xe0 <= bs[0] <= 0xef else 0xf0 <= bs[0] <= 0xf7)
              && forall j :: 1 <= j < n ==> 0x80 <= bs[j] <= 0xbf
  {
    if bs != [] {
      BytesByRange(bs[0]);
      forall j | 1 <= j < |bs| ensures Continuation(bs[j]) <==> 0x80 <= bs[j] <= 0xbf {
        BytesByRange(bs[j]);
      }
    }
  }

  /** Structurally well-formed UTF-8 without control characters. */
  predicate Readable(bs: seq<Byte>)
    decreases |bs|
  {
    bs == []
    || (0x20 <= bs[0] < 0x7f && Readable(bs[1..]))
    || (WholeSequence(bs) > 0 && Readable(bs[WholeSequence(bs)..]))
  }

  // ---------------------------------------------------------------------------
  // Escaping
  // ---------------------------------------------------------------------------

  function HexDigit(n: Byte): (d: Byte)
    requires n < 16
    ensures 0x20 <= d < 0x7f
  {
    if n < 10 then 0x30 + n else 0x57 + n
  }

  /** The letters of \a \b \t \n \v \f \r. */
  const CONTROL_LETTERS: seq<Byte> := [0x61, 0x62, 0x74, 0x6e, 0x76, 0x66, 0x72]

  function EscapeByte(c: Byte): (r: seq<Byte>)
    ensures forall i :: 0 <= i < |r| ==> 0x20 <= r[i] < 0x7f
    ensures r == [c] <==> 0x20 <= c < 0x7f
  {
    if c < 0x20 then
      if c > 0x06 && c < 0x0e then [0x5c, CONTROL_LETTERS[(c - 7) as int]]
      else [0x5c, 0x78, HexDigit(c >> 4), HexDigit(c & 0x0f)]
    else if c == 0x7f then [0x5c, 0x75, 0x30, 0x30, 0x37, 0x66]
    else if c > 0x7f then [0x5c, 0x78, HexDigit(c >> 4), HexDigit(c & 0x0f)]
    else [c]
  }

  function Humanize(bs: seq<Byte>): seq<Byte>
    decreases |bs|
  {
    if bs == [] then []
    else
      var n := WholeSequence(bs);
      if n > 0 then bs[..n] + Humanize(bs[n..]) else EscapeByte(bs[0]) + Humanize(bs[1..])
  }

  /** What is still to come after `i` bytes, the next `open` of them inside a sequence. */
  function Remaining(bs: seq<Byte>, i: nat, open: nat): seq<Byte>
    requires i + open <= |bs|
  {
    bs[i..i + open] + Humanize(bs[i + open..])
  }

  /** The byte loop: `belongsToUnicode` counts down the bytes of a whole sequence. */
  method HumanByteText(bs: seq<Byte>) returns (buf: seq<Byte>)
    ensures buf == Humanize(bs)
  {
    var l := |bs|;
    buf := [];
    var belongsToUnicode := 0;
    var i := 0;
    assert Remaining(bs, 0, 0) == Humanize(bs) by {
      assert bs[0..] == bs && bs[0..0] == [];
    }
    while i < l
      invariant 0 <= i <= l && 0 <= belongsToUnicode <= l - i
      invariant forall j :: i <= j < i + belongsToUnicode ==> Continuation(bs[j])
      invariant Humanize(bs) == buf + Remaining(bs, i, belongsToUnicode)
    {
      ghost var before, open := buf, belongsToUnicode;
      var piece;
      piece, belongsToUnicode := WriteByte(bs, i, belongsToUnicode);
      buf := buf + piece;
      RemainingStep(bs, i, open, belongsToUnicode);
      Regroup(before, piece, Remaining(bs, i + 1, belongsToUnicode));
      i := i + 1;
    }
    assert Remaining(bs, l, 0) == [];
  }

  /** One turn of the loop: what it writes, and how many bytes of the sequence are left. */
  method WriteByte(bs: seq<Byte>, i: nat, open: nat) returns (piece: seq<Byte>, belongsToUnicode: nat)
    requires i < |bs| && i + open <= |bs|
    requires forall j :: i <= j < i + open ==> Continuation(bs[j])
    ensures piece == RemainingHead(bs, i, open)
    ensures belongsToUnicode == if open > 0 then open - 1
                                else if WholeSequence(bs[i..]) > 0 then WholeSequence(bs[i..]) - 1 else 0
    ensures i + 1 + belongsToUnicode <= |bs|
    ensures forall j :: i + 1 <= j < i + 1 + belongsToUnicode ==> Continuation(bs[j])
  {
    var c := bs[i];
    belongsToUnicode := open;
    if open > 0 {
      ContinuationIsHigh(c);
    }
    ghost var t := bs[i..];
    assert forall j :: 0 <= j < |t| ==> t[j] == bs[i + j];
    assert forall j :: i <= j < |bs| ==> bs[j] == t[j - i];
    if c < 0x20 || c == 0x7f {
      piece := EscapeByte(c);
    } else if c > 0x7f {
      var n := StartingSequence(bs, i);
      if n > 0 {
        belongsToUnicode := n;
      }
      if belongsToUnicode > 0 {
        piece := [c];
        belongsToUnicode := belongsToUnicode - 1;
      } else {
        piece := EscapeByte(c);
      }
    } else {
      piece := [c];
    }
  }

  /** What the loop writes for one byte. */
  function RemainingHead(bs: seq<Byte>, i: nat, open: nat): seq<Byte>
    requires i < |bs|
  {
    if open > 0 || WholeSequence(bs[i..]) > 0 then [bs[i]] else EscapeByte(bs[i])
  }

  lemma Regroup(a: seq<Byte>, b: seq<Byte>, c: seq<Byte>)
    ensures (a + b) + c == a + (b + c)
  {
  }

  lemma RemainingStep(bs: seq<Byte>, i: nat, open: nat, now: nat)
    requires i < |bs| && i + open <= |bs|
    requires now == if open > 0 then open - 1 else if WholeSequence(bs[i..]) > 0 then WholeSequence(bs[i..]) - 1 else 0
    ensures i + 1 + now <= |bs|
    ensures Remaining(bs, i, open) == RemainingHead(bs, i, open) + Remaining(bs, i + 1, now)
  {
    if open > 0 {
      assert bs[i..i + open] == [bs[i]] + bs[i + 1..i + open];
      Regroup([bs[i]], bs[i + 1..i + open], Humanize(bs[i + open..]));
    } else {
      assert bs[i..i] == [];
      HumanizeAt(bs, i, now);
    }
  }

  lemma HumanizeAt(bs: seq<Byte>, i: nat, now: nat)
    requires i < |bs|
    requires now == if WholeSequence(bs[i..]) > 0 then WholeSequence(bs[i..]) - 1 else 0
    ensures Humanize(bs[i..]) == RemainingHead(bs, i, 0) + Remaining(bs, i + 1, now)
  {
    var t, n := bs[i..], WholeSequence(bs[i..]);
    if n > 0 {
      assert t[..n] == [bs[i]] + bs[i + 1..i + n] && t[n..] == bs[i + n..];
      Regroup([bs[i]], bs[i + 1..i + n], Humanize(bs[i + n..]));
    } else {
      assert bs[i + 1..i + 1] == [] && t[1..] == bs[i + 1..];
    }
  }

  /** The length of the whole sequence that starts at `i`, looking ahead as far as it reaches. */
  method StartingSequence(bs: seq<Byte>, i: nat) returns (n: nat)
    requires i < |bs|
    ensures n == WholeSequence(bs[i..])
  {
    var l, c := |bs|, bs[i];
    n := 0;
    if c & 0xf8 == 0xf0 {
      if i < l - 3 && bs[i + 3] & 0xc0 == 0x80 && bs[i + 2] & 0xc0 == 0x80 && bs[i + 1] & 0xc0 == 0x80 {
        n := 4;
      }
    } else if c & 0xf0 == 0xe0 {
      if i < l - 2 && bs[i + 2] & 0xc0 == 0x80 && bs[i + 1] & 0xc0 == 0x80 {
        n := 3;
      }
    } else if c & 0xe0 == 0xc0 {
      if i < l - 1 && bs[i + 1] & 0xc0 == 0x80 {
        n := 2;
      }
    }
    ghost var t := bs[i..];
    assert forall j :: 0 <= j < |t| ==> t[j] == bs[i + j];
  }

  lemma ContinuationIsHigh(c: Byte)
    requires Continuation(c)
    ensures c > 0x7f && LeadLength(c) == 0
  {
  }

  // ---------------------------------------------------------------------------
  // What the text is good for
  // ---------------------------------------------------------------------------

  /** A whole sequence is recognised by its own bytes. */
  lemma WholeIsLocal(a: seq<Byte>, b: seq<Byte>)
    requires WholeSequence(a) == |a| > 0
    ensures WholeSequence(a + b) == |a|
  {
    assert forall j :: 0 <= j < |a| ==> (a + b)[j] == a[j];
  }

  lemma WholeTaken(bs: seq<Byte>)
    requires WholeSequence(bs) > 0
    ensures WholeSequence(bs[..WholeSequence(bs)]) == WholeSequence(bs)
  {
  }

  lemma {:induction false} AsciiThenReadable(a: seq<Byte>, b: seq<Byte>)
    requires (forall i :: 0 <= i < |a| ==> 0x20 <= a[i] < 0x7f) && Readable(b)
    ensures Readable(a + b)
  {
    if a == [] {
      assert a + b == b;
    } else {
      assert (a + b)[1..] == a[1..] + b;
      AsciiThenReadable(a[1..], b);
    }
  }

  /** Whatever the bytes, the text is well-formed UTF-8 without control characters. */
  lemma {:induction false} TextIsReadable(bs: seq<Byte>)
    ensures Readable(Humanize(bs))
    decreases |bs|
  {
    if bs != [] {
      var n := WholeSequence(bs);
      if n > 0 {
        TextIsReadable(bs[n..]);
        WholeTaken(bs);
        WholeIsLocal(bs[..n], Humanize(bs[n..]));
        assert (bs[..n] + Humanize(bs[n..]))[n..] == Humanize(bs[n..]);
      } else {
        TextIsReadable(bs[1..]);
        AsciiThenReadable(EscapeByte(bs[0]), Humanize(bs[1..]));
      }
    }
  }

  lemma {:induction false} ReadableHasNoControls(bs: seq<Byte>)
    requires Readable(bs)
    ensures forall c :: c in bs ==> c >= 0x20 && c != 0x7f
    decreases |bs|
  {
    if bs != [] {
      var n := WholeSequence(bs);
      if n > 0 {
        ReadableHasNoControls(bs[n..]);
        assert bs == bs[..n] + bs[n..];
        forall c | c in bs[..n] ensures c >= 0x80 {
          var j :| 0 <= j < n && bs[j] == c;
          assert j > 0 ==> Continuation(c);
        }
      } else {
        ReadableHasNoControls(bs[1..]);
        assert bs == [bs[0]] + bs[1..];
      }
    }
  }

  /** The text has no byte below 0x20 and no 0x7f. */
  lemma TextHasNoControls(bs: seq<Byte>)
    ensures forall c :: c in Humanize(bs) ==> c >= 0x20 && c != 0x7f
  {
    TextIsReadable(bs);
    ReadableHasNoControls(Humanize(bs));
  }

  /** Exactly the byte strings of that form are returned unchanged. */
  lemma UnchangedExactlyWhenReadable(bs: seq<Byte>)
    ensures Humanize(bs) == bs <==> Readable(bs)
  {
    if Humanize(bs) == bs {
      TextIsReadable(bs);
    }
    if Readable(bs) {
      ReadableUnchanged(bs);
    }
  }

  lemma {:induction false} ReadableUnchanged(bs: seq<Byte>)
    requires Readable(bs)
    ensures Humanize(bs) == bs
    decreases |bs|
  {
    if bs != [] {
      var n := WholeSequence(bs);
      if n > 0 {
        ReadableUnchanged(bs[n..]);
        WholeTaken(bs);
        BehindWhole(bs[..n], bs[n..]);
        assert bs == bs[..n] + bs[n..];
      } else {
        ReadableUnchanged(bs[1..]);
        BehindAscii(bs[0], bs[1..]);
        assert bs == [bs[0]] + bs[1..];
      }
    }
  }

  /** Escaping twice changes nothing more. */
  lemma HumanizeTwice(bs: seq<Byte>)
    ensures Humanize(Humanize(bs)) == Humanize(bs)
  {
    TextIsReadable(bs);
    UnchangedExactlyWhenReadable(Humanize(bs));
  }

  function HexValue(d: Byte): Byte {
    if d < 0x3a then d - 0x30 else d - 0x57
  }

  /** The bell, backspace, tab, newline, vertical tab, form feed and carriage return, by the
      letter that stands for each behind a backslash. */
  function LetterValue(letter: Byte): Option<Byte> {
    if letter == 0x61 then Some(0x07)
    else if letter == 0x62 then Some(0x08)
    else if letter == 0x74 then Some(0x09)
    else if letter == 0x6e then Some(0x0a)
    else if letter == 0x76 then Some(0x0b)
    else if letter == 0x66 then Some(0x0c)
    else if letter == 0x72 then Some(0x0d)
    else None
  }

  /** The byte that an escape stands for. */
  function ReadEscape(r: seq<Byte>): Option<Byte> {
    if |r| < 2 || r[0] != 0x5c then None
    else if |r| == 2 then LetterValue(r[1])
    else if |r| == 4 && r[1] == 0x78 then Some((HexValue(r[2]) << 4) | HexValue(r[3]))
    else if r == [0x5c, 0x75, 0x30, 0x30, 0x37, 0x66] then Some(0x7f)
    else None
  }

  /** The digits are those of lower-case hexadecimal numbers. */
  lemma HexDigitIs(n: Byte)
    requires n < 16
    ensures HexDigit(n) as int == "0123456789abcdef"[n as int] as int
  {
    assert n == 0 || n == 1 || n == 2 || n == 3 || n == 4 || n == 5 || n == 6 || n == 7 || n == 8 || n == 9
           || n == 10 || n == 11 || n == 12 || n == 13 || n == 14 || n == 15;
  }

  /** An escape is read back as its byte; those from the bell to the carriage return are spelled
      with a letter, 0x7f in the long form, all others with two hexadecimal digits. */
  lemma EscapesReadBack(c: Byte)
    requires c < 0x20 || c >= 0x7f
    ensures ReadEscape(EscapeByte(c)) == Some(c)
    ensures |EscapeByte(c)| == if 0x07 <= c <= 0x0d then 2 else if c == 0x7f then 6 else 4
  {
    var r := EscapeByte(c);
    if |r| == 4 {
      assert (HexValue(r[2]) << 4) | HexValue(r[3]) == c;
    } else if |r| == 2 {
      assert c == 0x07 || c == 0x08 || c == 0x09 || c == 0x0a || c == 0x0b || c == 0x0c || c == 0x0d;
    }
  }

  /** An escape names its byte: two hexadecimal digits spell it, and no two bytes share one. */
  lemma EscapesNameTheirByte(c: Byte, d: Byte)
    ensures var r := EscapeByte(c);
            |r| == 4 ==> r[0] == 0x5c && r[1] == 0x78 && (HexValue(r[2]) << 4) | HexValue(r[3]) == c
    ensures EscapeByte(c) == EscapeByte(d) ==> c == d
  {
    var r, t := EscapeByte(c), EscapeByte(d);
    if r == t && |r| == 4 {
      assert (HexValue(r[2]) << 4) | HexValue(r[3]) == c;
      assert (HexValue(t[2]) << 4) | HexValue(t[3]) == d;
    } else if r == t && |r| == 2 {
      assert r[1] == CONTROL_LETTERS[(c - 7) as int] && t[1] == CONTROL_LETTERS[(d - 7) as int];
      LettersDiffer((c - 7) as int, (d - 7) as int);
    }
  }

  lemma LettersDiffer(i: int, j: int)
    requires 0 <= i < 7 && 0 <= j < 7 && CONTROL_LETTERS[i] == CONTROL_LETTERS[j]
    ensures i == j
  {
  }

  // ---------------------------------------------------------------------------
  // Which byte strings the text determines
  // ---------------------------------------------------------------------------

  predicate Escaped(c: Byte) {
    c < 0x20 || c >= 0x7f
  }

  /** One of the escapes \a to \r, \xHH of an escaped byte, and \u007f stands in front. */
  ghost predicate StartsWithEscape(bs: seq<Byte>) {
    exists c :: Escaped(c) && EscapeByte(c) <= bs
  }

  /** One of them stands somewhere. */
  ghost predicate SpellsEscape(bs: seq<Byte>) {
    bs != [] && (StartsWithEscape(bs) || SpellsEscape(bs[1..]))
  }

  lemma EscapeStartsWithBackslash(c: Byte)
    requires Escaped(c)
    ensures |EscapeByte(c)| >= 2 && EscapeByte(c)[0] == 0x5c
  {
  }

  lemma BackslashInFront(bs: seq<Byte>)
    requires StartsWithEscape(bs)
    ensures bs != [] && bs[0] == 0x5c
  {
    var c :| Escaped(c) && EscapeByte(c) <= bs;
    EscapeStartsWithBackslash(c);
  }

  lemma {:induction false} SpelledBehind(a: seq<Byte>, b: seq<Byte>)
    requires SpellsEscape(b)
    ensures SpellsEscape(a + b)
  {
    if a == [] {
      assert a + b == b;
    } else {
      assert (a + b)[1..] == a[1..] + b;
      SpelledBehind(a[1..], b);
    }
  }

  /** A text with an escape in it spells one. */
  lemma {:induction false} EscapingSpells(bs: seq<Byte>)
    requires !Readable(bs)
    ensures SpellsEscape(Humanize(bs))
    decreases |bs|
  {
    var n := WholeSequence(bs);
    if n > 0 {
      EscapingSpells(bs[n..]);
      SpelledBehind(bs[..n], Humanize(bs[n..]));
    } else if Escaped(bs[0]) {
      EscapeStartsWithBackslash(bs[0]);
      assert EscapeByte(bs[0]) <= Humanize(bs);
    } else {
      EscapingSpells(bs[1..]);
      SpelledBehind(EscapeByte(bs[0]), Humanize(bs[1..]));
    }
  }

  /** No escape starts with a byte of a multi-byte sequence. */
  lemma {:induction false} SpelledBehindHigh(bs: seq<Byte>, n: nat)
    requires SpellsEscape(bs) && n <= |bs| && forall j :: 0 <= j < n ==> bs[j] >= 0x80
    ensures SpellsEscape(bs[n..])
  {
    if n == 0 {
      assert bs[0..] == bs;
    } else {
      if StartsWithEscape(bs) {
        BackslashInFront(bs);
      }
      assert forall j :: 0 <= j < n - 1 ==> bs[1..][j] == bs[j + 1];
      SpelledBehindHigh(bs[1..], n - 1);
      assert bs[1..][n - 1..] == bs[n..];
    }
  }

  lemma {:induction false} ReadableBehindAscii(bs: seq<Byte>, n: nat)
    requires Readable(bs) && n <= |bs| && forall j :: 0 <= j < n ==> 0x20 <= bs[j] < 0x7f
    ensures Readable(bs[n..])
  {
    if n == 0 {
      assert bs[0..] == bs;
    } else {
      assert WholeSequence(bs) == 0;
      assert forall j :: 0 <= j < n - 1 ==> bs[1..][j] == bs[j + 1];
      ReadableBehindAscii(bs[1..], n - 1);
      assert bs[1..][n - 1..] == bs[n..];
    }
  }

  lemma ReadableHead(bs: seq<Byte>)
    requires Readable(bs) && bs != []
    ensures !Continuation(bs[0])
  {
    if Continuation(bs[0]) {
      ContinuationIsHigh(bs[0]);
    }
  }

  /** No byte joins with a readable text behind it to a whole sequence. */
  lemma NothingJoins(c: Byte, rest: seq<Byte>)
    requires Readable(rest)
    ensures WholeSequence([c] + rest) == 0
  {
    if rest != [] {
      ReadableHead(rest);
      assert ([c] + rest)[1] == rest[0];
    }
  }

  lemma BehindWhole(a: seq<Byte>, rest: seq<Byte>)
    requires WholeSequence(a) == |a| > 0
    ensures Humanize(a + rest) == a + Humanize(rest)
    ensures Readable(a + rest) ==> Readable(rest)
  {
    WholeIsLocal(a, rest);
    assert (a + rest)[..|a|] == a && (a + rest)[|a|..] == rest;
  }

  lemma BehindAscii(c: Byte, rest: seq<Byte>)
    requires 0x20 <= c < 0x7f
    ensures Humanize([c] + rest) == [c] + Humanize(rest)
    ensures Readable([c] + rest) ==> Readable(rest)
  {
    assert WholeSequence([c] + rest) == 0 && ([c] + rest)[1..] == rest;
  }

  /** The escape in front undone. */
  lemma UnspelledInFront(bs: seq<Byte>) returns (other: seq<Byte>)
    requires Readable(bs) && StartsWithEscape(bs)
    ensures !Readable(other) && Humanize(other) == bs
  {
    var c :| Escaped(c) && EscapeByte(c) <= bs;
    var k := |EscapeByte(c)|;
    assert bs == EscapeByte(c) + bs[k..];
    ReadableBehindAscii(bs, k);
    UnchangedExactlyWhenReadable(bs[k..]);
    other := [c] + bs[k..];
    NothingJoins(c, bs[k..]);
    assert other[1..] == bs[k..];
  }

  lemma WholeIsHigh(bs: seq<Byte>)
    requires WholeSequence(bs) > 0
    ensures forall j :: 0 <= j < WholeSequence(bs) ==> bs[j] >= 0x80
  {
    forall j | 0 < j < WholeSequence(bs) ensures bs[j] >= 0x80 {
      ContinuationIsHigh(bs[j]);
    }
  }

  /** How far a readable text is taken at once. */
  function FirstLength(bs: seq<Byte>): (n: nat)
    requires bs != []
    ensures 0 < n <= |bs|
  {
    if WholeSequence(bs) > 0 then WholeSequence(bs) else 1
  }

  lemma SpelledLater(bs: seq<Byte>)
    requires Readable(bs) && SpellsEscape(bs) && !StartsWithEscape(bs)
    ensures bs != [] && Readable(bs[FirstLength(bs)..]) && SpellsEscape(bs[FirstLength(bs)..])
  {
    if WholeSequence(bs) > 0 {
      WholeIsHigh(bs);
      SpelledBehindHigh(bs, WholeSequence(bs));
    }
  }

  lemma TakenThenOther(bs: seq<Byte>, rest: seq<Byte>)
    requires Readable(bs) && bs != [] && !Readable(rest) && Humanize(rest) == bs[FirstLength(bs)..]
    ensures !Readable(bs[..FirstLength(bs)] + rest) && Humanize(bs[..FirstLength(bs)] + rest) == bs
  {
    var n := FirstLength(bs);
    assert bs == bs[..n] + bs[n..];
    if WholeSequence(bs) > 0 {
      WholeTaken(bs);
      BehindWhole(bs[..n], rest);
    } else {
      assert bs[..n] == [bs[0]];
      BehindAscii(bs[0], rest);
    }
  }

  /** Other bytes with the same text: an escape that the text spells, undone. */
  lemma {:induction false} Unspelled(bs: seq<Byte>) returns (other: seq<Byte>)
    requires Readable(bs) && SpellsEscape(bs)
    ensures !Readable(other) && Humanize(other) == bs
    decreases |bs|
  {
    if StartsWithEscape(bs) {
      other := UnspelledInFront(bs);
    } else {
      SpelledLater(bs);
      var rest := Unspelled(bs[FirstLength(bs)..]);
      TakenThenOther(bs, rest);
      other := bs[..FirstLength(bs)] + rest;
    }
  }

  /** A byte string is the only one with its text if and only if it is readable and spells no
      escape. */
  lemma TextDeterminesExactly(bs: seq<Byte>)
    ensures (forall other :: Humanize(other) == Humanize(bs) ==> other == bs) <==> Readable(bs) && !SpellsEscape(bs)
  {
    UnchangedExactlyWhenReadable(bs);
    if !Readable(bs) {
      HumanizeTwice(bs);
      assert Humanize(Humanize(bs)) == Humanize(bs) && Humanize(bs) != bs;
    } else if SpellsEscape(bs) {
      var other := Unspelled(bs);
      assert Humanize(other) == Humanize(bs) && other != bs;
    } else {
      forall other | Humanize(other) == Humanize(bs) ensures other == bs {
        UnchangedExactlyWhenReadable(other);
        if !Readable(other) {
          EscapingSpells(other);
        }
      }
    }
  }

  /** The backslash itself is not escaped, so the bytes cannot be told from the text. */
  lemma TextIsAmbiguous()
    ensures var a: seq<Byte> := [0x01];
            var b: seq<Byte> := [0x5c, 0x78, 0x30, 0x31];
            a != b && Humanize(a) == Humanize(b)
  {
    var a: seq<Byte> := [0x01];
    var b: seq<Byte> := [0x5c, 0x78, 0x30, 0x31];
    assert Humanize(a[1..]) == [];
    assert Humanize(a) == EscapeByte(0x01) == b;
    assert Readable(b[4..]) && Readable(b[3..]) by { assert b[3..][1..] == b[4..]; }
    assert Readable(b[2..]) by { assert b[2..][1..] == b[3..]; }
    assert Readable(b[1..]) by { assert b[1..][1..] == b[2..]; }
    UnchangedExactlyWhenReadable(b);
  }
}
