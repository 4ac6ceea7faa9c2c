/** Decoding the encoding of a record gives the record back, exactly when the names on the
    wire are free of delimiters and told apart (urlencodeserializer.go). */
module FormProofs {
  import opened Arithmetic
  import opened Options
  import opened UrlText
  import opened FormCodec

  // ---------------------------------------------------------------------------
  // One field
  // ---------------------------------------------------------------------------

  lemma FitsUnwrapped(n: int, w: Width)
    ensures -Half(w) <= n < Half(w) ==> WrapInt(n, w) == n && -TWO_63 <= n < TWO_63
    ensures 0 <= n < 2 * Half(w) ==> WrapUint(n, w) == n && n < TWO_64
  {
    var h := Half(w);
    if -h <= n < h {
      SmallModulo(n + h, 2 * h);
    }
    if 0 <= n < 2 * h {
      SmallModulo(n, 2 * h);
    }
  }

  /** A number that does not fit is cut to the width of the field: the value has its range, and
      differs from the number by a multiple of it. */
  lemma CutToWidth(n: int, w: Width)
    ensures -Half(w) <= WrapInt(n, w) < Half(w) && (n - WrapInt(n, w)) % (2 * Half(w)) == 0
    ensures 0 <= WrapUint(n, w) < 2 * Half(w) && (n - WrapUint(n, w)) % (2 * Half(w)) == 0
    ensures Half(W8) == 128 && Half(W16) == 32768 && Half(W32) == 2147483648 && Half(W64) == 9223372036854775808
  {
    var m := 2 * Half(w);
    ModuloOf((n + Half(w)) / m, 0, m);
    ModuloOf(n / m, 0, m);
    assert n - WrapInt(n, w) == (n + Half(w)) / m * m + 0;
    assert n - WrapUint(n, w) == n / m * m + 0;
  }

  /** The name on the wire: the first letter of the field in lower case and the rest as it is, or
      the tag up to its first comma. Of a letter beyond ASCII the first byte alone is looked at,
      and replaced by the replacement character. */
  lemma WireNameExactly(f: Field)
    requires f.name != []
    ensures f.tag == [] && f.name[0] < 0x80 ==>
              WireName(f) == [if 'A' <= f.name[0] as char <= 'Z' then f.name[0] + 0x20 else f.name[0]] + f.name[1..]
    ensures f.tag == [] && f.name[0] >= 0x80 ==> WireName(f) == [0xef, 0xbf, 0xbd] + f.name[1..]
    ensures f.tag != [] ==>
              && WireName(f) <= f.tag && ',' !in Chars(WireName(f))
              && (WireName(f) == f.tag || f.tag[|WireName(f)|] as char == ',')
  {
    UntilExactly(f.tag, COMMA);
  }

  lemma {:induction false} UntilExactly(s: Bytes, sep: Byte)
    ensures Until(s, sep) <= s && sep !in Until(s, sep)
    ensures Until(s, sep) == s || s[|Until(s, sep)|] == sep
  {
    if s != [] && s[0] != sep {
      UntilExactly(s[1..], sep);
      assert s == [s[0]] + s[1..];
    }
  }

  /** Which fields are written: all but those tagged "-", and those whose tag ends in ",omitempty"
      while their text is empty, as that of an empty string and of any other kind is. */
  lemma WrittenExactly(f: Field, v: Value)
    requires Fits(f.kind, v)
    ensures !Written(f, v) <==>
              Chars(f.tag) == "-" || (EndsWith(Chars(f.tag), ",omitempty") && (v == Str([]) || v.Other?))
    ensures v.Other? ==> TextOf(v) == []
  {
    SameChars(f.tag, DASH);
    assert Chars(DASH) == "-";
    OmitsExactly(f);
    if v.Int? {
      NumbersBack(v.n);
    } else if v.Uint? {
      NumbersBack(v.u);
    }
  }

  lemma OmitsExactly(f: Field)
    ensures OmitsEmpty(f) <==> EndsWith(Chars(f.tag), ",omitempty")
  {
    assert Chars(OMITEMPTY) == ",omitempty";
    if |f.tag| >= |OMITEMPTY| {
      var end := f.tag[|f.tag| - |OMITEMPTY|..];
      SameChars(end, OMITEMPTY);
      assert Chars(f.tag)[|f.tag| - |OMITEMPTY|..] == Chars(end);
    }
  }

  predicate EndsWith(s: string, end: string) {
    |s| >= |end| && s[|s| - |end|..] == end
  }

  /** How many of the first n fields are written. */
  function CountWritten(fields: seq<Field>, values: seq<Value>, n: nat): nat
    requires |fields| == |values| && n <= |fields|
  {
    if n == 0 then 0 else CountWritten(fields, values, n - 1) + if Written(fields[n - 1], values[n - 1]) then 1 else 0
  }

  predicate HoldsPiece(pieces: seq<Bytes>, at: nat, name: Bytes, text: Bytes) {
    at < |pieces| && pieces[at] == name + ['=' as int] + Escape(text)
  }

  /** Each written field has its piece, name=text with the text escaped, behind those of the
      written fields before it. */
  lemma PiecesInOrder(fields: seq<Field>, values: seq<Value>, n: nat, i: nat)
    requires IsRecord(fields, values) && i < n <= |fields| && Written(fields[i], values[i])
    ensures HoldsPiece(Pieces(fields, values, n), CountWritten(fields, values, i), WireName(fields[i]), TextOf(values[i]))
  {
    PieceHere(fields, values, i);
    PiecesExtend(fields, values, n, i + 1);
    HeldFurther(Pieces(fields, values, i + 1), Pieces(fields, values, n), CountWritten(fields, values, i),
                WireName(fields[i]), TextOf(values[i]));
  }

  lemma HeldFurther(front: seq<Bytes>, whole: seq<Bytes>, at: nat, name: Bytes, text: Bytes)
    requires front <= whole && HoldsPiece(front, at, name, text)
    ensures HoldsPiece(whole, at, name, text)
  {
  }

  lemma PieceHere(fields: seq<Field>, values: seq<Value>, i: nat)
    requires IsRecord(fields, values) && i < |fields| && Written(fields[i], values[i])
    ensures HoldsPiece(Pieces(fields, values, i + 1), CountWritten(fields, values, i), WireName(fields[i]), TextOf(values[i]))
  {
    PieceCount(fields, values, i);
    LastHeld(Pieces(fields, values, i), Piece(fields[i], values[i]), WireName(fields[i]), TextOf(values[i]));
  }

  lemma LastHeld(front: seq<Bytes>, piece: Bytes, name: Bytes, text: Bytes)
    requires piece == name + [EQUALS] + Escape(text)
    ensures HoldsPiece(front + [piece], |front|, name, text)
  {
  }

  /** Of the text itself: the pieces stand between ampersands, and splitting it there gives them
      back, where no name holds one. */
  lemma EncodedPieces(fields: seq<Field>, values: seq<Value>)
    requires IsRecord(fields, values) && Clean(fields)
    ensures var pieces := Pieces(fields, values, |fields|);
            Split(Encode(fields, values), '&' as int) == if pieces == [] then [[]] else pieces
  {
    PiecesClean(fields, values, |fields|);
    JoinBack(Pieces(fields, values, |fields|), AMPERSAND);
  }

  lemma {:induction false} PiecesExtend(fields: seq<Field>, values: seq<Value>, n: nat, i: nat)
    requires IsRecord(fields, values) && i <= n <= |fields|
    ensures Pieces(fields, values, i) <= Pieces(fields, values, n)
  {
    if i < n {
      PiecesExtend(fields, values, n - 1, i);
    }
  }

  /** There are no other pieces. */
  lemma {:induction false} PieceCount(fields: seq<Field>, values: seq<Value>, n: nat)
    requires IsRecord(fields, values) && n <= |fields|
    ensures |Pieces(fields, values, n)| == CountWritten(fields, values, n)
  {
    if n > 0 {
      PieceCount(fields, values, n - 1);
    }
  }

  /** The text of a value sets the value again. */
  lemma TextBack(k: Kind, v: Value, was: Value)
    requires Fits(k, v) && !k.OtherKind?
    ensures SetField(k, was, Some(TextOf(v))) == Some(v)
  {
    match k {
      case IntKind(width) =>
        FitsUnwrapped(v.n, width);
        NumbersBack(v.n);
      case UintKind(width) =>
        FitsUnwrapped(v.u, width);
        NumbersBack(v.u);
      case StringKind =>
      case BoolKind =>
      case OtherKind =>
    }
  }

  predicate CleanName(name: Bytes) {
    AMPERSAND !in name && EQUALS !in name
  }

  lemma PieceBack(f: Field, v: Value)
    requires f.name != [] && CleanName(WireName(f))
    ensures PieceName(Piece(f, v)) == WireName(f) && PieceText(Piece(f, v)) == TextOf(v)
    ensures AMPERSAND !in Piece(f, v)
  {
    EscapeBack(TextOf(v));
    SplitFirst(WireName(f), Escape(TextOf(v)), EQUALS);
    SplitWhole(Escape(TextOf(v)), EQUALS);
  }

  // ---------------------------------------------------------------------------
  // Lookup
  // ---------------------------------------------------------------------------

  ghost predicate Clean(fields: seq<Field>)
    requires AllDeclared(fields)
  {
    forall i :: 0 <= i < |fields| && !Skipped(fields[i]) ==> CleanName(WireName(fields[i]))
  }

  /** The text of the first of n fields that is written under a name. */
  ghost function FirstWritten(fields: seq<Field>, values: seq<Value>, n: nat, name: Bytes): Option<Bytes>
    requires IsRecord(fields, values) && n <= |fields|
  {
    if n == 0 then None
    else
      var front := FirstWritten(fields, values, n - 1, name);
      if front.Some? then front
      else if Written(fields[n - 1], values[n - 1]) && WireName(fields[n - 1]) == name then Some(TextOf(values[n - 1]))
      else None
  }

  lemma LookupSnoc(pieces: seq<Bytes>, piece: Bytes, name: Bytes)
    ensures Lookup(pieces + [piece], name)
            == if Lookup(pieces, name).Some? then Lookup(pieces, name)
               else if PieceName(piece) == name then Some(PieceText(piece)) else None
  {
    assert (pieces + [piece])[..|pieces|] == pieces;
  }

  lemma {:induction false} LookupPieces(fields: seq<Field>, values: seq<Value>, n: nat, name: Bytes)
    requires IsRecord(fields, values) && n <= |fields| && Clean(fields)
    ensures Lookup(Pieces(fields, values, n), name) == FirstWritten(fields, values, n, name)
  {
    if n > 0 {
      LookupPieces(fields, values, n - 1, name);
      LookupLast(fields, values, n, name);
    }
  }

  lemma LookupLast(fields: seq<Field>, values: seq<Value>, n: nat, name: Bytes)
    requires IsRecord(fields, values) && 0 < n <= |fields| && Clean(fields)
    ensures var front := Lookup(Pieces(fields, values, n - 1), name);
            Lookup(Pieces(fields, values, n), name)
            == if front.Some? then front
               else if Written(fields[n - 1], values[n - 1]) && WireName(fields[n - 1]) == name
               then Some(TextOf(values[n - 1])) else None
  {
    var front := Pieces(fields, values, n - 1);
    if Written(fields[n - 1], values[n - 1]) {
      PieceBack(fields[n - 1], values[n - 1]);
      LookupSnoc(front, Piece(fields[n - 1], values[n - 1]), name);
      assert Pieces(fields, values, n) == front + [Piece(fields[n - 1], values[n - 1])];
    } else {
      assert Pieces(fields, values, n) == front;
    }
  }

  lemma {:induction false} PiecesClean(fields: seq<Field>, values: seq<Value>, n: nat)
    requires IsRecord(fields, values) && n <= |fields| && Clean(fields)
    ensures forall i :: 0 <= i < |Pieces(fields, values, n)| ==> AMPERSAND !in Pieces(fields, values, n)[i]
  {
    if n > 0 {
      PiecesClean(fields, values, n - 1);
      if Written(fields[n - 1], values[n - 1]) {
        PieceBack(fields[n - 1], values[n - 1]);
      }
    }
  }

  /** What the decoder finds under a name: the text of the first field written under it. The
      empty form reads as one piece with the empty name and no text. */
  lemma Found(fields: seq<Field>, values: seq<Value>, name: Bytes) returns (text: Option<Bytes>)
    requires IsRecord(fields, values) && Clean(fields)
    ensures text == Lookup(Split(Encode(fields, values), AMPERSAND), name)
    ensures FirstWritten(fields, values, |fields|, name).Some? ==> text == FirstWritten(fields, values, |fields|, name)
    ensures FirstWritten(fields, values, |fields|, name).None? ==> text.None? || (name == [] && text == Some([]))
  {
    var pieces := Pieces(fields, values, |fields|);
    LookupPieces(fields, values, |fields|, name);
    PiecesClean(fields, values, |fields|);
    JoinBack(pieces, AMPERSAND);
    text := Lookup(Split(Encode(fields, values), AMPERSAND), name);
    if pieces == [] {
      EmptyPiece(name);
    }
  }

  lemma EmptyPiece(name: Bytes)
    ensures Lookup([[]], name) == if name == [] then Some([]) else None
  {
    var piece: Bytes := [];
    assert Split(piece, EQUALS) == [[]];
    assert [piece][..0] == [];
    assert Lookup([], name) == None;
  }

  lemma {:induction false} FoundNamesClean(pieces: seq<Bytes>, name: Bytes)
    requires forall i :: 0 <= i < |pieces| ==> AMPERSAND !in pieces[i]
    requires Lookup(pieces, name).Some?
    ensures CleanName(name)
  {
    var front, last := pieces[..|pieces| - 1], pieces[|pieces| - 1];
    if Lookup(front, name).Some? {
      FoundNamesClean(front, name);
    } else {
      SplitNoDelimiter(last, EQUALS);
      if AMPERSAND in name {
        SplitWithin(last, EQUALS, 0, AMPERSAND);
      }
    }
  }

  // ---------------------------------------------------------------------------
  // All fields
  // ---------------------------------------------------------------------------

  /** Decoding sets every field from the text found for it. */
  lemma {:induction false} DecodeSets(fields: seq<Field>, values: seq<Value>, pieces: seq<Bytes>, i: nat, target: seq<Value>)
    requires |fields| == |values| == |target| && i <= |fields| && AllDeclared(fields)
    requires forall k :: 0 <= k < i ==> values[k] == target[k]
    requires forall k :: i <= k < |fields| ==>
               SetField(fields[k].kind, values[k], Lookup(pieces, WireName(fields[k]))) == Some(target[k])
    ensures DecodeFrom(fields, values, pieces, i) == Decoded(target, None)
    decreases |fields| - i
  {
    if i == |fields| {
      assert values == target;
    } else {
      var next := values[i := target[i]];
      DecodeOne(fields, values, pieces, i, target[i]);
      forall k | i + 1 <= k < |fields|
        ensures SetField(fields[k].kind, next[k], Lookup(pieces, WireName(fields[k]))) == Some(target[k])
      {
        assert next[k] == values[k];
      }
      DecodeSets(fields, next, pieces, i + 1, target);
    }
  }

  lemma DecodeOne(fields: seq<Field>, values: seq<Value>, pieces: seq<Bytes>, i: nat, v: Value)
    requires |fields| == |values| && i < |fields| && AllDeclared(fields)
    requires SetField(fields[i].kind, values[i], Lookup(pieces, WireName(fields[i]))) == Some(v)
    ensures DecodeFrom(fields, values, pieces, i) == DecodeFrom(fields, values[i := v], pieces, i + 1)
  {
  }

  /** What reading from field `i` on means for field `k`. */
  ghost predicate ReadFrom(fields: seq<Field>, was: seq<Value>, pieces: seq<Bytes>, i: nat, k: nat, t: Decoded)
    requires |fields| == |was| && AllDeclared(fields) && k < |fields|
  {
    var given := SetField(fields[k].kind, was[k], Lookup(pieces, WireName(fields[k])));
    && |t.values| == |was| && (t.failed.Some? ==> i <= t.failed.value < |fields|)
    && (k >= i && (t.failed.None? || k < t.failed.value) ==> given == Some(t.values[k]))
    && (k < i || (t.failed.Some? && k >= t.failed.value) ==> t.values[k] == was[k])
    && (t.failed == Some(k) ==> given == None)
  }

  lemma FieldRead(fields: seq<Field>, was: seq<Value>, pieces: seq<Bytes>, i: nat, k: nat, v: Value, t: Decoded)
    requires |fields| == |was| && AllDeclared(fields) && k < |fields| && i < |fields|
    requires SetField(fields[i].kind, was[i], Lookup(pieces, WireName(fields[i]))) == Some(v)
    requires ReadFrom(fields, was[i := v], pieces, i + 1, k, t)
    ensures ReadFrom(fields, was, pieces, i, k, t)
  {
    assert was[i := v][k] == if k == i then v else was[k];
  }

  lemma {:induction false} DecodeFromExactly(fields: seq<Field>, was: seq<Value>, pieces: seq<Bytes>, i: nat, k: nat)
    requires |fields| == |was| && AllDeclared(fields) && k < |fields| && i <= |fields|
    ensures ReadFrom(fields, was, pieces, i, k, DecodeFrom(fields, was, pieces, i))
    decreases |fields| - i
  {
    if i < |fields| {
      var v := SetField(fields[i].kind, was[i], Lookup(pieces, WireName(fields[i])));
      if v.Some? {
        DecodeFromExactly(fields, was[i := v.value], pieces, i + 1, k);
        FieldRead(fields, was, pieces, i, k, v.value, DecodeFrom(fields, was, pieces, i));
      }
    }
  }

  /** The record as far as the form carries it: fields tagged "-" are left out. */
  function Restored(fields: seq<Field>, values: seq<Value>): (restored: seq<Value>)
    requires |fields| == |values|
    ensures |restored| == |fields|
  {
    seq(|fields|, i requires 0 <= i < |fields| => if Skipped(fields[i]) then Zero(fields[i].kind) else values[i])
  }

  ghost predicate RoundTrips(fields: seq<Field>, values: seq<Value>)
    requires IsRecord(fields, values)
  {
    DecodeForm(fields, Zeros(fields), Encode(fields, values)) == Decoded(Restored(fields, values), None)
  }

  /** Two fields may share a name only if neither is written. */
  ghost predicate Distinct(fields: seq<Field>)
    requires AllDeclared(fields)
  {
    forall i, j :: 0 <= i < j < |fields| && WireName(fields[i]) == WireName(fields[j]) ==>
                     Skipped(fields[i]) && Skipped(fields[j])
  }

  predicate Plain(fields: seq<Field>) {
    forall i :: 0 <= i < |fields| ==> !fields[i].kind.OtherKind?
  }

  /** If no other field is written under the name of field k, field k alone is found. */
  lemma {:induction false} FirstIsOwn(fields: seq<Field>, values: seq<Value>, n: nat, k: nat)
    requires IsRecord(fields, values) && n <= |fields| && k < |fields|
    requires forall j :: 0 <= j < |fields| && j != k && !Skipped(fields[j]) ==> WireName(fields[j]) != WireName(fields[k])
    ensures FirstWritten(fields, values, n, WireName(fields[k]))
            == if k < n && Written(fields[k], values[k]) then Some(TextOf(values[k])) else None
  {
    if n > 0 {
      FirstIsOwn(fields, values, n - 1, k);
    }
  }

  lemma FieldBack(fields: seq<Field>, values: seq<Value>, k: nat)
    requires IsRecord(fields, values) && Clean(fields) && Distinct(fields) && Plain(fields) && k < |fields|
    ensures SetField(fields[k].kind, Zeros(fields)[k],
                     Lookup(Split(Encode(fields, values), AMPERSAND), WireName(fields[k])))
            == Some(Restored(fields, values)[k])
  {
    var f, v := fields[k], values[k];
    FirstIsOwn(fields, values, |fields|, k);
    var text := Found(fields, values, WireName(f));
    if Skipped(f) {
      assert WireName(f) != [];
    } else if Written(f, v) {
      TextBack(f.kind, v, Zero(f.kind));
    } else {
      EmptyTextIsString(f.kind, v);
    }
  }

  lemma EmptyTextIsString(k: Kind, v: Value)
    requires Fits(k, v) && !k.OtherKind? && TextOf(v) == []
    ensures k.StringKind? && v == Zero(k)
  {
    if v.Int? {
      NumbersBack(v.n);
    } else if v.Uint? {
      NumbersBack(v.u);
    }
  }

  lemma CleanDistinctRoundTrips(fields: seq<Field>, values: seq<Value>)
    requires IsRecord(fields, values) && Clean(fields) && Distinct(fields) && Plain(fields)
    ensures RoundTrips(fields, values)
  {
    var pieces := Split(Encode(fields, values), AMPERSAND);
    forall k | 0 <= k < |fields|
      ensures SetField(fields[k].kind, Zeros(fields)[k], Lookup(pieces, WireName(fields[k])))
              == Some(Restored(fields, values)[k])
    {
      FieldBack(fields, values, k);
    }
    DecodeSets(fields, Zeros(fields), pieces, 0, Restored(fields, values));
  }

  // ---------------------------------------------------------------------------
  // Records that do not come back
  // ---------------------------------------------------------------------------

  function One(k: Kind): Value {
    match k
    case IntKind(_) => Int(1)
    case UintKind(_) => Uint(1)
    case StringKind => Str([0x31])
    case BoolKind => Bool(true)
    case OtherKind => Other(1)
  }

  function OnlyOne(fields: seq<Field>, w: nat): seq<Value>
    requires w < |fields|
  {
    Zeros(fields)[w := One(fields[w].kind)]
  }

  lemma OnlyOneIsRecord(fields: seq<Field>, w: nat)
    requires w < |fields| && AllDeclared(fields)
    ensures IsRecord(fields, OnlyOne(fields, w))
  {
    forall i | 0 <= i < |fields| ensures Fits(fields[i].kind, OnlyOne(fields, w)[i]) {
      assert Declared(fields[i]);
    }
  }

  lemma OneText(k: Kind)
    requires !k.OtherKind?
    ensures TextOf(One(k)) == [0x31] || TextOf(One(k)) == TRUE
  {
    assert Digits(1) == [0x31];
  }

  lemma DigitIsSeen(k: Kind)
    requires !k.OtherKind?
    ensures SetField(k, Zero(k), Some([0x31])) != Some(Zero(k))
  {
    assert Digits(1) == [0x31];
    NumbersBack(1);
    if k.IntKind? || k.UintKind? {
      FitsUnwrapped(1, k.width);
    }
  }

  lemma TrueIsSeen(k: Kind)
    requires !k.OtherKind?
    ensures SetField(k, Zero(k), Some(TRUE)) != Some(Zero(k))
  {
    assert !IsDigit(TRUE[0]);
  }

  /** The text of one never sets a field to zero. */
  lemma OneIsSeen(from: Kind, k: Kind)
    requires !from.OtherKind? && !k.OtherKind?
    ensures TextOf(One(from)) != []
    ensures SetField(k, Zero(k), Some(TextOf(One(from)))) != Some(Zero(k))
  {
    OneText(from);
    DigitIsSeen(k);
    TrueIsSeen(k);
  }

  lemma UncleanFails(fields: seq<Field>, k: nat)
    requires AllDeclared(fields) && Plain(fields) && k < |fields|
    requires !Skipped(fields[k]) && !CleanName(WireName(fields[k]))
    requires IsRecord(fields, OnlyOne(fields, k))
    ensures !RoundTrips(fields, OnlyOne(fields, k))
  {
    var values := OnlyOne(fields, k);
    var buffer := Encode(fields, values);
    var pieces := Split(buffer, AMPERSAND);
    SplitNoDelimiter(buffer, AMPERSAND);
    if Lookup(pieces, WireName(fields[k])).Some? {
      FoundNamesClean(pieces, WireName(fields[k]));
    }
    if RoundTrips(fields, values) {
      DecodeFromExactly(fields, Zeros(fields), pieces, 0, k);
    }
  }

  /** The first of n fields that is written under a name. */
  lemma {:induction false} FirstHolder(fields: seq<Field>, n: nat, name: Bytes) returns (w: nat)
    requires AllDeclared(fields) && n <= |fields|
    requires exists i :: 0 <= i < n && !Skipped(fields[i]) && WireName(fields[i]) == name
    ensures w < n && !Skipped(fields[w]) && WireName(fields[w]) == name
    ensures forall i :: 0 <= i < w ==> Skipped(fields[i]) || WireName(fields[i]) != name
  {
    if exists i :: 0 <= i < n - 1 && !Skipped(fields[i]) && WireName(fields[i]) == name {
      w := FirstHolder(fields, n - 1, name);
    } else {
      w := n - 1;
    }
  }

  lemma {:induction false} FirstIsHolder(fields: seq<Field>, values: seq<Value>, n: nat, w: nat)
    requires IsRecord(fields, values) && n <= |fields| && w < |fields| && Written(fields[w], values[w])
    requires forall i :: 0 <= i < w ==> Skipped(fields[i]) || WireName(fields[i]) != WireName(fields[w])
    ensures FirstWritten(fields, values, n, WireName(fields[w])) == if w < n then Some(TextOf(values[w])) else None
  {
    if n > 0 {
      FirstIsHolder(fields, values, n - 1, w);
    }
  }

  /** A field that shares its name with another one, written before, takes the other's text. */
  lemma SharedFails(fields: seq<Field>, w: nat, t: nat)
    requires AllDeclared(fields) && Plain(fields) && Clean(fields) && w < |fields| && t < |fields| && w != t
    requires WireName(fields[w]) == WireName(fields[t]) && !Skipped(fields[w])
    requires forall i :: 0 <= i < w ==> Skipped(fields[i]) || WireName(fields[i]) != WireName(fields[w])
    requires IsRecord(fields, OnlyOne(fields, w))
    ensures !RoundTrips(fields, OnlyOne(fields, w))
  {
    var values := OnlyOne(fields, w);
    OneIsSeen(fields[w].kind, fields[t].kind);
    FirstIsHolder(fields, values, |fields|, w);
    var text := Found(fields, values, WireName(fields[w]));
    if RoundTrips(fields, values) {
      DecodeFromExactly(fields, Zeros(fields), Split(Encode(fields, values), AMPERSAND), 0, t);
    }
  }

  lemma NotDistinctFails(fields: seq<Field>)
    requires AllDeclared(fields) && Plain(fields) && Clean(fields) && !Distinct(fields)
    ensures exists values :: IsRecord(fields, values) && !RoundTrips(fields, values)
  {
    var i, j :| 0 <= i < j < |fields| && WireName(fields[i]) == WireName(fields[j])
                && !(Skipped(fields[i]) && Skipped(fields[j]));
    var w := FirstHolder(fields, |fields|, WireName(fields[i]));
    OnlyOneIsRecord(fields, w);
    SharedFails(fields, w, if w == i then j else i);
  }

  /** For integer, boolean and string fields: every record comes back from its form, omitted
      empty fields included and only fields tagged "-" left out, if and only if no written
      name holds a delimiter and no field shares its name with a written one. */
  lemma RoundTripExactly(fields: seq<Field>)
    requires AllDeclared(fields) && Plain(fields)
    ensures (forall values :: IsRecord(fields, values) ==> RoundTrips(fields, values))
            <==> Clean(fields) && Distinct(fields)
  {
    if Clean(fields) && Distinct(fields) {
      forall values | IsRecord(fields, values) ensures RoundTrips(fields, values) {
        CleanDistinctRoundTrips(fields, values);
      }
    } else if !Clean(fields) {
      var k :| 0 <= k < |fields| && !Skipped(fields[k]) && !CleanName(WireName(fields[k]));
      OnlyOneIsRecord(fields, k);
      UncleanFails(fields, k);
    } else {
      NotDistinctFails(fields);
    }
  }
}
