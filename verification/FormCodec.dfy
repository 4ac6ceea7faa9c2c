/** The form serializer (microsvc/serializers/urlencodeserializer.go): a record as name=value
    pairs joined by &, the format of section 17.13.4.1 of HTML 4.01. */
module FormCodec {
  import opened Options
  import opened UrlText

  /** The integer widths; int and uint are 64 bits wide. */
  datatype Width = W8 | W16 | W32 | W64

  datatype Kind = IntKind(width: Width) | UintKind(width: Width) | StringKind | BoolKind | OtherKind

  /** A struct field: its name, its `form` tag ("" without one) and its type. */
  datatype Field = Field(name: Bytes, tag: Bytes, kind: Kind)

  datatype Value = Int(n: int) | Uint(u: nat) | Str(s: Bytes) | Bool(b: bool) | Other(id: int)

  function Half(w: Width): int {
    match w
    case W8 => 0x80
    case W16 => 0x8000
    case W32 => 0x8000_0000
    case W64 => 0x8000_0000_0000_0000
  }

  /** A 64-bit number as stored in a field of that width: the low bits, read with a sign. */
  function WrapInt(n: int, w: Width): int {
    (n + Half(w)) % (2 * Half(w)) - Half(w)
  }

  function WrapUint(n: int, w: Width): nat {
    n % (2 * Half(w))
  }

  predicate Declared(f: Field) {
    f.name != []
  }

  predicate AllDeclared(fields: seq<Field>) {
    forall i :: 0 <= i < |fields| ==> Declared(fields[i])
  }

  predicate Fits(k: Kind, v: Value) {
    match k
    case IntKind(width) => v.Int? && -Half(width) <= v.n < Half(width)
    case UintKind(width) => v.Uint? && v.u < 2 * Half(width)
    case StringKind => v.Str?
    case BoolKind => v.Bool?
    case OtherKind => v.Other?
  }

  predicate IsRecord(fields: seq<Field>, values: seq<Value>) {
    && |fields| == |values| && AllDeclared(fields)
    && forall i :: 0 <= i < |fields| ==> Fits(fields[i].kind, values[i])
  }

  function Zero(k: Kind): Value {
    match k
    case IntKind(_) => Int(0)
    case UintKind(_) => Uint(0)
    case StringKind => Str([])
    case BoolKind => Bool(false)
    case OtherKind => Other(0)
  }

  function Zeros(fields: seq<Field>): (values: seq<Value>)
    ensures |values| == |fields|
  {
    seq(|fields|, i requires 0 <= i < |fields| => Zero(fields[i].kind))
  }

  // ---------------------------------------------------------------------------
  // Names
  // ---------------------------------------------------------------------------

  const DASH: Bytes := [MINUS]

  /** ",omitempty" */
  const OMITEMPTY: Bytes := [0x2c, 0x6f, 0x6d, 0x69, 0x74, 0x65, 0x6d, 0x70, 0x74, 0x79]

  function Until(s: Bytes, sep: Byte): Bytes {
    if s == [] || s[0] == sep then [] else [s[0]] + Until(s[1..], sep)
  }

  /** Lower case of a one-byte string; a byte above ASCII is no character by itself and
      becomes the replacement character. */
  function ToLower(c: Byte): Bytes {
    if 0x41 <= c <= 0x5a then [c + 0x20] else if c < 0x80 then [c] else [0xef, 0xbf, 0xbd]
  }

  function WireName(f: Field): Bytes
    requires f.name != []
  {
    if f.tag == [] then ToLower(f.name[0]) + f.name[1..] else Until(f.tag, COMMA)
  }

  predicate OmitsEmpty(f: Field) {
    |f.tag| >= |OMITEMPTY| && f.tag[|f.tag| - |OMITEMPTY|..] == OMITEMPTY
  }

  predicate Skipped(f: Field) {
    f.tag == DASH
  }

  // ---------------------------------------------------------------------------
  // Encoding
  // ---------------------------------------------------------------------------

  function TextOf(v: Value): Bytes {
    match v
    case Int(n) => FormatInt(n)
    case Uint(u) => Digits(u)
    case Str(s) => s
    case Bool(b) => if b then TRUE else FALSE
    case Other(_) => []
  }

  predicate Written(f: Field, v: Value) {
    !Skipped(f) && !(OmitsEmpty(f) && TextOf(v) == [])
  }

  function Piece(f: Field, v: Value): Bytes
    requires f.name != []
  {
    WireName(f) + [EQUALS] + Escape(TextOf(v))
  }

  /** The pieces of the first n fields. */
  function Pieces(fields: seq<Field>, values: seq<Value>, n: nat): seq<Bytes>
    requires IsRecord(fields, values) && n <= |fields|
  {
    if n == 0 then []
    else
      Pieces(fields, values, n - 1)
      + if Written(fields[n - 1], values[n - 1]) then [Piece(fields[n - 1], values[n - 1])] else []
  }

  function Encode(fields: seq<Field>, values: seq<Value>): Bytes
    requires IsRecord(fields, values)
  {
    Join(Pieces(fields, values, |fields|), AMPERSAND)
  }

  method MarshalURLEncode(fields: seq<Field>, values: seq<Value>) returns (buffer: Bytes)
    requires IsRecord(fields, values)
    ensures buffer == Encode(fields, values)
  {
    var paramPieces: seq<Bytes> := [];
    for i := 0 to |fields|
      invariant paramPieces == Pieces(fields, values, i)
    {
      var ft, fv := fields[i], values[i];
      var tagValue := ft.tag;
      var isOmitempty := false;
      if tagValue == [] {
        tagValue := ToLower(ft.name[0]) + ft.name[1..];
      } else if tagValue == DASH {
        continue;
      } else {
        isOmitempty := OmitsEmpty(ft);
        tagValue := Until(tagValue, COMMA);
      }
      var val := TextOf(fv);
      if isOmitempty && val == [] {
        continue;
      }
      paramPieces := paramPieces + [tagValue + [EQUALS] + Escape(val)];
    }
    buffer := Join(paramPieces, AMPERSAND);
  }

  // ---------------------------------------------------------------------------
  // Decoding
  // ---------------------------------------------------------------------------

  function PieceName(piece: Bytes): Bytes {
    Split(piece, EQUALS)[0]
  }

  function PieceText(piece: Bytes): Bytes {
    var parts := Split(piece, EQUALS);
    if |parts| > 1 then Decode(parts[1]) else []
  }

  /** The text of the first piece with a name. */
  function Lookup(pieces: seq<Bytes>, name: Bytes): Option<Bytes> {
    if pieces == [] then None
    else
      var front, last := Lookup(pieces[..|pieces| - 1], name), pieces[|pieces| - 1];
      if front.Some? then front else if PieceName(last) == name then Some(PieceText(last)) else None
  }

  /** The field after decoding, given its old value and the text found for it; none on error. */
  function SetField(k: Kind, was: Value, text: Option<Bytes>): Option<Value> {
    if text.None? then Some(was)
    else
      match k
      case IntKind(width) =>
        if ParseInt(text.value).None? then None
        else Some(Int(WrapInt(ParseInt(text.value).value, width)))
      case UintKind(width) =>
        if ParseUint(text.value).None? then None
        else Some(Uint(WrapUint(ParseUint(text.value).value, width)))
      case StringKind => Some(Str(text.value))
      case BoolKind => Some(Bool(ToBoolean(text.value)))
      case OtherKind => Some(was)
  }

  /** The record after decoding, and the field whose text was no number, where decoding stopped. */
  datatype Decoded = Decoded(values: seq<Value>, failed: Option<nat>)

  function DecodeFrom(fields: seq<Field>, values: seq<Value>, pieces: seq<Bytes>, i: nat): Decoded
    requires |fields| == |values| && i <= |fields| && AllDeclared(fields)
    decreases |fields| - i
  {
    if i == |fields| then Decoded(values, None)
    else
      assert Declared(fields[i]);
      var v := SetField(fields[i].kind, values[i], Lookup(pieces, WireName(fields[i])));
      if v.None? then Decoded(values, Some(i)) else DecodeFrom(fields, values[i := v.value], pieces, i + 1)
  }

  function DecodeForm(fields: seq<Field>, values: seq<Value>, buffer: Bytes): Decoded
    requires |fields| == |values| && AllDeclared(fields)
  {
    DecodeFrom(fields, values, Split(buffer, AMPERSAND), 0)
  }

  method ConvertText(kind: Kind, was: Value, val: Bytes) returns (value: Option<Value>)
    ensures value == SetField(kind, was, Some(val))
  {
    match kind {
      case IntKind(width) =>
        var iv := ParseInt(val);
        if iv.None? {
          return None;
        }
        value := Some(Int(WrapInt(iv.value, width)));
      case UintKind(width) =>
        var iv := ParseUint(val);
        if iv.None? {
          return None;
        }
        value := Some(Uint(WrapUint(iv.value, width)));
      case StringKind =>
        value := Some(Str(val));
      case BoolKind =>
        value := Some(Bool(ToBoolean(val)));
      case OtherKind =>
        value := Some(was);
    }
  }

  /** Fields before a bad number are already set when the error is returned. */
  method UnmarshalURLEncode(buffer: Bytes, fields: seq<Field>, payload: array<Value>) returns (failed: Option<nat>)
    requires payload.Length == |fields| && AllDeclared(fields)
    modifies payload
    ensures DecodeForm(fields, old(payload[..]), buffer) == Decoded(payload[..], failed)
  {
    var paramPieces := Split(buffer, AMPERSAND);
    var values := CollectValues(paramPieces);
    ghost var was := payload[..];
    for i := 0 to |fields|
      invariant DecodeFrom(fields, was, paramPieces, 0) == DecodeFrom(fields, payload[..], paramPieces, i)
    {
      var ft := fields[i];
      var tagValue := ft.tag;
      if tagValue == [] {
        tagValue := ToLower(ft.name[0]) + ft.name[1..];
      } else {
        tagValue := Until(tagValue, COMMA);
      }
      if tagValue in values {
        var val := ConvertText(ft.kind, payload[i], values[tagValue][0]);
        if val.None? {
          return Some(i);
        }
        ghost var before := payload[..];
        payload[i] := val.value;
        assert payload[..] == before[i := val.value];
      } else {
        assert payload[..] == payload[..][i := payload[i]];
      }
    }
    failed := None;
  }

  /** The values of each name, in order. */
  method CollectValues(paramPieces: seq<Bytes>) returns (values: map<Bytes, seq<Bytes>>)
    ensures forall name :: name in values <==> Lookup(paramPieces, name).Some?
    ensures forall name :: name in values ==> values[name] != [] && Lookup(paramPieces, name) == Some(values[name][0])
  {
    values := map[];
    for i := 0 to |paramPieces|
      invariant forall name :: name in values <==> Lookup(paramPieces[..i], name).Some?
      invariant forall name :: name in values ==> values[name] != [] && Lookup(paramPieces[..i], name) == Some(values[name][0])
    {
      var parts := Split(paramPieces[i], EQUALS);
      var name := parts[0];
      var val: Bytes := [];
      if |parts| > 1 {
        val := Decode(parts[1]);
      }
      assert paramPieces[..i + 1][..i] == paramPieces[..i];
      if name in values {
        values := values[name := values[name] + [val]];
      } else {
        values := values[name := [val]];
      }
    }
    assert paramPieces[..|paramPieces|] == paramPieces;
  }
}
