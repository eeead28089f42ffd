/** Frame Streams control frames: their byte form, and the encoder and decoder that move through a buffer. */
module ControlFrames {
  import opened Bytes
  import opened Wrappers

  const ACCEPT := 1
  const START := 2
  const STOP := 3
  const READY := 4
  const FINISH := 5

  const FIELD_CONTENT_TYPE := 1
  const FRAME_LENGTH_MAX := 512
  const CONTENT_TYPE_LENGTH_MAX := 256

  /** `kind` is 0 until it is set. */
  datatype Control = Control(kind: nat, contentTypes: seq<seq<Byte>>)

  predicate KnownKind(kind: nat) {
    ACCEPT <= kind <= FINISH
  }

  /** The content types that a frame of this kind may carry: none, one, or any number. */
  function Normalised(c: Control): seq<seq<Byte>> {
    if c.kind == STOP || c.kind == FINISH then []
    else if c.kind == START && |c.contentTypes| > 1 then c.contentTypes[..1]
    else c.contentTypes
  }

  // ---------------------------------------------------------------------------------------------
  // The byte form
  // ---------------------------------------------------------------------------------------------

  predicate ShortTypes(types: seq<seq<Byte>>) {
    forall i | 0 <= i < |types| :: |types[i]| <= CONTENT_TYPE_LENGTH_MAX
  }

  function Field(t: seq<Byte>): seq<Byte>
    requires |t| <= CONTENT_TYPE_LENGTH_MAX
  {
    Be32(FIELD_CONTENT_TYPE) + Be32(|t|) + t
  }

  function Fields(types: seq<seq<Byte>>): seq<Byte>
    requires ShortTypes(types)
  {
    if types == [] then [] else Field(types[0]) + Fields(types[1..])
  }

  function FieldsSize(types: seq<seq<Byte>>): nat {
    if types == [] then 0 else 8 + |types[0]| + FieldsSize(types[1..])
  }

  function Payload(c: Control): seq<Byte>
    requires c.kind <= FINISH && ShortTypes(Normalised(c))
  {
    Be32(c.kind) + Fields(Normalised(c))
  }

  function FrameSize(c: Control, header: bool): nat {
    (if header then 12 else 4) + FieldsSize(Normalised(c))
  }

  /** Whether the encoder takes a frame: the length limit counts the header too. */
  predicate Encodable(c: Control, header: bool) {
    ShortTypes(Normalised(c)) && FrameSize(c, header) <= FRAME_LENGTH_MAX
  }

  function Frame(c: Control, header: bool): seq<Byte>
    requires c.kind <= FINISH && ShortTypes(Normalised(c)) && FrameSize(c, false) <= FRAME_LENGTH_MAX
  {
    if header then Be32(0) + Be32(FrameSize(c, false)) + Payload(c) else Payload(c)
  }

  // ---------------------------------------------------------------------------------------------
  // Reading it back
  // ---------------------------------------------------------------------------------------------

  function ParseFields(b: seq<Byte>): Option<seq<seq<Byte>>> {
    if b == [] then Some([])
    else if |b| < 8 || FromBe32(b) != FIELD_CONTENT_TYPE then None
    else var n := FromBe32(b[4..]);
      if n < 0 || n > |b| - 8 || n > CONTENT_TYPE_LENGTH_MAX then None
      else match ParseFields(b[8 + n..])
        case None => None
        case Some(rest) => Some([b[8..8 + n]] + rest)
  }

  predicate CountOk(kind: nat, n: nat) {
    (kind == START ==> n <= 1) && (kind == STOP || kind == FINISH ==> n == 0)
  }

  function ParsePayload(b: seq<Byte>): Option<Control> {
    if |b| < 4 || !(ACCEPT <= FromBe32(b) <= FINISH) then None
    else match ParseFields(b[4..])
      case None => None
      case Some(types) => if CountOk(FromBe32(b), |types|) then Some(Control(FromBe32(b), types)) else None
  }

  function Parse(b: seq<Byte>, header: bool): Option<Control> {
    if header then
      if |b| < 8 || FromBe32(b) != 0 || FromBe32(b[4..]) > FRAME_LENGTH_MAX || FromBe32(b[4..]) != |b| - 8 then None
      else ParsePayload(b[8..])
    else if |b| > FRAME_LENGTH_MAX then None
    else ParsePayload(b)
  }

  lemma {:induction false} FieldsLength(types: seq<seq<Byte>>)
    requires ShortTypes(types)
    ensures |Fields(types)| == FieldsSize(types)
  {
    if types != [] {
      FieldsLength(types[1..]);
    }
  }

  /** The encoder's size is the length of the frame. */
  lemma FrameLength(c: Control, header: bool)
    requires c.kind <= FINISH && ShortTypes(Normalised(c)) && FrameSize(c, false) <= FRAME_LENGTH_MAX
    ensures |Frame(c, header)| == FrameSize(c, header)
  {
    FieldsLength(Normalised(c));
  }

  /** A field as bytes: the number 1, how long the content type is, and that. */
  lemma FieldShows(t: seq<Byte>)
    requires |t| <= 256
    ensures var b := Field(t);
            |b| == 8 + |t| && Number(b[..4]) == 1 && Number(b[4..8]) == |t| && b[8..] == t
  {
    hide Be32, Number;
    Be32Is(1);
    Be32Is(|t|);
    var b := Field(t);
    assert b[..4] == Be32(1) && b[4..8] == Be32(|t|) && b[8..] == t;
  }

  /** A frame as bytes: with header, a zero and the length of the rest first; then the number of its kind (1 accept,
      2 start, 3 stop, 4 ready, 5 finish) and a field for each content type: of a start frame at most the first, of a
      stop or finish frame none. */
  lemma FrameShows(c: Control, header: bool)
    requires c.kind <= 5 && ShortTypes(Normalised(c)) && FrameSize(c, false) <= 512
    ensures var b := Frame(c, header); var n := if header then 8 else 0;
            && |b| >= n + 4 && Number(b[n..n + 4]) == c.kind && b[n + 4..] == Fields(Normalised(c))
            && (header ==> Number(b[..4]) == 0 && Number(b[4..8]) == |b| - 8)
    ensures Normalised(c) == if c.kind == 3 || c.kind == 5 then [] else if c.kind == 2 && |c.contentTypes| > 0
                             then [c.contentTypes[0]] else c.contentTypes
  {
    FrameLength(c, header);
    hide Be32, Number, Fields, FieldsSize;
    Be32Is(0);
    Be32Is(c.kind);
    Be32Is(FrameSize(c, false));
    var b := Frame(c, header);
    if header {
      assert b[..4] == Be32(0) && b[4..8] == Be32(FrameSize(c, false)) && b[8..12] == Be32(c.kind);
      assert b[12..] == Fields(Normalised(c));
    } else {
      assert b[0..4] == Be32(c.kind) && b[4..] == Fields(Normalised(c));
    }
  }

  /** The limits: 256 bytes for a content type, and 512 for a frame, which for the encoder counts the header too. */
  lemma EncodableIff(c: Control, header: bool)
    requires c.kind <= 5
    ensures Encodable(c, header) <==>
              && (forall i | 0 <= i < |Normalised(c)| :: |Normalised(c)[i]| <= 256)
              && (if header then 12 else 4) + FieldsSize(Normalised(c)) <= 512
  {
  }

  lemma FieldParts(t: seq<Byte>, rest: seq<Byte>)
    requires |t| <= CONTENT_TYPE_LENGTH_MAX
    ensures var b := Field(t) + rest;
            && |b| == 8 + |t| + |rest| && FromBe32(b) == FIELD_CONTENT_TYPE && FromBe32(b[4..]) == |t|
            && b[8..8 + |t|] == t && b[8 + |t|..] == rest
  {
    var b := Field(t) + rest;
    hide Be32, FromBe32;
    Be32Length(FIELD_CONTENT_TYPE);
    Be32Length(|t|);
    assert b == Be32(FIELD_CONTENT_TYPE) + (Be32(|t|) + t + rest);
    assert b[4..] == Be32(|t|) + (t + rest);
    Be32RoundTrip(FIELD_CONTENT_TYPE, Be32(|t|) + t + rest);
    Be32RoundTrip(|t|, t + rest);
  }

  /** A field is read back whatever follows it. */
  lemma ParseOfField(t: seq<Byte>, rest: seq<Byte>)
    requires |t| <= CONTENT_TYPE_LENGTH_MAX && ParseFields(rest).Some?
    ensures ParseFields(Field(t) + rest) == Some([t] + ParseFields(rest).value)
  {
    hide FromBe32, Field;
    FieldParts(t, rest);
  }

  lemma {:induction false} ParseOfFields(types: seq<seq<Byte>>)
    requires ShortTypes(types)
    ensures ParseFields(Fields(types)) == Some(types)
  {
    hide Field;
    if types != [] {
      ParseOfFields(types[1..]);
      ParseOfField(types[0], Fields(types[1..]));
      assert types == [types[0]] + types[1..];
    }
  }

  lemma Be32Length(v: int)
    requires 0 <= v < 0x1_0000_0000
    ensures |Be32(v)| == 4
  {
  }

  lemma FirstField(b: seq<Byte>, n: nat)
    requires |b| >= 8 && FromBe32(b) == FIELD_CONTENT_TYPE && n == FromBe32(b[4..]) && n <= |b| - 8
    requires n <= CONTENT_TYPE_LENGTH_MAX
    ensures Field(b[8..8 + n]) + b[8 + n..] == b
  {
    hide Be32, FromBe32;
    FromBe32RoundTrip(b);
    FromBe32RoundTrip(b[4..]);
    assert b == b[..4] + b[4..][..4] + b[8..8 + n] + b[8 + n..];
  }

  lemma {:induction false} FieldsOfParse(b: seq<Byte>)
    requires ParseFields(b).Some?
    ensures ShortTypes(ParseFields(b).value) && Fields(ParseFields(b).value) == b
  {
    hide Be32, FromBe32;
    if b != [] {
      var n := FromBe32(b[4..]);
      var types := ParseFields(b).value;
      FieldsOfParse(b[8 + n..]);
      assert types[1..] == ParseFields(b[8 + n..]).value && types[0] == b[8..8 + n];
      FirstField(b, n);
    }
  }

  lemma PayloadParses(c: Control)
    requires KnownKind(c.kind) && ShortTypes(Normalised(c))
    ensures ParsePayload(Payload(c)) == Some(Control(c.kind, Normalised(c)))
  {
    hide Be32, FromBe32, Fields, ParseFields;
    var types := Normalised(c);
    Be32Length(c.kind);
    Be32RoundTrip(c.kind, Fields(types));
    assert Payload(c)[4..] == Fields(types);
    ParseOfFields(types);
  }

  lemma PayloadOfParse(b: seq<Byte>)
    requires ParsePayload(b).Some?
    ensures var c := ParsePayload(b).value;
            KnownKind(c.kind) && c.contentTypes == Normalised(c) && ShortTypes(c.contentTypes) && Payload(c) == b
  {
    hide Be32, FromBe32, Fields, ParseFields;
    FieldsOfParse(b[4..]);
    FromBe32RoundTrip(b);
    assert b == b[..4] + b[4..];
  }

  // ---------------------------------------------------------------------------------------------
  // Round trips
  // ---------------------------------------------------------------------------------------------

  lemma DecodeOfFrame(c: Control, header: bool)
    requires KnownKind(c.kind) && ShortTypes(Normalised(c)) && FrameSize(c, false) <= FRAME_LENGTH_MAX
    ensures Parse(Frame(c, header), header) == Some(Control(c.kind, Normalised(c)))
  {
    hide Be32, FromBe32, Payload, ParsePayload;
    PayloadParses(c);
    FrameLength(c, false);
    if header {
      var b := Frame(c, true);
      var n := FrameSize(c, false);
      Be32Length(0);
      Be32Length(n);
      assert b == Be32(0) + (Be32(n) + Payload(c));
      Be32RoundTrip(0, Be32(n) + Payload(c));
      Be32RoundTrip(n, Payload(c));
      assert b[4..] == Be32(n) + Payload(c) && b[8..] == Payload(c);
    }
  }

  /** Decoding an encoded frame gives its kind and the content types that kind may carry. */
  lemma DecodeOfEncode(c: Control, header: bool)
    requires KnownKind(c.kind) && Encodable(c, header)
    ensures Parse(Frame(c, header), header) == Some(Control(c.kind, Normalised(c)))
  {
    DecodeOfFrame(c, header);
  }

  /** What the decoder accepts is the byte form of what it returns; without header it can always be encoded again, with
      header exactly if the whole frame is within the encoder's limit. */
  lemma EncodeOfDecode(b: seq<Byte>, header: bool)
    requires Parse(b, header).Some?
    ensures var c := Parse(b, header).value;
            && KnownKind(c.kind) && c.contentTypes == Normalised(c) && ShortTypes(c.contentTypes)
            && FrameSize(c, false) <= FRAME_LENGTH_MAX && Frame(c, header) == b
            && (Encodable(c, header) <==> |b| <= FRAME_LENGTH_MAX)
  {
    hide Be32, FromBe32, Payload, ParsePayload;
    var c := Parse(b, header).value;
    PayloadOfParse(if header then b[8..] else b);
    PayloadLength(c);
    if header {
      FromBe32RoundTrip(b);
      FromBe32RoundTrip(b[4..]);
      assert b == b[..4] + b[4..][..4] + b[8..];
    }
    FrameLength(c, header);
  }

  lemma PayloadLength(c: Control)
    requires c.kind <= FINISH && ShortTypes(Normalised(c))
    ensures |Payload(c)| == FrameSize(c, false)
  {
    FieldsLength(Normalised(c));
  }

  function Zeros(n: nat): seq<Byte> {
    seq(n, _ => 0)
  }

  /** The two limits differ: this frame with header is decoded, and what it holds cannot be encoded with header. */
  lemma LongHeaderFrame()
    ensures var c := Control(READY, [Zeros(256), Zeros(232)]);
            && ShortTypes(Normalised(c)) && FrameSize(c, false) <= FRAME_LENGTH_MAX
            && Parse(Frame(c, true), true) == Some(c) && !Encodable(c, true) && Encodable(c, false)
  {
    var c := Control(READY, [Zeros(256), Zeros(232)]);
    FieldsSizeTwo(Zeros(256), Zeros(232));
    DecodeOfFrame(c, true);
  }

  lemma FieldsSizeTwo(s: seq<Byte>, t: seq<Byte>)
    ensures FieldsSize([s, t]) == 16 + |s| + |t|
  {
    var none: seq<seq<Byte>> := [];
    assert [s, t][1..] == [t] && [t][1..] == none;
    assert FieldsSize(none) == 0 && FieldsSize([t]) == 8 + |t|;
  }

  // ---------------------------------------------------------------------------------------------
  // Cursors: `pos` moves forward as `len`, the bytes left, goes down
  // ---------------------------------------------------------------------------------------------

  method LoadBe32(b: seq<Byte>, pos: nat, len: nat) returns (ok: bool, val: nat, pos': nat, len': nat)
    requires pos + len == |b|
    ensures ok <==> len >= 4
    ensures if ok then val == FromBe32(b[pos..]) && pos' == pos + 4 else pos' == pos
    ensures pos' + len' == |b|
  {
    ok, val, pos', len' := false, 0, pos, len;
    if len < 4 {
      return;
    }
    FromBe32RoundTrip(b[pos..]);
    val := FromBe32(b[pos..pos + 4]);
    assert val == FromBe32(b[pos..]);
    ok, pos', len' := true, pos + 4, len - 4;
  }

  method LoadBytes(n: nat, b: seq<Byte>, pos: nat, len: nat) returns (ok: bool, bytes: seq<Byte>, pos': nat, len': nat)
    requires pos + len == |b|
    ensures ok <==> n <= len
    ensures if ok then bytes == b[pos..pos + n] && pos' == pos + n else pos' == pos
    ensures pos' + len' == |b|
  {
    ok, bytes, pos', len' := false, [], pos, len;
    if len < n {
      return;
    }
    ok, bytes, pos', len' := true, b[pos..pos + n], pos + n, len - n;
  }

  method StoreBytes(buf: array<Byte>, pos: nat, len: nat, bytes: seq<Byte>) returns (ok: bool, pos': nat, len': nat)
    requires pos + len <= buf.Length
    modifies buf
    ensures ok <==> |bytes| <= len
    ensures if ok then pos' == pos + |bytes| else pos' == pos && buf[..] == old(buf[..])
    ensures pos' + len' == pos + len && pos' <= buf.Length
    ensures ok ==> buf[..pos'] == old(buf[..pos]) + bytes && buf[pos'..] == old(buf[pos'..])
  {
    ok, pos', len' := false, pos, len;
    if len < |bytes| {
      return;
    }
    var i := 0;
    while i < |bytes|
      invariant i <= |bytes| && buf[..pos + i] == old(buf[..pos]) + bytes[..i] && buf[pos + i..] == old(buf[pos + i..])
    {
      buf[pos + i] := bytes[i];
      assert buf[..pos + i + 1] == buf[..pos + i] + [bytes[i]];
      assert buf[pos + i + 1..] == old(buf[pos + i..])[1..];
      i := i + 1;
    }
    assert bytes[..i] == bytes;
    ok, pos', len' := true, pos + |bytes|, len - |bytes|;
  }

  method StoreBe32(buf: array<Byte>, pos: nat, len: nat, val: nat) returns (ok: bool, pos': nat, len': nat)
    requires pos + len <= buf.Length && val < 0x1_0000_0000
    modifies buf
    ensures ok <==> 4 <= len
    ensures if ok then pos' == pos + 4 else pos' == pos && buf[..] == old(buf[..])
    ensures pos' + len' == pos + len && pos' <= buf.Length
    ensures ok ==> buf[..pos'] == old(buf[..pos]) + Be32(val) && buf[pos'..] == old(buf[pos'..])
  {
    ok, pos', len' := StoreBytes(buf, pos, len, Be32(val));
  }
}
