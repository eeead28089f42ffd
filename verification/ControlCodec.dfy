/** The control frame object with its decoder and encoder. */
module ControlCodec {
  import opened Bytes
  import opened ControlFrames
  import opened Wrappers

  /** Reads one field. */
  method LoadField(b: seq<Byte>, pos: nat, len: nat) returns (ok: bool, t: seq<Byte>, pos': nat, len': nat)
    requires pos + len == |b| && len > 0
    ensures pos' + len' == |b|
    ensures if ok then pos < pos' && ParseFields(b[pos..]) == Prepended([t], ParseFields(b[pos'..]))
            else ParseFields(b[pos..]).None?
  {
    hide FromBe32;
    var rest := b[pos..];
    t := [];
    var val;
    ok, val, pos', len' := LoadBe32(b, pos, len);
    if !ok || val != FIELD_CONTENT_TYPE {
      ok := false;
      return;
    }
    assert rest[4..] == b[pos'..];
    ok, val, pos', len' := LoadBe32(b, pos', len');
    if !ok || val > len' || val > CONTENT_TYPE_LENGTH_MAX {
      ok := false;
      return;
    }
    assert rest[8 + val..] == b[pos' + val..] && rest[8..8 + val] == b[pos'..pos' + val];
    ok, t, pos', len' := LoadBytes(val, b, pos', len');
  }

  lemma {:induction false} FieldsAppend(types: seq<seq<Byte>>, t: seq<Byte>)
    requires ShortTypes(types) && |t| <= CONTENT_TYPE_LENGTH_MAX
    ensures ShortTypes(types + [t]) && Fields(types + [t]) == Fields(types) + Field(t)
  {
    hide Field;
    if types == [] {
      assert [t][1..] == types && types + [t] == [t];
      assert Fields([t]) == Field(t) + [];
    } else {
      FieldsAppend(types[1..], t);
      assert (types + [t])[1..] == types[1..] + [t];
      assert Field(types[0]) + (Fields(types[1..]) + Field(t)) == Field(types[0]) + Fields(types[1..]) + Field(t);
    }
  }

  lemma {:induction false} FieldsSizeAppend(types: seq<seq<Byte>>, t: seq<Byte>)
    ensures FieldsSize(types + [t]) == FieldsSize(types) + 8 + |t|
  {
    if types == [] {
      assert [t][1..] == types && types + [t] == [t];
    } else {
      FieldsSizeAppend(types[1..], t);
      assert (types + [t])[1..] == types[1..] + [t];
    }
  }

  lemma {:induction false} FieldsSizePrefix(types: seq<seq<Byte>>, i: nat)
    requires i <= |types|
    ensures FieldsSize(types[..i]) <= FieldsSize(types)
  {
    if i > 0 {
      FieldsSizePrefix(types[1..], i - 1);
      assert types[..i][1..] == types[1..][..i - 1];
    }
  }

  lemma ShortPrefix(types: seq<seq<Byte>>, i: nat)
    requires i < |types| && ShortTypes(types)
    ensures ShortTypes(types[..i]) && types[..i + 1] == types[..i] + [types[i]] && |types[i]| <= CONTENT_TYPE_LENGTH_MAX
  {
  }

  /** The escape and the length of what follows. */
  method StoreHeader(buf: array<Byte>, size: nat, header: bool) returns (pos: nat, len: nat)
    requires size <= buf.Length && (if header then 8 else 0) <= size < 0x1_0000_0000
    modifies buf
    ensures pos == (if header then 8 else 0) && pos + len == size
    ensures buf[..pos] == (if header then Be32(0) + Be32(size - 8) else []) && buf[size..] == old(buf[size..])
  {
    hide Be32;
    ghost var after := buf[size..];
    pos, len := 0, size;
    if header {
      var ok;
      ok, pos, len := StoreBe32(buf, pos, len, 0);
      assert buf[size..] == buf[4..][size - 4..] == after;
      ok, pos, len := StoreBe32(buf, pos, len, size - 8);
      assert buf[size..] == buf[8..][size - 8..] == after;
      assert buf[..8] == [] + Be32(0) + Be32(size - 8);
    }
  }

  method StoreField(buf: array<Byte>, pos: nat, len: nat, t: seq<Byte>) returns (pos': nat, len': nat)
    requires pos + len <= buf.Length && |t| <= CONTENT_TYPE_LENGTH_MAX && 8 + |t| <= len
    modifies buf
    ensures pos' == pos + 8 + |t| && pos' + len' == pos + len
    ensures buf[..pos'] == old(buf[..pos]) + Field(t) && buf[pos'..] == old(buf[pos'..])
  {
    hide Be32;
    ghost var before, after := buf[..pos], buf[pos + 8 + |t|..];
    var ok;
    ok, pos', len' := StoreBe32(buf, pos, len, FIELD_CONTENT_TYPE);
    assert buf[pos + 8 + |t|..] == buf[pos + 4..][4 + |t|..] == after;
    ok, pos', len' := StoreBe32(buf, pos', len', |t|);
    assert buf[pos + 8 + |t|..] == buf[pos + 8..][|t|..] == after;
    ok, pos', len' := StoreBytes(buf, pos', len', t);
    assert buf[..pos'] == before + (Be32(FIELD_CONTENT_TYPE) + Be32(|t|) + t);
  }

  lemma NoFields(types: seq<seq<Byte>>)
    ensures types[..0] == [] && Fields([]) == [] && FieldsSize([]) == 0
  {
  }

  class ControlFrame {
    var kind: nat
    var contentTypes: seq<seq<Byte>>

    constructor ()
      ensures View() == Control(0, [])
    {
      kind, contentTypes := 0, [];
    }

    function View(): Control
      reads this
    {
      Control(kind, contentTypes)
    }

    /** Accepts exactly the byte forms of frames, and then holds the frame. */
    method Decode(frame: seq<Byte>, header: bool) returns (ok: bool)
      modifies this
      ensures ok <==> Parse(frame, header).Some?
      ensures ok ==> View() == Parse(frame, header).value
    {
      hide FromBe32, ParseFields;
      kind, contentTypes := 0, [];
      var pos, len := 0, |frame|;
      var val;
      assert frame[0..] == frame;
      if header {
        ok, val, pos, len := LoadBe32(frame, pos, len);
        if !ok || val != 0 {
          return false;
        }
        ok, val, pos, len := LoadBe32(frame, pos, len);
        if !ok || val > FRAME_LENGTH_MAX || val != len {
          return false;
        }
      } else if |frame| > FRAME_LENGTH_MAX {
        return false;
      }
      ghost var payload := frame[pos..];
      ok, val, pos, len := LoadBe32(frame, pos, len);
      if !ok || !(ACCEPT <= val <= FINISH) {
        return false;
      }
      kind := val;
      assert payload[4..] == frame[pos..];
      ok := DecodeFields(frame, pos, len);
      if !ok || (kind == START && |contentTypes| > 1) || ((kind == STOP || kind == FINISH) && |contentTypes| > 0) {
        return false;
      }
      return true;
    }

    /** Reads fields up to the end. */
    method DecodeFields(b: seq<Byte>, start: nat, size: nat) returns (ok: bool)
      requires start + size == |b| && contentTypes == []
      modifies this`contentTypes
      ensures ok <==> ParseFields(b[start..]).Some?
      ensures ok ==> contentTypes == ParseFields(b[start..]).value
    {
      var pos, len := start, size;
      ghost var all := ParseFields(b[start..]);
      if all.Some? {
        assert [] + all.value == all.value;
      }
      while len > 0
        invariant start <= pos && pos + len == |b| && all == Prepended(contentTypes, ParseFields(b[pos..]))
        decreases len
      {
        hide ParseFields;
        var t;
        ghost var before := pos;
        ok, t, pos, len := LoadField(b, pos, len);
        if !ok {
          return false;
        }
        PrependedNext(contentTypes, t, ParseFields(b[pos..]));
        contentTypes := contentTypes + [t];
      }
      assert b[pos..] == [] && contentTypes + [] == contentTypes;
      return true;
    }

    method EncodedSize(header: bool) returns (ok: bool, len: nat)
      ensures ok <==> Encodable(View(), header)
      ensures ok ==> len == FrameSize(View(), header)
    {
      hide FieldsSize;
      ok, len := true, 0;
      if header {
        len := len + 4;
        len := len + 4;
      }
      len := len + 4;
      ghost var types := Normalised(View());
      ghost var start := len;
      var i := 0;
      NoFields(types);
      while i < |contentTypes|
        invariant i <= |types| && ShortTypes(types[..i]) && len == start + FieldsSize(types[..i])
        invariant kind == START ==> i == 0
      {
        if kind == STOP || kind == FINISH {
          break;
        }
        FieldsSizeAppend(types[..i], types[i]);
        assert types[..i + 1] == types[..i] + [types[i]];
        len := len + 4;
        len := len + 4;
        if |contentTypes[i]| > CONTENT_TYPE_LENGTH_MAX {
          ok := false;
          return;
        }
        len := len + |contentTypes[i]|;
        i := i + 1;
        if kind == START {
          break;
        }
      }
      assert types[..i] == types;
      if len > FRAME_LENGTH_MAX {
        ok := false;
      }
    }

    /** Writes the whole frame, and no byte beyond it, or nothing. */
    method Encode(buf: array<Byte>, size: nat, header: bool) returns (ok: bool, size': nat)
      requires size <= buf.Length && kind <= FINISH
      modifies buf
      ensures ok <==> Encodable(View(), header) && FrameSize(View(), header) <= size
      ensures ok ==> size' == FrameSize(View(), header)
      ensures ok ==> size' <= buf.Length && buf[..size'] == Frame(View(), header) && buf[size'..] == old(buf[size'..])
      ensures !ok ==> buf[..] == old(buf[..]) && size' == size
    {
      hide Be32, Fields, FieldsSize;
      size' := size;
      var encodedSize;
      ok, encodedSize := EncodedSize(header);
      if !ok {
        return;
      }
      if size < encodedSize {
        ok := false;
        return;
      }
      FrameLength(View(), header);
      FieldsLength(Normalised(View()));
      var pos, len := StoreHeader(buf, encodedSize, header);
      ghost var head := buf[..pos];
      ok, pos, len := StoreBe32(buf, pos, len, kind);
      assert buf[encodedSize..] == buf[pos..][encodedSize - pos..];
      pos := StoreFields(buf, pos, len);
      assert buf[..pos] == head + Be32(kind) + Fields(Normalised(View()));
      assert buf[..pos] == Frame(View(), header);
      ok, size' := true, encodedSize;
    }

    method StoreFields(buf: array<Byte>, start: nat, size: nat) returns (pos: nat)
      requires start + size <= buf.Length && ShortTypes(Normalised(View())) && FieldsSize(Normalised(View())) == size
      modifies buf
      ensures pos == start + size && buf[..pos] == old(buf[..start]) + Fields(Normalised(View()))
      ensures buf[pos..] == old(buf[pos..])
    {
      hide Fields, FieldsSize;
      ghost var types := Normalised(View());
      ghost var before := buf[..start];
      var len := size;
      pos := start;
      var i := 0;
      NoFields(types);
      while i < |contentTypes|
        invariant i <= |types| && ShortTypes(types[..i]) && pos + len == start + size && pos <= buf.Length
        invariant pos == start + FieldsSize(types[..i]) && buf[..pos] == before + Fields(types[..i])
        invariant buf[pos..] == old(buf[pos..])
        invariant kind == START ==> i == 0
      {
        if kind == STOP || kind == FINISH {
          break;
        }
        ShortPrefix(types, i);
        FieldsAppend(types[..i], types[i]);
        FieldsSizeAppend(types[..i], types[i]);
        FieldsSizePrefix(types, i + 1);
        pos, len := StoreField(buf, pos, len, contentTypes[i]);
        i := i + 1;
        if kind == START {
          break;
        }
      }
      assert types[..i] == types;
    }
  }
}
