/** What decoding a name gives on any bytes at all, told by the labels that stand there and by what stops them. */
module DnsReading {
  import opened Bytes
  import opened DnsNames

  // ---------------------------------------------------------------------------------------------
  // Pointers, by the number they hold
  // ---------------------------------------------------------------------------------------------

  /** The two bytes at `off` are a pointer to `t`: two set bits, and fourteen that hold it. */
  predicate PointerAt(data: seq<Byte>, off: nat, t: nat) {
    off + 2 <= |data| && t < 0x4000 && data[off] == 0xC0 + t / 256 && data[off + 1] == t % 256
  }

  lemma TargetIs(data: seq<Byte>, off: nat, t: nat)
    requires PointerAt(data, off, t)
    ensures PointerTarget(data[off], data[off + 1]) == t
  {
  }

  /** Any two bytes of which the first is at least 192 are a pointer to some number. */
  lemma EveryPointer(data: seq<Byte>, off: nat) returns (t: nat)
    requires off + 2 <= |data| && data[off] >= 0xC0
    ensures PointerAt(data, off, t)
  {
    var hi: int, lo: int := data[off], data[off + 1];
    t := (hi - 0xC0) * 256 + lo;
    assert t / 256 == hi - 0xC0;
  }

  /** A pointer to itself is followed until the depth runs out: it is two bytes long and names nothing. */
  lemma {:induction false} PointerToItself(data: seq<Byte>, off: nat, depth: nat)
    requires 12 <= off && PointerAt(data, off, off) && depth <= MAX_DEPTH
    ensures DecodeName(data, off, depth) == Decoded(2, [])
    decreases MAX_DEPTH - depth
  {
    TargetIs(data, off, off);
    if depth < MAX_DEPTH {
      PointerToItself(data, off, depth + 1);
    }
    assert DecodeName(data, off, depth + 1).text == [];
    assert [] + Limited([], 0) == [];
  }

  /** Beyond the twentieth pointer there is no name. */
  lemma TooDeep(data: seq<Byte>, off: nat, depth: nat)
    requires depth > 20
    ensures DecodeName(data, off, depth) == Decoded(0, [])
  {
  }

  // ---------------------------------------------------------------------------------------------
  // Labels, up to where they stop
  // ---------------------------------------------------------------------------------------------

  /** `r` is `s` up to its first zero. */
  predicate UpToZero(r: Text, s: Text) {
    r <= s && 0 !in r && (|r| < |s| ==> s[|r|] == 0)
  }

  lemma {:induction false} CStringIs(s: Text)
    ensures UpToZero(CString(s), s)
  {
    if s != [] && s[0] != 0 {
      CStringIs(s[1..]);
    }
  }

  /** After `used` bytes, no label can be read at `e`: there is nothing more, a zero, a pointer, or a label that is too
      long for the message or for 255 bytes. */
  predicate Stops(data: seq<Byte>, e: nat, used: nat) {
    e >= |data| || data[e] == 0 || data[e] >= 0xC0 || e + 1 + data[e] > |data| || used + data[e] > 255
  }

  /** From `off`, the labels stand, and no other can follow them. */
  predicate Stand(data: seq<Byte>, off: nat, used: nat, labels: seq<Text>) {
    var w := Wire(labels);
    && Sized(labels) && used + |w| <= 256 && off + |w| <= |data| && data[off..off + |w|] == w
    && Stops(data, off + |w|, used + |w|)
  }

  lemma StandNext(data: seq<Byte>, off: nat, used: nat, l: Text, rest: seq<Text>)
    requires 1 <= |l| <= 191 && off + 1 + |l| <= |data| && data[off] == |l| && data[off + 1..off + 1 + |l|] == l
    requires Stand(data, off + 1 + |l|, used + 1 + |l|, rest)
    ensures Stand(data, off, used, [l] + rest)
  {
    var labels := [l] + rest;
    assert labels[1..] == rest;
    assert Sized(labels);
    WireFirst(labels);
    hide Wire, Sized, Stops;
    var w, v := Wire(labels), Wire(rest);
    assert w == [|l|] + l + v by {
      WireIs(labels);
    }
    assert data[off..off + |w|] == [data[off]] + data[off + 1..off + 1 + |l|] + data[off + 1 + |l|..off + |w|];
  }

  /** Everywhere there are such labels, if perhaps none. */
  lemma {:induction false} LabelsAt(data: seq<Byte>, off: nat, used: nat) returns (labels: seq<Text>)
    requires off <= |data| && used <= 256
    ensures Stand(data, off, used, labels)
    decreases |data| - off
  {
    if Stops(data, off, used) {
      labels := [];
    } else {
      var n := data[off];
      var l := data[off + 1..off + 1 + n];
      var rest := LabelsAt(data, off + 1 + n, used + 1 + n);
      labels := [l] + rest;
      StandNext(data, off, used, l, rest);
    }
  }

  /** What is read at the end of the labels. */
  function Ended(data: seq<Byte>, e: nat, depth: nat, out: Text): Decoded
    requires e <= |data| && depth <= MAX_DEPTH
  {
    if e == |data| then CutOff(|out|, out) else DecodeFrom(data, e, depth, |out|, out)
  }

  lemma DecodeLast(data: seq<Byte>, off: nat, depth: nat, out: Text, l: Text)
    requires depth <= MAX_DEPTH && 1 <= |l| <= 191 && off + |l| + 1 == |data| && |out| + |l| <= 255
    requires data[off] == |l| && data[off + 1..off + 1 + |l|] == l
    ensures DecodeFrom(data, off, depth, |out|, out) == CutOff(|out + l + [DOT]|, out + l + [DOT])
  {
    hide CString, CutOff;
  }

  /** Decoding moves over the labels, to what stops them. */
  lemma {:induction false} DecodeStand(data: seq<Byte>, off: nat, depth: nat, out: Text, labels: seq<Text>)
    requires off <= |data| && depth <= MAX_DEPTH && Sized(labels) && |out| + |Wire(labels)| <= 256
    requires off + |Wire(labels)| <= |data| && data[off..off + |Wire(labels)|] == Wire(labels)
    ensures Ended(data, off, depth, out) == Ended(data, off + |Wire(labels)|, depth, out + Dotted(labels))
    decreases |labels|
  {
    hide DecodeFrom, CutOff;
    if labels == [] {
      assert out + Dotted(labels) == out;
    } else {
      var l, w := labels[0], Wire(labels);
      WireFirst(labels);
      hide Wire, Dotted;
      SliceParts(data, off, w, |l|);
      var out' := out + l + [DOT];
      if off + 1 + |l| == |data| {
        DecodeLast(data, off, depth, out, l);
      } else {
        DecodeFirst(data, off, depth, out, l);
      }
      DecodeStand(data, off + 1 + |l|, depth, out', labels[1..]);
      DottedFirst(out, labels);
    }
  }

  // ---------------------------------------------------------------------------------------------
  // The name
  // ---------------------------------------------------------------------------------------------

  /** A name cut off, by the end of the message or by a label that does not fit: its text ends in a dot, unless it takes
      all of 256 bytes. */
  predicate Cut(r: Decoded, labels: seq<Text>) {
    var w := |Wire(labels)|;
    if w == 256 then r.len == 256 && UpToZero(r.text, Name(labels))
    else r.len == w + 1 && UpToZero(r.text, Dotted(labels))
  }

  /** A name that ends in a pointer to `t`: illegal if that is no place for a name, else the labels and as much of the
      name at `t` as 255 bytes hold. */
  predicate Pointed(r: Decoded, data: seq<Byte>, depth: nat, labels: seq<Text>, t: nat) {
    var front := Dotted(labels);
    if t < 12 || t >= |data| then r.len == 0 && UpToZero(r.text, front)
    else
      var named := DecodeName(data, t, depth + 1).text;
      && r.len == |front| + 2
      && if |front| + |named| <= 255 then UpToZero(r.text, front + named)
         else |front| <= 255 && UpToZero(r.text, front + named[..255 - |front|])
  }

  lemma WithoutDot(labels: seq<Text>)
    ensures var d := Dotted(labels); Name(labels) == if d == [] then [] else d[..|d| - 1]
    ensures labels == [] <==> Dotted(labels) == []
  {
    if labels != [] {
      DottedName(labels);
    }
  }

  lemma EndsInZero(data: seq<Byte>, e: nat, depth: nat, labels: seq<Text>)
    requires e < |data| && depth <= MAX_DEPTH && data[e] == 0
    ensures var r := Ended(data, e, depth, Dotted(labels));
            r.len == |Dotted(labels)| + 1 && UpToZero(r.text, Name(labels))
  {
    hide CString;
    CStringIs(Name(labels));
    WithoutDot(labels);
  }

  lemma EndsCut(data: seq<Byte>, e: nat, depth: nat, labels: seq<Text>)
    requires e <= |data| && depth <= MAX_DEPTH && Sized(labels) && |Wire(labels)| <= 256
    requires e == |data| || (0 < data[e] < 0xC0 && (e + 1 + data[e] > |data| || |Wire(labels)| + data[e] > 255))
    ensures Cut(Ended(data, e, depth, Dotted(labels)), labels)
  {
    hide CString, Wire, Name, Dotted;
    CStringIs(Name(labels));
    CStringIs(Dotted(labels));
    WithoutDot(labels);
    WireLength(labels);
  }

  lemma EndsInPointer(data: seq<Byte>, e: nat, depth: nat, labels: seq<Text>, t: nat)
    requires PointerAt(data, e, t) && depth <= MAX_DEPTH && |Dotted(labels)| <= 255
    ensures Pointed(Ended(data, e, depth, Dotted(labels)), data, depth, labels, t)
  {
    hide CString, DecodeName, Dotted;
    TargetIs(data, e, t);
    var front, named := Dotted(labels), DecodeName(data, t, depth + 1).text;
    CStringIs(front);
    CStringIs(front + Limited(named, |front|));
  }

  lemma EndsInHalf(data: seq<Byte>, e: nat, depth: nat, labels: seq<Text>)
    requires e < |data| && depth <= MAX_DEPTH && data[e] >= 0xC0 && (e + 1 == |data| || |Dotted(labels)| == 256)
    ensures var r := Ended(data, e, depth, Dotted(labels));
            r.len == |Dotted(labels)| && UpToZero(r.text, Dotted(labels))
  {
    hide CString, DecodeName, Dotted;
    CStringIs(Dotted(labels));
  }

  /** What any bytes decode to, whatever they are. */
  lemma NameIs(data: seq<Byte>, off: nat, depth: nat, labels: seq<Text>)
    requires off < |data| && depth <= MAX_DEPTH && Stand(data, off, 0, labels)
    ensures var r := DecodeName(data, off, depth); var w := |Wire(labels)|; var e := off + w;
            if e == |data| || 0 < data[e] < 0xC0 then Cut(r, labels)
            else if data[e] == 0 then r.len == w + 1 && UpToZero(r.text, Name(labels))
            else if e + 1 == |data| || w == 256 then r.len == w && UpToZero(r.text, Dotted(labels))
            else forall t | PointerAt(data, e, t) :: Pointed(r, data, depth, labels, t)
  {
    hide DecodeFrom, Wire, Dotted, Name, Cut, Pointed, UpToZero, Sized;
    var e := off + |Wire(labels)|;
    DecodeStand(data, off, depth, [], labels);
    assert [] + Dotted(labels) == Dotted(labels);
    WireLength(labels);
    var r := DecodeName(data, off, depth);
    assert r == Ended(data, e, depth, Dotted(labels));
    hide Ended;
    if e == |data| || 0 < data[e] < 0xC0 {
      EndsCut(data, e, depth, labels);
    } else if data[e] == 0 {
      EndsInZero(data, e, depth, labels);
    } else if e + 1 == |data| || |Wire(labels)| == 256 {
      EndsInHalf(data, e, depth, labels);
    } else {
      forall t | PointerAt(data, e, t) ensures Pointed(r, data, depth, labels, t) {
        EndsInPointer(data, e, depth, labels, t);
      }
    }
  }

  /** A pointer into the header or past the end makes the whole name illegal, whatever its labels hold. */
  lemma IllegalPointer(data: seq<Byte>, off: nat, depth: nat, labels: seq<Text>, t: nat)
    requires Sized(labels) && |Wire(labels)| <= 255 && depth <= MAX_DEPTH
    requires off + |Wire(labels)| < |data| && data[off..off + |Wire(labels)|] == Wire(labels)
    requires PointerAt(data, off + |Wire(labels)|, t) && (t < 12 || t >= |data|)
    ensures DecodeName(data, off, depth).len == 0
  {
    hide Wire, Dotted, Sized;
    NameIs(data, off, depth, labels);
  }

  lemma NameNoZero(labels: seq<Text>)
    requires LabelsOk(labels)
    ensures 0 !in Name(labels)
  {
    DottedNoZero(labels);
    WithoutDot(labels);
  }

  /** Labels, a pointer to `t`, and a name written there read as one name, for every `t` a pointer can hold, up to the
      twentieth pointer. */
  lemma PointedName(data: seq<Byte>, off: nat, depth: nat, labels: seq<Text>, t: nat, more: seq<Text>)
    requires depth < 20 && LabelsOk(labels) && LabelsOk(more) && more != [] && |Dotted(labels)| + |Dotted(more)| <= 256
    requires off + |Wire(labels)| < |data| && data[off..off + |Wire(labels)|] == Wire(labels)
    requires 12 <= t && PointerAt(data, off + |Wire(labels)|, t)
    requires var w := EncodeName(Name(more)); t + |w| <= |data| && data[t..t + |w|] == w
    ensures DecodeName(data, off, depth) == Decoded(|Wire(labels)| + 2, Name(labels + more))
  {
    hide EncodeName, DecodeName, Dotted, Name, Wire;
    EncodeLabels(more);
    DottedName(more);
    OkSized(labels);
    WireLength(labels);
    RoundTrip(data, t, depth + 1, more);
    NameIs(data, off, depth, labels);
    NameConcat(labels, more);
    TextNoZero(data, off, depth);
    DottedNoZero(labels);
    NameNoZero(more);
  }
}
