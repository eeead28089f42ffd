/** DNS names on the wire: labels, compression pointers (section 4.1.4 of RFC 1035), and their dotted text. */
module DnsNames {
  import opened Bytes
  import Records = DnsRecords
  import opened Wrappers

  const DOT: Byte := 46
  const HASH: Byte := 35

  /** How many pointers a name may follow. */
  const MAX_DEPTH := 20

  /** The encoded length of a name, 0 if it is illegal, and its text. */
  datatype Decoded = Decoded(len: nat, text: Text)

  /** What a zero-terminated string holds. */
  function CString(s: Text): Text {
    if s == [] || s[0] == 0 then [] else [s[0]] + CString(s[1..])
  }

  // ---------------------------------------------------------------------------------------------
  // Decoding
  // ---------------------------------------------------------------------------------------------

  function DecodeName(data: seq<Byte>, off: nat, depth: nat): Decoded
    decreases MAX_DEPTH + 1 - depth, |data| + 1
  {
    if off + 1 > |data| || depth > MAX_DEPTH then Decoded(0, []) else DecodeFrom(data, off, depth, 0, [])
  }

  /** A name cut off: its length counts a final zero if there is room for it. */
  function CutOff(encoded: nat, out: Text): Decoded {
    if encoded == 256 && out != [] then Decoded(256, CString(out[..|out| - 1])) else Decoded(encoded + 1, CString(out))
  }

  /** The name from `off` on, after `encoded` bytes that gave `out`. */
  function DecodeFrom(data: seq<Byte>, off: nat, depth: nat, encoded: nat, out: Text): Decoded
    requires off < |data| && depth <= MAX_DEPTH
    decreases MAX_DEPTH + 1 - depth, |data| - off
  {
    var word := data[off];
    if word == 0 then
      Decoded(encoded + 1, CString(if out == [] then [] else out[..|out| - 1]))
    else if word >= 0xC0 then
      if off + 2 > |data| || encoded > 255 then Decoded(encoded, CString(out))
      else
        var target := PointerTarget(word, data[off + 1]);
        if target < Records.HEADER_SIZE || target >= |data| then Decoded(0, CString(out))
        else Decoded(encoded + 2, CString(out + Limited(DecodeName(data, target, depth + 1).text, encoded)))
    else if off + word + 1 > |data| || encoded + word > 255 then
      CutOff(encoded, out)
    else
      var out' := out + data[off + 1..off + 1 + word] + [DOT];
      if off + word + 2 > |data| then CutOff(encoded + word + 1, out')
      else DecodeFrom(data, off + word + 1, depth, encoded + word + 1, out')
  }

  function PointerTarget(hi: Byte, lo: Byte): nat
    requires hi >= 0xC0
  {
    var h: int := hi;
    (h - 0xC0) * 256 + lo
  }

  /** What is copied of a name a pointer leads to, after `used` bytes: 255 in all. */
  function Limited(t: Text, used: nat): Text {
    if used + |t| <= 255 then t else if used <= 255 then t[..255 - used] else []
  }

  /** The loop that follows the labels, calling itself for a pointer. */
  method Decode(data: seq<Byte>, start: nat, depth: nat) returns (r: Decoded)
    ensures r == DecodeName(data, start, depth)
    decreases MAX_DEPTH + 1 - depth
  {
    hide CString, Limited;
    var encoded: nat, out: Text, off := 0, [], start;
    if off + 1 > |data| || depth > MAX_DEPTH {
      return Decoded(0, []);
    }
    var word := data[off];
    while word != 0
      invariant off < |data| && word == data[off] && encoded == off - start == |out|
      invariant DecodeName(data, start, depth) == DecodeFrom(data, off, depth, encoded, out)
      decreases |data| - off
    {
      if word >= 0xC0 {
        if off + 2 > |data| || encoded > 255 {
          return Decoded(encoded, CString(out));
        }
        var target := PointerTarget(word, data[off + 1]);
        if target < Records.HEADER_SIZE || target >= |data| {
          return Decoded(0, CString(out));
        }
        var temp := Decode(data, target, depth + 1);
        var copied := CopyName(temp.text, encoded);
        return Decoded(encoded + 2, CString(out + copied));
      }
      if off + word + 1 > |data| || encoded + word > 255 {
        return CutOff(encoded, out);
      }
      out := out + data[off + 1..off + 1 + word];
      out := out + [DOT];
      encoded := encoded + word + 1;
      off := off + word + 1;
      if off + 1 > |data| {
        return CutOff(encoded, out);
      }
      word := data[off];
    }
    return Decoded(encoded + 1, CString(if out == [] then [] else out[..|out| - 1]));
  }

  /** Copies a text byte by byte while fewer than 255 are used. */
  method CopyName(t: Text, used: nat) returns (r: Text)
    ensures r == Limited(t, used)
  {
    r := [];
    var i := 0;
    while i < |t| && used + i < 255
      invariant i <= |t| && r == t[..i] && (i == 0 || used + i <= 255)
    {
      r := r + [t[i]];
      i := i + 1;
    }
  }

  // ---------------------------------------------------------------------------------------------
  // Encoding
  // ---------------------------------------------------------------------------------------------

  predicate IsSpace(b: Byte) {
    b == 32 || 9 <= b <= 13
  }

  predicate IsDigit(b: Byte) {
    48 <= b <= 57
  }

  function SkipSpaces(s: Text): Text {
    if s != [] && IsSpace(s[0]) then SkipSpaces(s[1..]) else s
  }

  /** The value of the digits `s` starts with, after `v`. */
  function DigitsValue(s: Text, v: nat): nat {
    if s != [] && IsDigit(s[0]) then DigitsValue(s[1..], 10 * v + (s[0] - 48)) else v
  }

  /** The offset that follows a hash sign, if it is a number from 0 to 255. */
  function PointerOffset(s: Text): Option<Byte> {
    var t := SkipSpaces(s);
    var negative := t != [] && t[0] == 45;
    var d := if t != [] && (t[0] == 45 || t[0] == 43) then t[1..] else t;
    if d == [] || !IsDigit(d[0]) then None
    else var v := DigitsValue(d, 0);
      if v > 255 || (negative && v > 0) then None else Some(v)
  }

  /** The text up to the first dot. */
  function Word(s: Text): (w: Text)
    ensures |w| <= |s| && w == s[..|w|]
  {
    if s == [] || s[0] == DOT then [] else [s[0]] + Word(s[1..])
  }

  /** The text after the first dot. */
  function AfterWord(s: Text): Text {
    if |Word(s)| == |s| then [] else s[|Word(s)| + 1..]
  }

  function EncodeName(name: Text): Text
    decreases |name|
  {
    if name == [] then [0]
    else
      var word := Word(name);
      if word != [] && word[0] == HASH then
        match PointerOffset(word[1..])
        case None => []
        case Some(off) => [0xC0, off]
      else [|word| % 256] + word + EncodeName(AfterWord(name))
  }

  predicate IsPointer(word: Text) {
    word != [] && word[0] == HASH
  }

  lemma EncodeWord(name: Text)
    requires name != []
    ensures |AfterWord(name)| < |name|
    ensures IsPointer(Word(name)) ==>
      EncodeName(name) == match PointerOffset(Word(name)[1..]) case None => [] case Some(off) => [0xC0, off]
    ensures !IsPointer(Word(name)) ==>
      EncodeName(name) == [|Word(name)| % 256] + Word(name) + EncodeName(AfterWord(name))
  {
  }

  /** The loop over the words of a name. */
  method Encode(name: Text) returns (result: Text)
    ensures result == EncodeName(name)
  {
    hide EncodeName, Word, PointerOffset;
    result := [];
    var rest := name;
    while rest != []
      invariant result + EncodeName(rest) == EncodeName(name)
      decreases |rest|
    {
      EncodeWord(rest);
      var word := Word(rest);
      if IsPointer(word) {
        var off := PointerOffset(word[1..]);
        if off.None? {
          assert result + [] == result;
          return;
        }
        result := result + [0xC0, off.value];
        return;
      }
      result := EncodeLabel(result, word, EncodeName(AfterWord(rest)));
      rest := AfterWord(rest);
    }
    EncodeRoot();
    result := result + [0];
  }

  /** A length and a label. */
  method EncodeLabel(result: Text, word: Text, ghost more: Text) returns (result': Text)
    ensures result' == result + [|word| % 256] + word
    ensures result' + more == result + ([|word| % 256] + word + more)
  {
    result' := result + [|word| % 256];
    result' := result' + word;
  }

  lemma EncodeRoot()
    ensures EncodeName([]) == [0]
  {
  }

  // ---------------------------------------------------------------------------------------------
  // Round trips
  // ---------------------------------------------------------------------------------------------

  /** A label that can be written and read back: the source allows up to 191 bytes, RFC 1035 up to 63. */
  predicate LabelOk(l: Text) {
    1 <= |l| <= 191 && 0 !in l && DOT !in l && l[0] != HASH
  }

  predicate LabelsOk(labels: seq<Text>) {
    forall i | 0 <= i < |labels| :: LabelOk(labels[i])
  }

  /** Labels of lengths that are read as such, whatever bytes they hold. */
  predicate Sized(labels: seq<Text>) {
    forall i | 0 <= i < |labels| :: 1 <= |labels[i]| <= 191
  }

  /** Words between dots that are no pointers, of any length. */
  predicate Words(words: seq<Text>) {
    forall i | 0 <= i < |words| :: DOT !in words[i] && !IsPointer(words[i])
  }

  lemma OkWords(labels: seq<Text>)
    requires LabelsOk(labels)
    ensures Words(labels)
  {
    assert forall i | 0 <= i < |labels| :: LabelOk(labels[i]);
  }

  lemma OkSized(labels: seq<Text>)
    requires LabelsOk(labels)
    ensures Sized(labels)
  {
    assert forall i | 0 <= i < |labels| :: LabelOk(labels[i]);
  }

  /** Each label with its dot. */
  function Dotted(labels: seq<Text>): Text {
    if labels == [] then [] else labels[0] + [DOT] + Dotted(labels[1..])
  }

  /** The labels joined by dots. */
  function Name(labels: seq<Text>): Text {
    if labels == [] then [] else if |labels| == 1 then labels[0] else labels[0] + [DOT] + Name(labels[1..])
  }

  /** Each label with its length before it. */
  function Wire(labels: seq<Text>): Text {
    if labels == [] then [] else [|labels[0]| % 256] + labels[0] + Wire(labels[1..])
  }

  lemma {:induction false} WireLength(labels: seq<Text>)
    ensures |Wire(labels)| == |Dotted(labels)|
  {
    if labels != [] {
      WireLength(labels[1..]);
    }
  }

  lemma {:induction false} DottedName(labels: seq<Text>)
    requires labels != []
    ensures Dotted(labels) == Name(labels) + [DOT]
  {
    if |labels| == 1 {
      var none: seq<Text> := [];
      assert labels[1..] == none && Dotted(none) == [];
    } else {
      DottedName(labels[1..]);
    }
  }

  lemma {:induction false} WordOf(l: Text, rest: Text)
    requires DOT !in l
    ensures Word(l) == l && Word(l + [DOT] + rest) == l
  {
    if l != [] {
      WordOf(l[1..], rest);
      assert (l + [DOT] + rest)[1..] == l[1..] + [DOT] + rest;
    }
  }

  lemma EncodeFirst(l: Text, more: Text)
    requires DOT !in l && !IsPointer(l)
    ensures EncodeName(l + [DOT] + more) == [|l| % 256] + l + EncodeName(more)
  {
    hide Word, PointerOffset, EncodeName;
    var name := l + [DOT] + more;
    WordOf(l, more);
    EncodeWord(name);
    assert AfterWord(name) == more;
  }

  /** Writing a name writes its labels, then whatever the rest of the text is written as. */
  lemma {:induction false} EncodeDotted(labels: seq<Text>, rest: Text)
    requires Words(labels)
    ensures EncodeName(Dotted(labels) + rest) == Wire(labels) + EncodeName(rest)
  {
    hide EncodeName;
    if labels == [] {
      assert Dotted(labels) + rest == rest;
    } else {
      var l, more := labels[0], Dotted(labels[1..]) + rest;
      assert Dotted(labels) + rest == l + [DOT] + more;
      EncodeFirst(l, more);
      EncodeDotted(labels[1..], rest);
      assert Wire(labels) + EncodeName(rest) == [|l| % 256] + l + (Wire(labels[1..]) + EncodeName(rest));
    }
  }

  lemma {:induction false} EncodeLabels(labels: seq<Text>)
    requires LabelsOk(labels)
    ensures EncodeName(Name(labels)) == Wire(labels) + [0]
  {
    hide Word, PointerOffset, EncodeName;
    if labels == [] {
      EncodeRoot();
    } else {
      var last := labels[|labels| - 1];
      var before := labels[..|labels| - 1];
      NameSplit(labels);
      OkWords(labels);
      EncodeDotted(before, last);
      WordOf(last, []);
      EncodeWord(last);
      EncodeRoot();
      WireSplit(before, last);
      assert labels == before + [last];
    }
  }

  lemma {:induction false} NameSplit(labels: seq<Text>)
    requires labels != []
    ensures Name(labels) == Dotted(labels[..|labels| - 1]) + labels[|labels| - 1]
  {
    if |labels| == 1 {
      assert Dotted(labels[..0]) == [];
    } else {
      NameSplit(labels[1..]);
      assert labels[1..][..|labels| - 2] == labels[..|labels| - 1][1..];
    }
  }

  lemma {:induction false} WireSplit(before: seq<Text>, last: Text)
    ensures Wire(before + [last]) == Wire(before) + [|last| % 256] + last
  {
    if before == [] {
      var none: seq<Text> := [];
      assert before + [last] == [last] && [last][1..] == none && Wire(none) == [];
    } else {
      WireSplit(before[1..], last);
      assert (before + [last])[1..] == before[1..] + [last];
    }
  }

  lemma {:induction false} WordStops(name: Text)
    ensures DOT !in Word(name) && (|Word(name)| < |name| ==> name[|Word(name)|] == DOT)
  {
    if name != [] && name[0] != DOT {
      WordStops(name[1..]);
    }
  }

  lemma WordParts(name: Text)
    ensures var w := Word(name);
            DOT !in w && if |w| < |name| then name == w + [DOT] + AfterWord(name) else name == w
  {
    hide Word;
    WordStops(name);
    var n := |Word(name)|;
    if n < |name| {
      assert name == name[..n] + [name[n]] + name[n + 1..];
    }
  }

  /** `name` is words, each with its dot, and then a last word, or a pointer and what is ignored after it. */
  predicate IsSplit(name: Text, words: seq<Text>, last: Text, rest: Text) {
    && Words(words) && DOT !in last && name == Dotted(words) + last + rest
    && if IsPointer(last) then rest == [] || rest[0] == DOT else rest == []
  }

  lemma SplitMore(word: Text, name: Text, words: seq<Text>, last: Text, rest: Text)
    requires DOT !in word && !IsPointer(word) && IsSplit(name, words, last, rest)
    ensures IsSplit(word + [DOT] + name, [word] + words, last, rest)
  {
    var all := [word] + words;
    assert all[1..] == words;
    assert Dotted(all) == word + [DOT] + Dotted(words);
    assert word + [DOT] + (Dotted(words) + last + rest) == word + [DOT] + Dotted(words) + last + rest;
  }

  /** Any text at all can be told apart so. */
  lemma {:induction false} AnyName(name: Text) returns (words: seq<Text>, last: Text, rest: Text)
    ensures IsSplit(name, words, last, rest)
    decreases |name|
  {
    words, last, rest := [], [], [];
    hide Word;
    if name != [] {
      var word := Word(name);
      WordParts(name);
      if IsPointer(word) {
        last, rest := word, name[|word|..];
      } else if |word| == |name| {
        last := word;
      } else {
        hide IsSplit, IsPointer;
        words, last, rest := AnyName(AfterWord(name));
        SplitMore(word, AfterWord(name), words, last, rest);
        words := [word] + words;
      }
    }
  }

  /** A word is written as its length, modulo 256, and itself; the end as a zero; a pointer as two bytes, and if its
      number is none from 0 to 255 the name stops before it. */
  lemma AnyNameEncoded(name: Text, words: seq<Text>, last: Text, rest: Text)
    requires IsSplit(name, words, last, rest)
    ensures if last == [] then EncodeName(name) == Wire(words) + [0]
            else if !IsPointer(last) then EncodeName(name) == Wire(words) + ([|last| % 256] + last + [0])
            else match PointerOffset(last[1..])
              case None => EncodeName(name) == Wire(words)
              case Some(off) => EncodeName(name) == Wire(words) + [0xC0, off]
  {
    hide Word, PointerOffset, EncodeName, Wire, Dotted;
    assert name == Dotted(words) + (last + rest);
    EncodeDotted(words, last + rest);
    EncodeRoot();
    if last == [] {
      assert last + rest == [];
    } else {
      EncodeWord(last + rest);
      if rest == [] {
        WordOf(last, []);
        assert last + rest == last;
      } else {
        WordOf(last, rest[1..]);
        assert last + rest == last + [DOT] + rest[1..];
      }
    }
  }

  // Reading

  lemma {:induction false} CStringWhole(s: Text)
    requires 0 !in s
    ensures CString(s) == s
  {
    if s != [] {
      CStringWhole(s[1..]);
    }
  }

  lemma {:induction false} DottedNoZero(labels: seq<Text>)
    requires LabelsOk(labels)
    ensures 0 !in Dotted(labels)
  {
    if labels != [] {
      DottedNoZero(labels[1..]);
    }
  }

  lemma LabelParts(n: Byte, l: Text, rest: Text)
    ensures var w := [n] + l + rest; |w| == 1 + |l| + |rest| && w[0] == n && w[1..1 + |l|] == l && w[1 + |l|..] == rest
  {
    var w := [n] + l + rest;
    assert w == [n] + (l + rest);
    assert w[1..] == l + rest;
  }

  lemma WireIs(labels: seq<Text>)
    requires labels != [] && Sized(labels)
    ensures |labels[0]| < 256 && Wire(labels) == [|labels[0]|] + labels[0] + Wire(labels[1..])
  {
  }

  lemma WireFirst(labels: seq<Text>)
    requires labels != [] && Sized(labels)
    ensures var l, w := labels[0], Wire(labels);
            && |w| == 1 + |l| + |Wire(labels[1..])|
            && w[0] == |l| && w[1..1 + |l|] == l && w[1 + |l|..] == Wire(labels[1..])
  {
    hide Wire;
    WireIs(labels);
    LabelParts(|labels[0]|, labels[0], Wire(labels[1..]));
  }

  lemma DecodeLabel(data: seq<Byte>, off: nat, depth: nat, out: Text)
    requires depth <= MAX_DEPTH && off < |data| && 0 < data[off] < 0xC0
    requires off + data[off] + 2 <= |data| && |out| + data[off] <= 255
    ensures DecodeFrom(data, off, depth, |out|, out)
         == DecodeFrom(data, off + data[off] + 1, depth, |out| + data[off] + 1,
             out + data[off + 1..off + 1 + data[off]] + [DOT])
  {
    hide CString, DecodeName, CutOff, PointerTarget, Limited;
  }

  lemma DecodeEnd(data: seq<Byte>, off: nat, depth: nat, out: Text)
    requires depth <= MAX_DEPTH && off < |data| && data[off] == 0
    ensures DecodeFrom(data, off, depth, |out|, out)
            == Decoded(|out| + 1, CString(if out == [] then [] else out[..|out| - 1]))
  {
    hide CString, DecodeName;
  }

  lemma SliceParts(data: seq<Byte>, off: nat, w: Text, n: nat)
    requires off + |w| <= |data| && data[off..off + |w|] == w && 1 + n <= |w|
    ensures data[off] == w[0] && data[off + 1..off + 1 + n] == w[1..1 + n] && data[off + 1 + n..off + |w|] == w[1 + n..]
  {
    forall k | 0 <= k < |w| ensures data[off + k] == w[k] {
      assert data[off..off + |w|][k] == w[k];
    }
    var a, b := data[off + 1..off + 1 + n], w[1..1 + n];
    forall k | 0 <= k < n ensures a[k] == b[k] {
      assert data[off + (1 + k)] == w[1 + k];
    }
    var c, d := data[off + 1 + n..off + |w|], w[1 + n..];
    forall k | 0 <= k < |d| ensures c[k] == d[k] {
      assert data[off + (1 + n + k)] == w[1 + n + k];
    }
  }

  lemma DecodeFirst(data: seq<Byte>, off: nat, depth: nat, out: Text, l: Text)
    requires depth <= MAX_DEPTH && 1 <= |l| <= 191 && off + |l| + 1 < |data| && |out| + |l| <= 255
    requires data[off] == |l| && data[off + 1..off + 1 + |l|] == l
    ensures DecodeFrom(data, off, depth, |out|, out)
         == DecodeFrom(data, off + 1 + |l|, depth, |out + l + [DOT]|, out + l + [DOT])
  {
    hide DecodeFrom;
    DecodeLabel(data, off, depth, out);
  }

  /** Reading moves over the labels, to whatever follows them. */
  lemma {:induction false} DecodeWire(data: seq<Byte>, off: nat, depth: nat, out: Text, labels: seq<Text>)
    requires off < |data| && depth <= MAX_DEPTH && Sized(labels)
    requires off + |Wire(labels)| < |data| && data[off..off + |Wire(labels)|] == Wire(labels)
    requires |out| + |Wire(labels)| <= 256
    ensures DecodeFrom(data, off, depth, |out|, out)
         == DecodeFrom(data, off + |Wire(labels)|, depth, |out| + |Wire(labels)|, out + Dotted(labels))
    decreases |labels|
  {
    hide DecodeFrom;
    if labels == [] {
      assert out + Dotted(labels) == out;
    } else {
      var l, w := labels[0], Wire(labels);
      WireFirst(labels);
      hide Wire, Dotted;
      SliceParts(data, off, w, |l|);
      DecodeFirst(data, off, depth, out, l);
      var out', rest := out + l + [DOT], Wire(labels[1..]);
      DecodeWire(data, off + 1 + |l|, depth, out', labels[1..]);
      DottedFirst(out, labels);
    }
  }

  lemma DottedFirst(out: Text, labels: seq<Text>)
    requires labels != []
    ensures out + labels[0] + [DOT] + Dotted(labels[1..]) == out + Dotted(labels)
  {
  }

  lemma NoLabels()
    ensures Name([]) == [] == Dotted([])
  {
  }

  /** A name that was written is read back wherever it stands, with its length. */
  lemma RoundTrip(data: seq<Byte>, off: nat, depth: nat, labels: seq<Text>)
    requires LabelsOk(labels) && |Dotted(labels)| <= 256 && depth <= MAX_DEPTH
    requires var w := EncodeName(Name(labels)); off + |w| <= |data| && data[off..off + |w|] == w
    ensures DecodeName(data, off, depth) == Decoded(|EncodeName(Name(labels))|, Name(labels))
  {
    hide EncodeName, CString, Wire, DecodeFrom, LabelsOk, Name, Dotted;
    var w := Wire(labels);
    EncodeLabels(labels);
    WireLength(labels);
    assert data[off..off + |w|] == (w + [0])[..|w|];
    assert data[off + |w|] == (w + [0])[|w|];
    OkSized(labels);
    DecodeWire(data, off, depth, [], labels);
    DecodeEnd(data, off + |w|, depth, Dotted(labels));
    assert [] + Dotted(labels) == Dotted(labels);
    DottedNoZero(labels);
    if labels == [] {
      NoLabels();
      CStringWhole([]);
    } else {
      DottedName(labels);
      assert Dotted(labels)[..|Dotted(labels)| - 1] == Name(labels);
      CStringWhole(Name(labels));
    }
  }

  /** A number from 0 to 255, in decimal. */
  function Decimal(n: Byte): Text {
    if n < 10 then [48 + n] else if n < 100 then [48 + n / 10, 48 + n % 10]
        else [48 + n / 100, 48 + n / 10 % 10, 48 + n % 10]
  }

  lemma DigitsStep(s: Text, v: nat)
    requires s != [] && IsDigit(s[0])
    ensures DigitsValue(s, v) == DigitsValue(s[1..], 10 * v + (s[0] - 48))
  {
  }

  /** Three digits or fewer. */
  lemma DigitsAre(d: Text)
    requires 1 <= |d| <= 3 && forall i | 0 <= i < |d| :: IsDigit(d[i])
    ensures var a: int := d[0]; |d| == 1 ==> DigitsValue(d, 0) == a - 48
    ensures |d| == 2 ==> var a: int, b: int := d[0], d[1]; DigitsValue(d, 0) == 10 * (a - 48) + (b - 48)
    ensures |d| == 3 ==>
              var a: int, b: int, c: int := d[0], d[1], d[2];
              DigitsValue(d, 0) == 10 * (10 * (a - 48) + (b - 48)) + (c - 48)
  {
    DigitsStep(d, 0);
    if |d| > 1 {
      DigitsStep(d[1..], d[0] - 48);
      assert |d| > 2 ==> d[1..][1..] == d[2..] && d[2..][1..] == [];
    }
  }

  lemma OffsetOfDigits(d: Text)
    requires d != [] && IsDigit(d[0])
    ensures PointerOffset(d) == if DigitsValue(d, 0) > 255 then None else Some(DigitsValue(d, 0))
  {
    hide DigitsValue;
    assert SkipSpaces(d) == d;
  }

  lemma DecimalIs(n: int)
    requires 0 <= n < 256
    ensures n == 100 * (n / 100) + 10 * (n / 10 % 10) + n % 10 && n / 10 == 10 * (n / 100) + n / 10 % 10
    ensures 0 <= n / 100 <= 2 && 0 <= n / 10 % 10 <= 9 && (n < 100 ==> n / 10 <= 9)
  {
  }

  lemma PointerDecimal(n: Byte)
    ensures PointerOffset(Decimal(n)) == Some(n) && DOT !in Decimal(n)
  {
    hide PointerOffset, DigitsValue;
    DecimalIs(n);
    DigitsAre(Decimal(n));
    OffsetOfDigits(Decimal(n));
  }

  /** A prefix and a pointer are written as the prefix's labels and two bytes. */
  lemma EncodePointer(labels: seq<Text>, target: Byte)
    requires LabelsOk(labels)
    ensures EncodeName(Dotted(labels) + ([HASH] + Decimal(target))) == Wire(labels) + [0xC0, target]
  {
    var word := [HASH] + Decimal(target);
    hide Word, PointerOffset, EncodeName;
    OkWords(labels);
    EncodeDotted(labels, word);
    PointerDecimal(target);
    WordOf(word, []);
    EncodeWord(word);
    assert word[1..] == Decimal(target);
  }

  lemma {:induction false} CStringNoZero(s: Text)
    ensures 0 !in CString(s)
  {
    if s != [] {
      CStringNoZero(s[1..]);
    }
  }

  /** What a name decodes to holds no zero. */
  lemma TextNoZero(data: seq<Byte>, off: nat, depth: nat)
    ensures 0 !in DecodeName(data, off, depth).text
  {
    if off < |data| && depth <= MAX_DEPTH {
      FromNoZero(data, off, depth, 0, []);
    }
  }

  lemma {:induction false} FromNoZero(data: seq<Byte>, off: nat, depth: nat, encoded: nat, out: Text)
    requires off < |data| && depth <= MAX_DEPTH
    ensures 0 !in DecodeFrom(data, off, depth, encoded, out).text
    decreases |data| - off
  {
    hide CString;
    forall s: Text ensures 0 !in CString(s) {
      CStringNoZero(s);
    }
    var word := data[off];
    if 0 < word < 0xC0 && encoded + word <= 255 && off + word + 2 <= |data| {
      FromNoZero(data, off + word + 1, depth, encoded + word + 1, out + data[off + 1..off + 1 + word] + [DOT]);
    }
  }

  lemma DecodePointer(data: seq<Byte>, off: nat, depth: nat, out: Text, target: Byte)
    requires depth <= MAX_DEPTH && off + 1 < |data| && |out| <= 255 && Records.HEADER_SIZE <= target < |data|
    requires 0 !in out
    requires data[off] == 0xC0 && data[off + 1] == target
    ensures DecodeFrom(data, off, depth, |out|, out)
         == Decoded(|out| + 2, out + Limited(DecodeName(data, target, depth + 1).text, |out|))
  {
    TextNoZero(data, target, depth + 1);
    hide CString, DecodeName;
    CStringWhole(out + Limited(DecodeName(data, target, depth + 1).text, |out|));
  }

  /** `prefix.#target` decodes to the prefix, a dot, and the name at the target, 255 bytes in all. */
  lemma PointerRoundTrip(data: seq<Byte>, off: nat, depth: nat, labels: seq<Text>, target: Byte)
    requires LabelsOk(labels) && |Dotted(labels)| <= 255 && depth <= MAX_DEPTH && Records.HEADER_SIZE <= target < |data|
    requires var w := EncodeName(Dotted(labels) + ([HASH] + Decimal(target)));
             off + |w| <= |data| && data[off..off + |w|] == w
    ensures var prefix := Dotted(labels);
            DecodeName(data, off, depth)
            == Decoded(|prefix| + 2, prefix + Limited(DecodeName(data, target, depth + 1).text, |prefix|))
  {
    hide EncodeName, CString, Wire, DecodeFrom, LabelsOk, Decimal, Dotted, Limited;
    var w := Wire(labels);
    EncodePointer(labels, target);
    WireLength(labels);
    var all := w + [0xC0, target];
    assert data[off..off + |w|] == all[..|w|];
    assert data[off + |w|] == all[|w|];
    assert data[off + |w| + 1] == all[|w| + 1];
    OkSized(labels);
    DecodeWire(data, off, depth, [], labels);
    assert [] + Dotted(labels) == Dotted(labels);
    DottedNoZero(labels);
    DecodePointer(data, off + |w|, depth, Dotted(labels), target);
  }

  /** So a prefix and a name written at the target read as one name. */
  lemma PointerToName(data: seq<Byte>, off: nat, labels: seq<Text>, target: Byte, more: seq<Text>)
    requires LabelsOk(labels) && LabelsOk(more) && more != [] && Records.HEADER_SIZE <= target < |data|
    requires |Dotted(labels)| + |Dotted(more)| <= 256
    requires var w := EncodeName(Dotted(labels) + ([HASH] + Decimal(target)));
             off + |w| <= |data| && data[off..off + |w|] == w
    requires var w := EncodeName(Name(more)); target + |w| <= |data| && data[target..target + |w|] == w
    ensures DecodeName(data, off, 0) == Decoded(|Dotted(labels)| + 2, Name(labels + more))
  {
    hide EncodeName, DecodeName, LabelsOk, Decimal, Dotted, Name;
    DottedName(more);
    RoundTrip(data, target, 1, more);
    PointerRoundTrip(data, off, 0, labels, target);
    NameConcat(labels, more);
  }

  lemma {:induction false} NameConcat(labels: seq<Text>, more: seq<Text>)
    requires more != []
    ensures Name(labels + more) == Dotted(labels) + Name(more)
  {
    if labels == [] {
      assert labels + more == more;
    } else {
      NameConcat(labels[1..], more);
      assert (labels + more)[1..] == labels[1..] + more;
    }
  }

  // ---------------------------------------------------------------------------------------------
  // Any bytes at all
  // ---------------------------------------------------------------------------------------------

  lemma {:induction false} CStringShorter(s: Text)
    ensures |CString(s)| <= |s|
  {
    if s != [] {
      CStringShorter(s[1..]);
    }
  }

  lemma {:induction false} FromFits(data: seq<Byte>, off: nat, depth: nat, out: Text)
    requires off < |data| && depth <= MAX_DEPTH && |out| <= 256
    ensures var r := DecodeFrom(data, off, depth, |out|, out); r.len <= |out| + (|data| - off) + 1 && |r.text| <= 256
    decreases |data| - off
  {
    hide CString, DecodeName;
    forall s: Text ensures |CString(s)| <= |s| {
      CStringShorter(s);
    }
    var word := data[off];
    if 0 < word < 0xC0 && |out| + word <= 255 && off + word + 2 <= |data| {
      FromFits(data, off + word + 1, depth, out + data[off + 1..off + 1 + word] + [DOT]);
    }
  }

  /** Whatever the bytes are, a name's length counts no byte beyond the layer but a final zero, and its text fits in 256
      bytes. */
  lemma DecodedFits(data: seq<Byte>, off: nat, depth: nat)
    requires off <= |data|
    ensures var r := DecodeName(data, off, depth); r.len <= |data| - off + 1 && |r.text| <= 256
  {
    if off < |data| && depth <= MAX_DEPTH {
      FromFits(data, off, depth, []);
    }
  }
}
