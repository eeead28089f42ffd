/** A reader of the text format, and what it reads from the serializer's text: every family with its help and type, and
    every series with its labels and value. */
module PrometheusReader {
  import opened Bytes
  import opened PrometheusSerializer
  import opened PrometheusText
  import opened Utf8Labels
  import opened Wrappers

  datatype Line =
    | Help(base: Text, help: Text)
    | Kind(base: Text, kind: Type)
    | Sample(name: Text, labels: seq<Label>, value: Text)
    | Bad

  // ---------------------------------------------------------------------------------------------
  // Reading
  // ---------------------------------------------------------------------------------------------

  /** Where a byte is first, or the end. */
  function IndexOf(t: Text, b: Byte): (n: nat)
    ensures n <= |t|
  {
    if t == [] || t[0] == b then 0 else 1 + IndexOf(t[1..], b)
  }

  /** The lines of a text, each ended by a newline. */
  function SplitLines(t: Text): seq<Text> {
    if t == [] then []
    else var n := IndexOf(t, 10);
      if n == |t| then [t] else [t[..n]] + SplitLines(t[n + 1..])
  }

  /** Reads a quoted value up to its closing quote, and what follows that. */
  function ReadQuoted(t: Text): Option<(Text, Text)> {
    if t == [] then None
    else if t[0] == 34 then Some(([], t[1..]))
    else if t[0] == 92 then
      if |t| < 2 then None
      else match ReadQuoted(t[2..])
        case None => None
        case Some((value, rest)) =>
          if t[1] == 110 then Some(([10] + value, rest))
          else if t[1] == 92 || t[1] == 34 then Some(([t[1]] + value, rest))
          else None
    else match ReadQuoted(t[1..])
      case None => None
      case Some((value, rest)) => Some(([t[0]] + value, rest))
  }

  /** Reads labels up to the closing brace, and what follows that. */
  function ReadLabels(t: Text): Option<(seq<Label>, Text)>
    decreases |t|
  {
    if t != [] && t[0] == 125 then Some(([], t[1..]))
    else
      var n := IndexOf(t, 61);
      if n + 2 > |t| || t[n + 1] != 34 then None
      else match ReadQuoted(t[n + 2..])
        case None => None
        case Some((value, rest)) =>
          if rest == [] || |rest| >= |t| then None
          else if rest[0] == 125 then Some(([Label(t[..n], value)], rest[1..]))
          else if rest[0] != 44 then None
          else match ReadLabels(rest[1..])
            case None => None
            case Some((labels, end)) => Some(([Label(t[..n], value)] + labels, end))
  }

  function ReadSample(line: Text): Line {
    var n := IndexOf(line, 123);
    if n == |line| then Bad
    else match ReadLabels(line[n + 1..])
      case None => Bad
      case Some((labels, rest)) =>
        if rest == [] || rest[0] != 32 then Bad else Sample(line[..n], labels, rest[1..])
  }

  function ReadHelp(t: Text): Text {
    if t == [] then []
    else if t[0] == 92 && |t| > 1 && t[1] == 92 then [92] + ReadHelp(t[2..])
    else if t[0] == 92 && |t| > 1 && t[1] == 110 then [10] + ReadHelp(t[2..])
    else [t[0]] + ReadHelp(t[1..])
  }

  function ReadKind(t: Text): Option<Type> {
    if t == Ascii("counter") then Some(Counter)
    else if t == Ascii("gauge") then Some(Gauge)
    else if t == Ascii("histogram") then Some(Histogram)
    else if t == Ascii("summary") then Some(Summary)
    else None
  }

  function ReadLine(line: Text): Line {
    var rest := if |line| > 7 then line[7..] else [];
    var n := IndexOf(rest, 32);
    if Ascii("# HELP ") <= line then
      if n == |rest| then Bad else Help(rest[..n], ReadHelp(rest[n + 1..]))
    else if Ascii("# TYPE ") <= line then
      if n == |rest| then Bad
      else match ReadKind(rest[n + 1..])
        case None => Bad
        case Some(kind) => Kind(rest[..n], kind)
    else ReadSample(line)
  }

  function ReadLines(lines: seq<Text>): seq<Line> {
    if lines == [] then [] else ReadLines(lines[..|lines| - 1]) + [ReadLine(lines[|lines| - 1])]
  }

  function ReadText(t: Text): seq<Line> {
    ReadLines(SplitLines(t))
  }

  // ---------------------------------------------------------------------------------------------
  // What there is to read
  // ---------------------------------------------------------------------------------------------

  /** A metric's name: its family's, and each suffix after an underscore. */
  function FullName(base: Text, suffix: seq<Text>): Text
    decreases |suffix|
  {
    if suffix == [] then base else FullName(base + [95] + suffix[0], suffix[1..])
  }

  /** Labels with their values as UTF-8. */
  function Rendered(labels: seq<Label>): seq<Label> {
    if labels == [] then [] else [Label(labels[0].name, Escape(labels[0].value))] + Rendered(labels[1..])
  }

  function SampleOf(statics: seq<Label>, w: Write): Line {
    Sample(FullName(w.base, w.suffix), Rendered(Shown(statics, w.labels)), w.value)
  }

  function Samples(statics: seq<Label>, ws: seq<Write>): seq<Line> {
    if ws == [] then [] else Samples(statics, ws[..|ws| - 1]) + [SampleOf(statics, ws[|ws| - 1])]
  }

  /** The families `bases`: for each, its help, its type, and its series. */
  function Families(statics: seq<Label>, ws: seq<Write>, bases: seq<Text>): seq<Line>
    requires forall b | b in bases :: Of(ws, b) != []
  {
    if bases == [] then []
    else
      var b := bases[|bases| - 1];
      var mine := Of(ws, b);
      Families(statics, ws, bases[..|bases| - 1])
      + [Help(b, FirstHelp(mine)), Kind(b, mine[0].kind)] + Samples(statics, mine)
  }

  /** A name of a metric holds no newline, space or brace, and does not start as a comment does. */
  predicate NameOk(name: Text) {
    10 !in name && 32 !in name && 123 !in name
  }

  predicate Readable(w: Write) {
    && w.base != [] && w.base[0] != 35 && NameOk(w.base) && (forall i | 0 <= i < |w.suffix| :: NameOk(w.suffix[i]))
    && 10 !in w.value && Identifiers(w.labels)
  }

  predicate AllReadable(ws: seq<Write>) {
    forall i | 0 <= i < |ws| :: Readable(ws[i])
  }

  // ---------------------------------------------------------------------------------------------
  // Pieces are read back
  // ---------------------------------------------------------------------------------------------

  lemma {:induction false} IndexIs(a: Text, b: Byte, rest: Text)
    requires b !in a
    ensures IndexOf(a + [b] + rest, b) == |a|
    ensures (a + [b] + rest)[..|a|] == a && (a + [b] + rest)[|a| + 1..] == rest
  {
    var t := a + [b] + rest;
    if a == [] {
      assert t == [b] + rest;
    } else {
      IndexIs(a[1..], b, rest);
      assert t[1..] == a[1..] + [b] + rest;
    }
  }

  /** A line and its newline. */
  lemma SplitFirst(line: Text, rest: Text)
    requires 10 !in line
    ensures SplitLines(line + [10] + rest) == [line] + SplitLines(rest)
  {
    IndexIs(line, 10, rest);
  }

  /** A quoted text is read back whatever follows its closing quote. */
  lemma {:induction false} QuotedReads(t: Text, rest: Text)
    ensures ReadQuoted(Quoted(t) + [34] + rest) == Some((t, rest))
  {
    var q := Quoted(t) + [34] + rest;
    if t == [] {
      assert q == [34] + rest;
    } else {
      QuotedReads(t[1..], rest);
      var next := Quoted(t[1..]) + [34] + rest;
      assert q == QuotedByte(t[0]) + next;
      assert t == [t[0]] + t[1..];
      if |QuotedByte(t[0])| == 2 {
        assert q[2..] == next && q[0] == 92 && q[1] == QuotedByte(t[0])[1];
      } else {
        assert q[1..] == next && q[0] == t[0];
      }
    }
  }

  lemma {:induction false} HelpReads(t: Text)
    ensures ReadHelp(HelpText(t)) == t
  {
    if t != [] {
      HelpReads(t[1..]);
      var h, next := HelpText(t), HelpText(t[1..]);
      assert h == HelpByte(t[0]) + next;
      assert t == [t[0]] + t[1..];
      if |HelpByte(t[0])| == 2 {
        assert h[2..] == next && h[0] == 92 && h[1] == HelpByte(t[0])[1];
      } else {
        assert h[1..] == next && h[0] == t[0];
      }
    }
  }

  lemma KindReads(k: Type)
    ensures ReadKind(KindText(k)) == Some(k)
  {
    assert KindText(k)[0] == match k
                             case Counter => 99
                             case Gauge => 103
                             case Histogram => 104
                             case Summary => 115;
  }

  lemma NoEquals(name: Text)
    requires Identifier(name)
    ensures 61 !in name && name != [] && name[0] != 125
  {
  }

  /** One label, and what follows it. */
  lemma LabelReads(l: Label, rest: Text)
    requires Identifier(l.name)
    ensures var t := LabelText(l) + rest; var n := IndexOf(t, 61);
            && n == |l.name| && n + 2 <= |t| && t[n + 1] == 34 && t[..n] == l.name && t[0] != 125
            && ReadQuoted(t[n + 2..]) == Some((Escape(l.value), rest)) && |rest| < |t|
  {
    hide ReadQuoted, Quoted, Escape, Identifier;
    NoEquals(l.name);
    var q := Quoted(Escape(l.value));
    var t := LabelText(l) + rest;
    var tail := [34] + (q + [34] + rest);
    assert t == l.name + [61] + tail;
    IndexIs(l.name, 61, tail);
    assert t[|l.name| + 1..] == tail && t[|l.name| + 2..] == tail[1..] == q + [34] + rest;
    QuotedReads(Escape(l.value), rest);
  }

  lemma ReadLabelsFirst(t: Text, value: Text, rest: Text)
    requires var n := IndexOf(t, 61);
             && t != [] && t[0] != 125 && n + 2 <= |t| && t[n + 1] == 34
             && ReadQuoted(t[n + 2..]) == Some((value, rest))
    requires rest != [] && |rest| < |t| && (rest[0] == 125 || rest[0] == 44)
    ensures var first := Label(t[..IndexOf(t, 61)], value);
            if rest[0] == 125 then ReadLabels(t) == Some(([first], rest[1..]))
            else ReadLabels(rest[1..]).Some? ==>
                   var (labels, end) := ReadLabels(rest[1..]).value; ReadLabels(t) == Some(([first] + labels, end))
  {
    hide ReadQuoted, IndexOf;
  }

  lemma RenderedFirst(labels: seq<Label>)
    requires labels != []
    ensures Rendered(labels) == [Label(labels[0].name, Escape(labels[0].value))] + Rendered(labels[1..])
    ensures |labels| == 1 ==> Rendered(labels) == [Label(labels[0].name, Escape(labels[0].value))]
  {
  }

  /** Labels are read back whatever follows the closing brace. */
  lemma {:induction false} LabelsRead(labels: seq<Label>, rest: Text)
    requires Identifiers(labels)
    ensures ReadLabels(Joined(labels) + [125] + rest) == Some((Rendered(labels), rest))
    decreases |labels|
  {
    if labels == [] {
      assert Joined(labels) + [125] + rest == [125] + rest;
    } else {
      hide ReadQuoted, LabelText, Escape, Identifier, ReadLabels, Rendered, Joined, IndexOf;
      var l := labels[0];
      RenderedFirst(labels);
      var after := After(labels) + ([125] + rest);
      JoinedFirst(labels, [125] + rest);
      var t := Joined(labels) + [125] + rest;
      assert t == LabelText(l) + after;
      LabelReads(l, after);
      AfterParts(labels, rest);
      ReadLabelsFirst(t, Escape(l.value), after);
      if |labels| > 1 {
        LabelsRead(labels[1..], rest);
      }
    }
  }

  lemma {:induction false} SuffixesFirst(suffix: seq<Text>)
    requires suffix != []
    ensures Suffixes(suffix) == [95] + suffix[0] + Suffixes(suffix[1..])
  {
    var n := |suffix| - 1;
    if n == 0 {
      assert suffix[..0] == [] && suffix[1..] == [];
      assert Suffixes(suffix) == Suffixes([]) + [95] + suffix[0];
    } else {
      SuffixesFirst(suffix[..n]);
      assert suffix[..n][1..] == suffix[1..][..n - 1] && suffix[1..][n - 1] == suffix[n];
    }
  }

  lemma {:induction false} FullNameIs(base: Text, suffix: seq<Text>)
    ensures FullName(base, suffix) == base + Suffixes(suffix)
    decreases |suffix|
  {
    if suffix == [] {
      assert base + Suffixes(suffix) == base;
    } else {
      FullNameIs(base + [95] + suffix[0], suffix[1..]);
      SuffixesFirst(suffix);
    }
  }

  lemma {:induction false} FullNameOk(base: Text, suffix: seq<Text>)
    requires NameOk(base) && base != [] && base[0] != 35 && forall i | 0 <= i < |suffix| :: NameOk(suffix[i])
    ensures var name := FullName(base, suffix); NameOk(name) && name != [] && name[0] != 35
    decreases |suffix|
  {
    if suffix != [] {
      FullNameOk(base + [95] + suffix[0], suffix[1..]);
    }
  }

  lemma NoComment(line: Text)
    requires line != [] && line[0] != 35
    ensures ReadLine(line) == ReadSample(line)
  {
    hide ReadSample;
    assert Ascii("# HELP ")[0] == 35 && Ascii("# TYPE ")[0] == 35;
  }

  /** A series' line is read back. */
  lemma SampleReads(statics: seq<Label>, w: Write)
    requires Identifiers(statics) && Readable(w)
    ensures var line := LineText(statics, w);
            |line| > 0 && line == line[..|line| - 1] + [10] && 10 !in line[..|line| - 1]
            && ReadLine(line[..|line| - 1]) == SampleOf(statics, w)
  {
    hide ReadLabels, Joined, Rendered, Suffixes, FullName, Shown;
    var name, shown := FullName(w.base, w.suffix), Shown(statics, w.labels);
    FullNameIs(w.base, w.suffix);
    FullNameOk(w.base, w.suffix);
    ShownIdentifiers(statics, w.labels);
    JoinedOneLine(shown);
    var end := [32] + w.value;
    var line := name + [123] + (Joined(shown) + [125] + end);
    assert LineText(statics, w) == line + [10];
    IndexIs(name, 123, Joined(shown) + [125] + end);
    LabelsRead(shown, end);
    assert line[0] == name[0] != 35;
    NoComment(line);
  }

  lemma CommentMarks()
    ensures var h, t := Ascii("# HELP "), Ascii("# TYPE "); |h| == 7 == |t| && h[2] != t[2] && 10 !in h && 10 !in t
  {
  }

  lemma KindOneLine(kind: Type)
    ensures 10 !in KindText(kind) && KindText(kind) != []
  {
  }

  lemma HelpLineReads(base: Text, help: Text)
    requires NameOk(base)
    ensures var a := Ascii("# HELP ") + base + [32] + HelpText(help); 10 !in a && ReadLine(a) == Help(base, help)
  {
    hide HelpText, ReadHelp, ReadKind, Ascii, ReadSample, IndexOf;
    var h, rest := Ascii("# HELP "), base + [32] + HelpText(help);
    var a := h + base + [32] + HelpText(help);
    CommentMarks();
    HelpInjective(help, help);
    HelpReads(help);
    IndexIs(base, 32, HelpText(help));
    assert a == h + rest;
    assert a[7..] == rest && h <= a;
  }

  lemma KindLineReads(base: Text, kind: Type)
    requires NameOk(base)
    ensures var b := Ascii("# TYPE ") + base + [32] + KindText(kind); 10 !in b && ReadLine(b) == Kind(base, kind)
  {
    hide KindText, ReadHelp, ReadKind, Ascii, ReadSample, IndexOf;
    var h, t, rest := Ascii("# HELP "), Ascii("# TYPE "), base + [32] + KindText(kind);
    var b := t + base + [32] + KindText(kind);
    CommentMarks();
    KindReads(kind);
    KindOneLine(kind);
    IndexIs(base, 32, KindText(kind));
    assert b == t + rest;
    assert b[7..] == rest && t <= b && b[2] == t[2];
    assert !(h <= b);
  }

  /** A family's header is two lines. */
  lemma HeaderLines(base: Text, help: Text, kind: Type)
    ensures var a := Ascii("# HELP ") + base + [32] + HelpText(help);
            var b := Ascii("# TYPE ") + base + [32] + KindText(kind);
            Header(base, help, kind) == a + [10] + (b + [10])
  {
    hide HelpText, KindText, Ascii;
  }

  // ---------------------------------------------------------------------------------------------
  // The whole text is read back
  // ---------------------------------------------------------------------------------------------

  /** A text of whole lines. */
  predicate Whole(t: Text) {
    t == [] || t[|t| - 1] == 10
  }

  lemma {:induction false} Found(t: Text, b: Byte)
    requires t != [] && t[|t| - 1] == b
    ensures var n := IndexOf(t, b); n < |t| && t[n] == b && b !in t[..n]
  {
    if t[0] != b {
      Found(t[1..], b);
      var n := IndexOf(t[1..], b);
      assert t[..n + 1] == [t[0]] + t[1..][..n];
    }
  }

  lemma FirstLine(a: Text) returns (line: Text, rest: Text)
    requires a != [] && Whole(a)
    ensures 10 !in line && a == line + [10] + rest && Whole(rest)
  {
    hide IndexOf;
    var n := IndexOf(a, 10);
    Found(a, 10);
    line, rest := a[..n], a[n + 1..];
    assert rest != [] ==> rest[|rest| - 1] == a[|a| - 1];
  }

  lemma NothingToSplit()
    ensures SplitLines([]) == []
  {
  }

  lemma {:induction false} SplitBoth(a: Text, b: Text)
    requires Whole(a)
    ensures SplitLines(a + b) == SplitLines(a) + SplitLines(b)
    decreases |a|
  {
    hide SplitLines, Whole;
    if a == [] {
      NothingToSplit();
      assert a + b == b && [] + SplitLines(b) == SplitLines(b);
    } else {
      var line, rest := FirstLine(a);
      SplitBoth(rest, b);
      SplitFirst(line, rest);
      SplitFirst(line, rest + b);
      assert a + b == line + [10] + (rest + b);
      assert [line] + (SplitLines(rest) + SplitLines(b)) == [line] + SplitLines(rest) + SplitLines(b);
    }
  }

  lemma {:induction false} ReadBothLines(a: seq<Text>, b: seq<Text>)
    ensures ReadLines(a + b) == ReadLines(a) + ReadLines(b)
  {
    if b == [] {
      assert a + b == a;
    } else {
      ReadBothLines(a, b[..|b| - 1]);
      assert (a + b)[..|a + b| - 1] == a + b[..|b| - 1];
    }
  }

  lemma ReadBoth(a: Text, b: Text)
    requires Whole(a)
    ensures ReadText(a + b) == ReadText(a) + ReadText(b)
  {
    hide ReadLines, SplitLines;
    SplitBoth(a, b);
    ReadBothLines(SplitLines(a), SplitLines(b));
  }

  lemma ReadOne(line: Text)
    requires 10 !in line
    ensures ReadText(line + [10]) == [ReadLine(line)] && Whole(line + [10])
  {
    hide ReadLine;
    SplitFirst(line, []);
    assert line + [10] + [] == line + [10];
    var lines := [line];
    assert lines[..0] == [] && SplitLines([]) == [];
    assert SplitLines(line + [10]) == lines;
    assert ReadLines(lines[..0]) == [];
    assert ReadLines(lines) == [] + [ReadLine(line)];
  }

  lemma NothingRead()
    ensures ReadText([]) == []
  {
  }

  lemma {:induction false} LinesRead(statics: seq<Label>, ws: seq<Write>)
    requires Identifiers(statics) && AllReadable(ws)
    ensures var t := Lines(statics, ws); ReadText(t) == Samples(statics, ws) && Whole(t)
  {
    hide ReadText, LineText, SampleOf, Readable;
    if ws == [] {
      NothingRead();
    } else {
      var n := |ws| - 1;
      LinesRead(statics, ws[..n]);
      SampleReads(statics, ws[n]);
      var line := LineText(statics, ws[n]);
      ReadOne(line[..|line| - 1]);
      ReadBoth(Lines(statics, ws[..n]), line);
    }
  }

  lemma FamilyReads(statics: seq<Label>, base: Text, ws: seq<Write>)
    requires Identifiers(statics) && ws != [] && AllReadable(ws) && NameOk(base)
    ensures var t := FamilyText(base, FamilyOf(statics, ws));
            && ReadText(t) == [Help(base, FirstHelp(ws)), Kind(base, ws[0].kind)] + Samples(statics, ws) && Whole(t)
  {
    hide ReadText, Lines, Samples, FirstHelp, Header, HelpText, KindText, Ascii, ReadLine, Readable;
    var help, kind := FirstHelp(ws), ws[0].kind;
    HelpLineReads(base, help);
    KindLineReads(base, kind);
    HeaderLines(base, help, kind);
    var a, b := Ascii("# HELP ") + base + [32] + HelpText(help), Ascii("# TYPE ") + base + [32] + KindText(kind);
    ReadOne(a);
    ReadOne(b);
    LinesRead(statics, ws);
    ReadBoth(a + [10], b + [10]);
    ReadBoth(Header(base, help, kind), Lines(statics, ws));
  }

  lemma {:induction false} OfReadable(ws: seq<Write>, base: Text)
    requires AllReadable(ws)
    ensures AllReadable(Of(ws, base)) && forall i | 0 <= i < |Of(ws, base)| :: Of(ws, base)[i].base == base
  {
    hide Readable;
    if ws != [] {
      OfReadable(ws[..|ws| - 1], base);
    }
  }

  lemma BaseOk(ws: seq<Write>)
    requires ws != [] && AllReadable(ws)
    ensures NameOk(ws[0].base)
  {
  }

  lemma {:induction false} GroupedReads(statics: seq<Label>, ws: seq<Write>, bases: seq<Text>)
    requires Identifiers(statics) && AllReadable(ws) && forall b | b in bases :: Of(ws, b) != []
    ensures var t := Grouped(statics, ws, bases); ReadText(t) == Families(statics, ws, bases) && Whole(t)
  {
    hide ReadText, FamilyText, FamilyOf, Samples, Of, FirstHelp, Readable;
    if bases == [] {
      NothingRead();
    } else {
      var n := |bases| - 1;
      var b := bases[n];
      var mine := Of(ws, b);
      GroupedReads(statics, ws, bases[..n]);
      OfReadable(ws, b);
      BaseOk(mine);
      FamilyReads(statics, b, mine);
      ReadBoth(Grouped(statics, ws, bases[..n]), FamilyText(b, FamilyOf(statics, mine)));
      assert Families(statics, ws, bases)
          == Families(statics, ws, bases[..n])
             + ([Help(b, FirstHelp(mine)), Kind(b, mine[0].kind)] + Samples(statics, mine));
    }
  }

  /** The text of any history of writes is read back as the families in the order of their first writes, each with its
      help, its type and its series. */
  lemma TextReads(statics: seq<Label>, ws: seq<Write>)
    requires Identifiers(statics) && AllReadable(ws)
    ensures forall b | b in Bases(ws) :: Of(ws, b) != []
    ensures ReadText(Grouped(statics, ws, Bases(ws))) == Families(statics, ws, Bases(ws))
  {
    hide Of, Bases, Readable, ReadText;
    BasesHaveWrites(ws);
    GroupedReads(statics, ws, Bases(ws));
  }
}
