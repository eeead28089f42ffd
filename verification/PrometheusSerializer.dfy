/** The serializer: it collects series by metric family as they are written and renders them once. */
module PrometheusSerializer {
  import opened Bytes
  import opened Utf8Labels
  import opened PrometheusText

  // ---------------------------------------------------------------------------------------------
  // The text of a history of writes, as a stable group-by
  // ---------------------------------------------------------------------------------------------

  function Suffixes(suffix: seq<Text>): Text {
    if suffix == [] then [] else Suffixes(suffix[..|suffix| - 1]) + [UNDERSCORE] + suffix[|suffix| - 1]
  }

  function LineText(statics: seq<Label>, w: Write): Text {
    w.base + Suffixes(w.suffix) + LabelsText(statics, w.labels) + [SPACE] + w.value + [NEWLINE]
  }

  function Lines(statics: seq<Label>, ws: seq<Write>): Text {
    if ws == [] then [] else Lines(statics, ws[..|ws| - 1]) + LineText(statics, ws[|ws| - 1])
  }

  /** The writes of one family, in order. */
  function Of(ws: seq<Write>, base: Text): seq<Write> {
    if ws == [] then [] else Of(ws[..|ws| - 1], base) + if ws[|ws| - 1].base == base then [ws[|ws| - 1]] else []
  }

  /** The families, in the order of their first writes. */
  function Bases(ws: seq<Write>): seq<Text> {
    if ws == [] then []
    else var before, base := Bases(ws[..|ws| - 1]), ws[|ws| - 1].base;
      if base in before then before else before + [base]
  }

  function FirstHelp(ws: seq<Write>): Text {
    if ws == [] then [] else if ws[0].help != [] then ws[0].help else FirstHelp(ws[1..])
  }

  function FamilyOf(statics: seq<Label>, ws: seq<Write>): Family
    requires ws != []
  {
    Family(ws[0].kind, FirstHelp(ws), Lines(statics, ws))
  }

  function KindText(k: Type): Text {
    match k
    case Counter => Ascii("counter")
    case Histogram => Ascii("histogram")
    case Summary => Ascii("summary")
    case Gauge => Ascii("gauge")
  }

  function Header(base: Text, help: Text, kind: Type): Text {
    Ascii("# HELP ") + base + [SPACE] + HelpText(help) + [NEWLINE] + Ascii("# TYPE ") + base + [SPACE] + KindText(kind)
        + [NEWLINE]
  }

  function FamilyText(base: Text, f: Family): Text {
    Header(base, f.help, f.kind) + f.body
  }

  /** The families `bases`, each with its header and its lines in the order they were written. */
  function Grouped(statics: seq<Label>, ws: seq<Write>, bases: seq<Text>): Text
    requires forall b | b in bases :: Of(ws, b) != []
  {
    if bases == [] then []
    else Grouped(statics, ws, bases[..|bases| - 1]) +
         FamilyText(bases[|bases| - 1], FamilyOf(statics, Of(ws, bases[|bases| - 1])))
  }

  // ---------------------------------------------------------------------------------------------
  // What the grouping means
  // ---------------------------------------------------------------------------------------------

  /** Where a family was first written. */
  function First(ws: seq<Write>, base: Text): nat {
    if ws == [] || ws[0].base == base then 0 else 1 + First(ws[1..], base)
  }

  predicate Written(ws: seq<Write>, base: Text) {
    exists i :: 0 <= i < |ws| && ws[i].base == base
  }

  lemma {:induction false} FirstOk(ws: seq<Write>, base: Text)
    ensures First(ws, base) <= |ws| && forall i | 0 <= i < First(ws, base) :: ws[i].base != base
    ensures First(ws, base) < |ws| ==> ws[First(ws, base)].base == base
  {
    if ws != [] && ws[0].base != base {
      FirstOk(ws[1..], base);
      assert forall i | 0 < i < |ws| :: ws[i] == ws[1..][i - 1];
    }
  }

  lemma {:induction false} OfWritten(ws: seq<Write>, base: Text)
    ensures Of(ws, base) != [] <==> Written(ws, base)
  {
    if ws != [] {
      var rest, last := ws[..|ws| - 1], ws[|ws| - 1];
      OfWritten(rest, base);
      if Written(rest, base) {
        var i :| 0 <= i < |rest| && rest[i].base == base;
        assert ws[i].base == base;
      }
      if last.base == base {
        assert ws[|ws| - 1].base == base;
      }
    }
  }

  lemma {:induction false} BasesWritten(ws: seq<Write>, base: Text)
    ensures base in Bases(ws) <==> Of(ws, base) != []
  {
    if ws != [] {
      BasesWritten(ws[..|ws| - 1], base);
    }
  }

  /** One header per family, in the order of first writes. */
  lemma {:induction false} BasesInOrder(ws: seq<Write>)
    ensures forall i, k | 0 <= i < k < |Bases(ws)| :: First(ws, Bases(ws)[i]) < First(ws, Bases(ws)[k])
  {
    if ws != [] {
      var rest, last := ws[..|ws| - 1], ws[|ws| - 1];
      var before, bases := Bases(rest), Bases(ws);
      BasesInOrder(rest);
      forall i, k | 0 <= i < k < |bases| ensures First(ws, bases[i]) < First(ws, bases[k]) {
        FirstPrefix(ws, bases[i]);
        if k < |before| {
          FirstPrefix(ws, bases[k]);
        } else {
          FirstLast(ws);
        }
      }
    }
  }

  lemma BasesDistinct(ws: seq<Write>)
    ensures forall i, k | 0 <= i < k < |Bases(ws)| :: Bases(ws)[i] != Bases(ws)[k]
  {
    hide First, Bases;
    BasesInOrder(ws);
    forall i, k | 0 <= i < k < |Bases(ws)| ensures Bases(ws)[i] != Bases(ws)[k] {
      assert First(ws, Bases(ws)[i]) < First(ws, Bases(ws)[k]);
    }
  }

  /** A family written before the last write was first written there. */
  lemma FirstPrefix(ws: seq<Write>, base: Text)
    requires ws != [] && base in Bases(ws[..|ws| - 1])
    ensures First(ws, base) == First(ws[..|ws| - 1], base) < |ws| - 1
  {
    var rest := ws[..|ws| - 1];
    BasesWritten(rest, base);
    OfWritten(rest, base);
    FirstOk(rest, base);
    FirstOk(ws, base);
    var n, m := First(rest, base), First(ws, base);
    assert n < |rest|;
    assert ws[n] == rest[n] && (m < |rest| ==> ws[m] == rest[m]);
    assert forall i | 0 <= i < |rest| :: ws[i] == rest[i];
  }

  lemma FirstLast(ws: seq<Write>)
    requires ws != [] && ws[|ws| - 1].base !in Bases(ws[..|ws| - 1])
    ensures First(ws, ws[|ws| - 1].base) == |ws| - 1
  {
    var rest, base := ws[..|ws| - 1], ws[|ws| - 1].base;
    BasesWritten(rest, base);
    OfWritten(rest, base);
    assert forall i | 0 <= i < |rest| :: rest[i] == ws[i];
    FirstOk(ws, base);
  }

  lemma OfAppend(ws: seq<Write>, w: Write, base: Text)
    ensures Of(ws + [w], base) == Of(ws, base) + if w.base == base then [w] else []
  {
    assert (ws + [w])[..|ws|] == ws;
  }

  /** The lines of all families together are as many as the writes: each write is in one group. */
  function Total(ws: seq<Write>, bases: seq<Text>): nat {
    if bases == [] then 0 else Total(ws, bases[..|bases| - 1]) + |Of(ws, bases[|bases| - 1])|
  }

  lemma {:induction false} TotalNext(ws: seq<Write>, w: Write, bases: seq<Text>)
    requires forall i, k | 0 <= i < k < |bases| :: bases[i] != bases[k]
    ensures Total(ws + [w], bases) == Total(ws, bases) + if w.base in bases then 1 else 0
  {
    if bases != [] {
      var n := |bases| - 1;
      TotalNext(ws, w, bases[..n]);
      OfAppend(ws, w, bases[n]);
      assert w.base in bases <==> w.base in bases[..n] || w.base == bases[n];
    }
  }

  lemma {:induction false} GroupsCover(ws: seq<Write>)
    ensures Total(ws, Bases(ws)) == |ws|
  {
    hide Of;
    if ws != [] {
      var rest, w := ws[..|ws| - 1], ws[|ws| - 1];
      GroupsCover(rest);
      BasesDistinct(rest);
      assert ws == rest + [w];
      TotalNext(rest, w, Bases(rest));
      if w.base !in Bases(rest) {
        NewGroup(rest, w);
      }
    }
  }

  lemma NewGroup(ws: seq<Write>, w: Write)
    requires w.base !in Bases(ws)
    ensures Total(ws + [w], Bases(ws) + [w.base]) == Total(ws + [w], Bases(ws)) + 1
  {
    hide Of, Bases;
    assert (Bases(ws) + [w.base])[..|Bases(ws)|] == Bases(ws);
    OfAppend(ws, w, w.base);
    BasesWritten(ws, w.base);
  }

  lemma {:induction false} SameGroups(statics: seq<Label>, ws: seq<Write>, vs: seq<Write>, bases: seq<Text>)
    requires forall b | b in bases :: Of(ws, b) != [] && Of(ws, b) == Of(vs, b)
    ensures Grouped(statics, ws, bases) == Grouped(statics, vs, bases)
  {
    hide FamilyText, FamilyOf;
    if bases != [] {
      SameGroups(statics, ws, vs, bases[..|bases| - 1]);
    }
  }

  /** How many of the first `i` writes are of a family. */
  function Earlier(ws: seq<Write>, base: Text, i: nat): nat
    requires i <= |ws|
  {
    if i == 0 then 0 else Earlier(ws, base, i - 1) + if ws[i - 1].base == base then 1 else 0
  }

  lemma {:induction false} EarlierPrefix(ws: seq<Write>, base: Text, n: nat, i: nat)
    requires i <= n <= |ws|
    ensures Earlier(ws[..n], base, i) == Earlier(ws, base, i)
  {
    if i > 0 {
      EarlierPrefix(ws, base, n, i - 1);
    }
  }

  /** A family's writes are those with its name, in the order they were made. */
  lemma {:induction false} OfInOrder(ws: seq<Write>, base: Text)
    ensures |Of(ws, base)| == Earlier(ws, base, |ws|)
    ensures forall i | 0 <= i < |ws| && ws[i].base == base ::
              Earlier(ws, base, i) < |Of(ws, base)| && Of(ws, base)[Earlier(ws, base, i)] == ws[i]
  {
    if ws != [] {
      var n := |ws| - 1;
      OfInOrder(ws[..n], base);
      EarlierPrefix(ws, base, n, n);
      forall i | 0 <= i < |ws| && ws[i].base == base
        ensures Earlier(ws, base, i) < |Of(ws, base)| && Of(ws, base)[Earlier(ws, base, i)] == ws[i]
      {
        if i < n {
          assert ws[..n][i] == ws[i];
          EarlierPrefix(ws, base, n, i);
        }
      }
    }
  }

  /** The help shown is the first that is not empty, if there is one. */
  lemma {:induction false} FirstHelpIs(ws: seq<Write>)
    ensures FirstHelp(ws) == [] <==> forall i | 0 <= i < |ws| :: ws[i].help == []
    ensures FirstHelp(ws) != [] ==>
              exists i :: 0 <= i < |ws| && ws[i].help == FirstHelp(ws) && forall k | 0 <= k < i :: ws[k].help == []
  {
    if ws != [] {
      var rest := ws[1..];
      FirstHelpIs(rest);
      assert forall i | 0 < i < |ws| :: ws[i] == rest[i - 1];
      if ws[0].help == [] && FirstHelp(rest) != [] {
        var i :| 0 <= i < |rest| && rest[i].help == FirstHelp(rest) && forall k | 0 <= k < i :: rest[k].help == [];
        assert ws[i + 1].help == FirstHelp(ws);
      }
    }
  }

  lemma BasesHaveWrites(ws: seq<Write>)
    ensures forall b | b in Bases(ws) :: Of(ws, b) != []
  {
    forall b | b in Bases(ws) ensures Of(ws, b) != [] {
      BasesWritten(ws, b);
    }
  }

  lemma {:induction false} SwapOf(front: seq<Write>, a: Write, b: Write, rest: seq<Write>, base: Text)
    requires a.base != b.base
    ensures Of(front + [a] + [b] + rest, base) == Of(front + [b] + [a] + rest, base)
  {
    var ws, vs := front + [a] + [b], front + [b] + [a];
    if rest == [] {
      hide Of;
      OfAppend(front, a, base);
      OfAppend(front + [a], b, base);
      OfAppend(front, b, base);
      OfAppend(front + [b], a, base);
      assert ws + rest == ws && vs + rest == vs;
    } else {
      var n := |rest| - 1;
      SwapOf(front, a, b, rest[..n], base);
      OfAppend(ws + rest[..n], rest[n], base);
      OfAppend(vs + rest[..n], rest[n], base);
      assert ws + rest == ws + rest[..n] + [rest[n]] && vs + rest == vs + rest[..n] + [rest[n]];
    }
  }

  lemma BasesAppend(ws: seq<Write>, w: Write)
    ensures Bases(ws + [w]) == if w.base in Bases(ws) then Bases(ws) else Bases(ws) + [w.base]
  {
    assert (ws + [w])[..|ws|] == ws;
  }

  /** What is written later adds families after the ones before, and the same to the same ones. */
  lemma {:induction false} BasesAfter(ws: seq<Write>, vs: seq<Write>, rest: seq<Write>)
    ensures Bases(ws) <= Bases(ws + rest)
    ensures Bases(ws) == Bases(vs) ==> Bases(ws + rest) == Bases(vs + rest)
  {
    if rest == [] {
      assert ws + rest == ws && vs + rest == vs;
    } else {
      var n := |rest| - 1;
      BasesAfter(ws, vs, rest[..n]);
      BasesAppend(ws + rest[..n], rest[n]);
      BasesAppend(vs + rest[..n], rest[n]);
      assert ws + rest == ws + rest[..n] + [rest[n]] && vs + rest == vs + rest[..n] + [rest[n]];
    }
  }

  /** Two writes of different families may change places, and the families stay in order exactly if not both were
      new. */
  lemma SwapBases(front: seq<Write>, a: Write, b: Write, rest: seq<Write>)
    requires a.base != b.base
    ensures Bases(front + [a] + [b] + rest) == Bases(front + [b] + [a] + rest)
       <==> a.base in Bases(front) || b.base in Bases(front)
  {
    hide Bases;
    var ws, vs, n := front + [a] + [b], front + [b] + [a], |Bases(front)|;
    BasesAppend(front, a);
    BasesAppend(front + [a], b);
    BasesAppend(front, b);
    BasesAppend(front + [b], a);
    BasesAfter(ws, vs, rest);
    BasesAfter(vs, ws, rest);
    if a.base !in Bases(front) && b.base !in Bases(front) {
      assert Bases(ws)[n] == a.base && Bases(vs)[n] == b.base;
      assert Bases(ws + rest)[n] == a.base && Bases(vs + rest)[n] == b.base;
    }
  }

  /** The text shows the order of families and, for each, its own writes: two histories that agree in both have the
      same text. */
  lemma SameText(statics: seq<Label>, ws: seq<Write>, vs: seq<Write>)
    requires Bases(ws) == Bases(vs) && forall b | b in Bases(ws) :: Of(ws, b) == Of(vs, b)
    ensures forall b | b in Bases(ws) :: Of(ws, b) != [] && Of(vs, b) != []
    ensures Grouped(statics, ws, Bases(ws)) == Grouped(statics, vs, Bases(vs))
  {
    BasesHaveWrites(ws);
    SameGroups(statics, ws, vs, Bases(ws));
  }

  /** So writes of different families may be interleaved in any way: changing the order of two of them, not both the
      first of their families, does not show. */
  lemma SwapDoesNotShow(statics: seq<Label>, front: seq<Write>, a: Write, b: Write, rest: seq<Write>)
    requires a.base != b.base && (a.base in Bases(front) || b.base in Bases(front))
    ensures var ws, vs := front + [a] + [b] + rest, front + [b] + [a] + rest;
            && (forall f | f in Bases(ws) :: Of(ws, f) != []) && (forall f | f in Bases(vs) :: Of(vs, f) != [])
            && Grouped(statics, ws, Bases(ws)) == Grouped(statics, vs, Bases(vs))
  {
    hide Of, Bases;
    var ws, vs := front + [a] + [b] + rest, front + [b] + [a] + rest;
    SwapBases(front, a, b, rest);
    forall f | f in Bases(ws) ensures Of(ws, f) == Of(vs, f) {
      SwapOf(front, a, b, rest, f);
    }
    SameText(statics, ws, vs);
  }

  /** A line ends at its only newline, whatever the label values hold. */
  lemma OneLine(statics: seq<Label>, w: Write)
    requires NEWLINE !in w.base && NEWLINE !in w.value && forall i | 0 <= i < |w.suffix| :: NEWLINE !in w.suffix[i]
    requires Identifiers(statics) && Identifiers(w.labels)
    ensures var line := LineText(statics, w); line[|line| - 1] == NEWLINE && NEWLINE !in line[..|line| - 1]
  {
    hide LabelsText, Suffixes;
    SuffixesOneLine(w.suffix);
    LabelsOneLine(statics, w.labels);
    var line := LineText(statics, w);
    assert line[..|line| - 1] == w.base + Suffixes(w.suffix) + LabelsText(statics, w.labels) + [SPACE] + w.value;
  }

  lemma {:induction false} SuffixesOneLine(suffix: seq<Text>)
    requires forall i | 0 <= i < |suffix| :: NEWLINE !in suffix[i]
    ensures NEWLINE !in Suffixes(suffix)
  {
    if suffix != [] {
      SuffixesOneLine(suffix[..|suffix| - 1]);
    }
  }

  lemma LabelsOneLine(statics: seq<Label>, labels: seq<Label>)
    requires Identifiers(statics) && Identifiers(labels)
    ensures NEWLINE !in LabelsText(statics, labels)
  {
    ShownIdentifiers(statics, labels);
    JoinedOneLine(Shown(statics, labels));
  }

  lemma {:induction false} JoinedOneLine(labels: seq<Label>)
    requires Identifiers(labels)
    ensures NEWLINE !in Joined(labels)
  {
    hide Quoted, Escape;
    if labels != [] {
      QuotedOneLine(Escape(labels[0].value));
      assert Identifier(labels[0].name);
      if |labels| > 1 {
        JoinedOneLine(labels[1..]);
      }
    }
  }

  // ---------------------------------------------------------------------------------------------
  // One more write
  // ---------------------------------------------------------------------------------------------

  lemma {:induction false} FirstHelpAppend(ws: seq<Write>, w: Write)
    ensures FirstHelp(ws + [w]) == if FirstHelp(ws) != [] then FirstHelp(ws) else w.help
  {
    if ws == [] {
      assert ws + [w] == [w];
    } else {
      FirstHelpAppend(ws[1..], w);
      assert (ws + [w])[1..] == ws[1..] + [w];
    }
  }

  lemma FamilyAppend(statics: seq<Label>, ws: seq<Write>, w: Write)
    requires ws != []
    ensures var f := FamilyOf(statics, ws);
            FamilyOf(statics, ws + [w])
            == Family(f.kind, if f.help == [] then w.help else f.help, f.body + LineText(statics, w))
  {
    hide LineText;
    FirstHelpAppend(ws, w);
    assert (ws + [w])[..|ws|] == ws;
  }

  lemma FamilyNew(statics: seq<Label>, w: Write)
    ensures FamilyOf(statics, [w]) == Family(w.kind, w.help, LineText(statics, w))
  {
    hide LineText;
    var none: seq<Write> := [];
    assert [w][..0] == none && [w][1..] == none;
    assert Lines(statics, none) == [] && FirstHelp(none) == [];
    assert Lines(statics, [w]) == LineText(statics, w);
  }

  // ---------------------------------------------------------------------------------------------
  // Appending to a buffer
  // ---------------------------------------------------------------------------------------------

  method AppendEscaped(out: Text, v: Text) returns (out': Text)
    ensures out' == out + Quoted(Escape(v))
  {
    hide Escape, Quoted, NeedsEscape, IsUtf8, Unescape;
    var text := v;
    ChangedIff(v);
    var needs := LabelValueNeedsEscape(v);
    if needs {
      text := Utf8LabelValue(v);
    }
    out' := AppendQuoted(out, text);
  }

  method AppendQuoted(out: Text, text: Text) returns (out': Text)
    ensures out' == out + Quoted(text)
  {
    out' := out;
    var i := 0;
    while i < |text|
      invariant i <= |text| && out' == out + Quoted(text[..i])
    {
      var c := text[i];
      QuotedAppend(text[..i], c);
      assert text[..i + 1] == text[..i] + [c];
      if c == BACKSLASH {
        out' := out' + [BACKSLASH, BACKSLASH];
      } else if c == QUOTE {
        out' := out' + [BACKSLASH, QUOTE];
      } else if c == NEWLINE {
        out' := out' + [BACKSLASH, 110];
      } else {
        out' := out' + [c];
      }
      i := i + 1;
    }
    assert text[..i] == text;
  }

  method AppendHelpEscaped(out: Text, v: Text) returns (out': Text)
    ensures out' == out + HelpText(v)
  {
    out' := out;
    var i := 0;
    while i < |v|
      invariant i <= |v| && out' == out + HelpText(v[..i])
    {
      var c := v[i];
      HelpAppend(v[..i], c);
      assert v[..i + 1] == v[..i] + [c];
      if c == BACKSLASH {
        out' := out' + [BACKSLASH, BACKSLASH];
      } else if c == NEWLINE {
        out' := out' + [BACKSLASH, 110];
      } else {
        out' := out' + [c];
      }
      i := i + 1;
    }
    assert v[..i] == v;
  }

  /** Labels as they are appended, each with its comma. */
  function Trailing(labels: seq<Label>): Text {
    if labels == [] then [] else Trailing(labels[..|labels| - 1]) + LabelText(labels[|labels| - 1]) + [COMMA]
  }

  lemma TrailingAppend(labels: seq<Label>, l: Label)
    ensures Trailing(labels + [l]) == Trailing(labels) + LabelText(l) + [COMMA]
  {
    hide LabelText;
    assert (labels + [l])[..|labels|] == labels;
  }

  lemma {:induction false} JoinedAppend(labels: seq<Label>, l: Label)
    requires labels != []
    ensures Joined(labels + [l]) == Joined(labels) + [COMMA] + LabelText(l)
  {
    hide LabelText;
    assert (labels + [l])[1..] == labels[1..] + [l];
    if |labels| == 1 {
      assert labels[1..] + [l] == [l];
    } else {
      JoinedAppend(labels[1..], l);
    }
  }

  /** Dropping the last comma leaves the joined labels. */
  lemma {:induction false} TrailingJoined(labels: seq<Label>)
    requires labels != []
    ensures Trailing(labels) == Joined(labels) + [COMMA]
  {
    hide LabelText;
    var n := |labels| - 1;
    if n == 0 {
      assert labels[..0] == [];
    } else {
      TrailingJoined(labels[..n]);
      assert labels == labels[..n] + [labels[n]];
      JoinedAppend(labels[..n], labels[n]);
    }
  }

  lemma {:induction false} NotOverriddenAppend(statics: seq<Label>, l: Label, labels: seq<Label>)
    ensures NotOverridden(statics + [l], labels)
         == NotOverridden(statics, labels) + if HasName(labels, l.name) then [] else [l]
  {
    hide HasName;
    if statics == [] {
      assert statics + [l] == [l];
      assert [l][1..] == [];
    } else {
      NotOverriddenAppend(statics[1..], l, labels);
      assert (statics + [l])[1..] == statics[1..] + [l];
    }
  }

  method AppendOne(line: Text, l: Label, ghost before: seq<Label>) returns (line': Text)
    ensures line' == line + (LabelText(l) + [COMMA])
    ensures Trailing(before + [l]) == Trailing(before) + (LabelText(l) + [COMMA])
  {
    hide Quoted, Escape;
    line' := line + l.name;
    line' := line' + [EQUALS, QUOTE];
    line' := AppendEscaped(line', l.value);
    line' := line' + [QUOTE, COMMA];
    assert line' == line + (l.name + [EQUALS, QUOTE] + Quoted(Escape(l.value)) + [QUOTE] + [COMMA]);
    TrailingAppend(before, l);
  }

  method AppendStatics(line: Text, statics: seq<Label>, labels: seq<Label>) returns (line': Text, any: bool)
    ensures line' == line + Trailing(NotOverridden(statics, labels))
    ensures any <==> NotOverridden(statics, labels) != []
  {
    hide LabelText, Trailing, NotOverridden;
    line', any := line, false;
    NothingYet([], labels);
    var i := 0;
    while i < |statics|
      invariant i <= |statics| && line' == line + Trailing(NotOverridden(statics[..i], labels))
      invariant any <==> NotOverridden(statics[..i], labels) != []
    {
      var l := statics[i];
      ghost var before := NotOverridden(statics[..i], labels);
      NotOverriddenAppend(statics[..i], l, labels);
      assert statics[..i + 1] == statics[..i] + [l];
      if !HasName(labels, l.name) {
        line' := AppendOne(line', l, before);
        any := true;
      } else {
        assert before + [] == before;
      }
      i := i + 1;
    }
    assert statics[..i] == statics;
  }

  lemma NothingYet(statics: seq<Label>, labels: seq<Label>)
    requires statics == []
    ensures NotOverridden(statics, labels) == [] && Trailing([]) == []
  {
  }

  method AppendLabels(line: Text, statics: seq<Label>, labels: seq<Label>) returns (line': Text)
    ensures line' == line + LabelsText(statics, labels)
  {
    hide LabelText, Trailing, NotOverridden, Joined;
    line' := line + [OPEN_BRACE];
    ghost var start := line';
    ghost var kept := NotOverridden(statics, labels);
    var any;
    line', any := AppendStatics(line', statics, labels);
    assert kept + labels[..0] == kept;
    var i := 0;
    while i < |labels|
      invariant i <= |labels| && line' == start + Trailing(kept + labels[..i])
      invariant any <==> kept + labels[..i] != []
    {
      line' := AppendOne(line', labels[i], kept + labels[..i]);
      any := true;
      assert kept + labels[..i + 1] == kept + labels[..i] + [labels[i]];
      i := i + 1;
    }
    assert labels[..i] == labels;
    ghost var shown := kept + labels;
    NoneShown();
    if any {
      TrailingJoined(shown);
      line' := line'[..|line'| - 1];
    }
    line' := line' + [CLOSE_BRACE];
    assert line' == line + ([OPEN_BRACE] + Joined(shown) + [CLOSE_BRACE]);
  }

  lemma NoneShown()
    ensures Trailing([]) == [] == Joined([])
  {
  }

  // ---------------------------------------------------------------------------------------------
  // The serializer
  // ---------------------------------------------------------------------------------------------

  /** What the serializer holds after the writes `ws`. */
  ghost predicate Collected(statics: seq<Label>, ws: seq<Write>, order: seq<Text>, families: map<Text, Family>) {
    && order == Bases(ws)
    && (forall b | b in order :: b in families && Of(ws, b) != [] && families[b] == FamilyOf(statics, Of(ws, b)))
    && (forall b | b in families :: b in order)
  }

  /** The family of a write, before its line is appended. */
  function Opened(families: map<Text, Family>, w: Write): Family {
    if w.base !in families then Family(w.kind, w.help, [])
    else var f := families[w.base];
      if f.help == [] && w.help != [] then f.(help := w.help) else f
  }

  lemma CollectedNext(statics: seq<Label>, ws: seq<Write>, order: seq<Text>, families: map<Text, Family>, w: Write)
    requires Collected(statics, ws, order, families)
    ensures var f := Opened(families, w);
            Collected(statics, ws + [w], if w.base in families then order else order + [w.base],
                      families[w.base := f.(body := f.body + LineText(statics, w))])
  {
    hide LineText, FamilyOf, Of;
    var ws' := ws + [w];
    assert ws'[..|ws|] == ws;
    forall b ensures Of(ws', b) == Of(ws, b) + if w.base == b then [w] else [] {
      OfAppend(ws, w, b);
    }
    forall b | b in order && b != w.base ensures Of(ws', b) == Of(ws, b) {
      assert Of(ws, b) + [] == Of(ws, b);
    }
    BasesWritten(ws, w.base);
    if w.base in families {
      FamilyAppend(statics, Of(ws, w.base), w);
    } else {
      assert [] + [w] == [w];
      FamilyNew(statics, w);
    }
  }

  method AppendLine(body: Text, statics: seq<Label>, w: Write) returns (body': Text)
    ensures body' == body + LineText(statics, w)
  {
    hide LabelsText;
    body' := body + w.base;
    ghost var start := body';
    var i := 0;
    while i < |w.suffix|
      invariant i <= |w.suffix| && body' == start + Suffixes(w.suffix[..i])
    {
      body' := body' + [UNDERSCORE];
      body' := body' + w.suffix[i];
      assert w.suffix[..i + 1][..i] == w.suffix[..i];
      i := i + 1;
    }
    assert w.suffix[..i] == w.suffix;
    body' := AppendLabels(body', statics, w.labels);
    body' := body' + [SPACE];
    body' := body' + w.value;
    body' := body' + [NEWLINE];
  }

  method AppendFamily(out: Text, base: Text, fam: Family) returns (out': Text)
    ensures out' == out + FamilyText(base, fam)
  {
    hide HelpText, KindText, Ascii;
    out' := out + Ascii("# HELP ") + base + [SPACE];
    out' := AppendHelpEscaped(out', fam.help);
    out' := out' + [NEWLINE];
    out' := out' + Ascii("# TYPE ") + base + [SPACE] + KindText(fam.kind) + [NEWLINE];
    out' := out' + fam.body;
  }

  lemma CollectedKeys(statics: seq<Label>, ws: seq<Write>, order: seq<Text>, families: map<Text, Family>, base: Text)
    requires Collected(statics, ws, order, families)
    ensures base in families <==> base in order
  {
  }

  class Serializer {
    const statics: seq<Label>
    var order: seq<Text>
    var families: map<Text, Family>
    ghost var writes: seq<Write>

    ghost predicate Valid()
      reads this
    {
      Collected(statics, writes, order, families)
    }

    constructor (statics: seq<Label>)
      ensures Valid() && writes == [] && this.statics == statics
    {
      this.statics := statics;
      order, families, writes := [], map[], [];
    }

    method Write(w: Write)
      requires Valid()
      modifies this
      ensures Valid() && writes == old(writes) + [w]
    {
      hide Collected, LineText;
      CollectedNext(statics, writes, order, families, w);
      CollectedKeys(statics, writes, order, families, w.base);
      ghost var was := families;
      if w.base !in families {
        order := order + [w.base];
        families := families[w.base := Family(w.kind, w.help, [])];
      } else if families[w.base].help == [] && w.help != [] {
        families := families[w.base := families[w.base].(help := w.help)];
      }
      var f := families[w.base];
      assert f == Opened(was, w);
      var body := AppendLine(f.body, statics, w);
      families := families[w.base := f.(body := body)];
      assert families == was[w.base := f.(body := f.body + LineText(statics, w))];
      writes := writes + [w];
    }

    /** The families in first-write order, each with one header and its lines in write order. */
    method Finalize() returns (out: Text)
      requires Valid()
      ensures forall b | b in Bases(writes) :: Of(writes, b) != []
      ensures out == Grouped(statics, writes, Bases(writes))
    {
      hide FamilyOf, Of, Bases, FamilyText;
      out := [];
      var i := 0;
      while i < |order|
        invariant i <= |order| && out == Grouped(statics, writes, order[..i])
      {
        out := AppendFamily(out, order[i], families[order[i]]);
        assert order[..i + 1][..i] == order[..i];
        i := i + 1;
      }
      assert order[..i] == order;
    }
  }
}
