/** The Prometheus text exposition of a series of writes. */
module PrometheusText {
  import opened Bytes
  import opened Utf8Labels

  const QUOTE: Byte := 34
  const NEWLINE: Byte := 10
  const EQUALS: Byte := 61
  const COMMA: Byte := 44
  const OPEN_BRACE: Byte := 123
  const CLOSE_BRACE: Byte := 125
  const UNDERSCORE: Byte := 95
  const SPACE: Byte := 32

  function Ascii(s: string): Text
    requires forall i | 0 <= i < |s| :: s[i] <= '~'
  {
    seq(|s|, i requires 0 <= i < |s| => s[i] as int)
  }

  datatype Type = Gauge | Counter | Histogram | Summary

  datatype Label = Label(name: Text, value: Text)

  /** The labels of a map, in the map's order. */
  predicate Distinct(labels: seq<Label>) {
    forall i, k | 0 <= i < k < |labels| :: labels[i].name != labels[k].name
  }

  /** One call of `write`; the number is already text. */
  datatype Write = Write(base: Text, kind: Type, help: Text, suffix: seq<Text>, labels: seq<Label>, value: Text)

  datatype Family = Family(kind: Type, help: Text, body: Text)

  // ---------------------------------------------------------------------------------------------
  // Escaping
  // ---------------------------------------------------------------------------------------------

  function QuotedByte(b: Byte): Text {
    if b == BACKSLASH then [BACKSLASH, BACKSLASH]
    else if b == QUOTE then [BACKSLASH, QUOTE]
    else if b == NEWLINE then [BACKSLASH, 110]
    else [b]
  }

  function Quoted(t: Text): Text {
    if t == [] then [] else QuotedByte(t[0]) + Quoted(t[1..])
  }

  function HelpByte(b: Byte): Text {
    if b == BACKSLASH then [BACKSLASH, BACKSLASH] else if b == NEWLINE then [BACKSLASH, 110] else [b]
  }

  function HelpText(t: Text): Text {
    if t == [] then [] else HelpByte(t[0]) + HelpText(t[1..])
  }

  lemma {:induction false} QuotedAppend(t: Text, b: Byte)
    ensures Quoted(t + [b]) == Quoted(t) + QuotedByte(b)
  {
    if t == [] {
      assert Quoted([b]) == QuotedByte(b) + Quoted([]);
    } else {
      QuotedAppend(t[1..], b);
      assert (t + [b])[1..] == t[1..] + [b];
    }
  }

  lemma {:induction false} HelpAppend(t: Text, b: Byte)
    ensures HelpText(t + [b]) == HelpText(t) + HelpByte(b)
  {
    if t == [] {
      assert HelpText([b]) == HelpByte(b) + HelpText([]);
    } else {
      HelpAppend(t[1..], b);
      assert (t + [b])[1..] == t[1..] + [b];
    }
  }

  /** A quoted text ends at its first bare quote, so it can be told from what follows. */
  lemma {:induction false} QuotedPrefixFree(a: Text, b: Text, x: Text, y: Text)
    requires Quoted(a) + [QUOTE] + x == Quoted(b) + [QUOTE] + y
    ensures a == b && x == y
  {
    var l, r := Quoted(a) + [QUOTE] + x, Quoted(b) + [QUOTE] + y;
    assert l[0] == if a == [] then QUOTE else QuotedByte(a[0])[0];
    assert r[0] == if b == [] then QUOTE else QuotedByte(b[0])[0];
    if a == [] || b == [] {
      assert l[1..] == x && r[1..] == y;
    } else {
      var qa, qb := QuotedByte(a[0]), QuotedByte(b[0]);
      var resta, restb := Quoted(a[1..]) + [QUOTE] + x, Quoted(b[1..]) + [QUOTE] + y;
      assert l == qa + resta && r == qb + restb;
      QuotedByteFirst(a[0], b[0], resta, restb);
      QuotedPrefixFree(a[1..], b[1..], x, y);
    }
  }

  lemma QuotedByteFirst(a: Byte, b: Byte, x: Text, y: Text)
    requires QuotedByte(a) + x == QuotedByte(b) + y
    ensures a == b && x == y
  {
    var l, r := QuotedByte(a) + x, QuotedByte(b) + y;
    assert l[0] == QuotedByte(a)[0] && r[0] == QuotedByte(b)[0];
    assert |QuotedByte(a)| == 2 ==> l[1] == QuotedByte(a)[1];
    assert |QuotedByte(b)| == 2 ==> r[1] == QuotedByte(b)[1];
    assert l[|QuotedByte(a)|..] == x && r[|QuotedByte(b)|..] == y;
  }

  lemma HelpByteFirst(a: Byte, b: Byte, x: Text, y: Text)
    requires HelpByte(a) + x == HelpByte(b) + y
    ensures a == b && x == y
  {
    var l, r := HelpByte(a) + x, HelpByte(b) + y;
    assert l[0] == HelpByte(a)[0] && r[0] == HelpByte(b)[0];
    assert |HelpByte(a)| == 2 ==> l[1] == HelpByte(a)[1];
    assert |HelpByte(b)| == 2 ==> r[1] == HelpByte(b)[1];
    assert l[|HelpByte(a)|..] == x && r[|HelpByte(b)|..] == y;
  }

  /** Different help texts are written differently, each on one line. */
  lemma {:induction false} HelpInjective(a: Text, b: Text)
    requires HelpText(a) == HelpText(b)
    ensures a == b && NEWLINE !in HelpText(a)
  {
    if a != [] && b != [] {
      HelpByteFirst(a[0], b[0], HelpText(a[1..]), HelpText(b[1..]));
      HelpInjective(a[1..], b[1..]);
      assert a == [a[0]] + a[1..] && b == [b[0]] + b[1..];
    }
  }

  lemma {:induction false} QuotedOneLine(t: Text)
    ensures NEWLINE !in Quoted(t)
  {
    if t != [] {
      QuotedOneLine(t[1..]);
    }
  }

  // ---------------------------------------------------------------------------------------------
  // Labels
  // ---------------------------------------------------------------------------------------------

  function LabelText(l: Label): Text {
    l.name + [EQUALS, QUOTE] + Quoted(Escape(l.value)) + [QUOTE]
  }

  function Joined(labels: seq<Label>): Text {
    if labels == [] then []
    else if |labels| == 1 then LabelText(labels[0])
    else LabelText(labels[0]) + [COMMA] + Joined(labels[1..])
  }

  predicate HasName(labels: seq<Label>, name: Text) {
    exists i :: 0 <= i < |labels| && labels[i].name == name
  }

  /** The static labels that a call does not override. */
  function NotOverridden(statics: seq<Label>, labels: seq<Label>): seq<Label> {
    if statics == [] then []
    else (if HasName(labels, statics[0].name) then [] else [statics[0]]) + NotOverridden(statics[1..], labels)
  }

  /** The labels a line shows. */
  function Shown(statics: seq<Label>, labels: seq<Label>): seq<Label> {
    NotOverridden(statics, labels) + labels
  }

  function LabelsText(statics: seq<Label>, labels: seq<Label>): Text {
    [OPEN_BRACE] + Joined(Shown(statics, labels)) + [CLOSE_BRACE]
  }

  /** Letters, digits and underscores, not starting with a digit. */
  predicate Identifier(name: Text) {
    && name != [] && !(48 <= name[0] <= 57)
    && forall i | 0 <= i < |name| ::
         65 <= name[i] <= 90 || 97 <= name[i] <= 122 || 48 <= name[i] <= 57 || name[i] == UNDERSCORE
  }

  predicate Identifiers(labels: seq<Label>) {
    forall i | 0 <= i < |labels| :: Identifier(labels[i].name)
  }

  /** The value a name has, per call before static. */
  predicate Effective(statics: seq<Label>, labels: seq<Label>, l: Label) {
    l in labels || (l in statics && !HasName(labels, l.name))
  }

  lemma {:induction false} NotOverriddenIn(statics: seq<Label>, labels: seq<Label>, l: Label)
    ensures l in NotOverridden(statics, labels) <==> l in statics && !HasName(labels, l.name)
  {
    if statics != [] {
      NotOverriddenIn(statics[1..], labels, l);
      assert l in statics <==> l == statics[0] || l in statics[1..];
    }
  }

  /** A line shows exactly the effective labels. */
  lemma ShownEffective(statics: seq<Label>, labels: seq<Label>, l: Label)
    ensures l in Shown(statics, labels) <==> Effective(statics, labels, l)
  {
    NotOverriddenIn(statics, labels, l);
  }

  /** A call's own labels come last, in their order. */
  lemma OwnLast(statics: seq<Label>, labels: seq<Label>)
    ensures var shown := Shown(statics, labels);
            |labels| <= |shown| && shown[|shown| - |labels|..] == labels
            && forall i | 0 <= i < |shown| - |labels| :: shown[i] in statics
  {
    var kept := NotOverridden(statics, labels);
    forall i | 0 <= i < |kept| ensures kept[i] in statics {
      NotOverriddenIn(statics, labels, kept[i]);
    }
  }

  /** No name is shown twice. */
  lemma ShownDistinct(statics: seq<Label>, labels: seq<Label>)
    requires Distinct(statics) && Distinct(labels)
    ensures Distinct(Shown(statics, labels))
  {
    NotOverriddenDistinct(statics, labels);
    var kept := NotOverridden(statics, labels);
    forall i, k | 0 <= i < |kept| && 0 <= k < |labels| ensures kept[i].name != labels[k].name {
      NotOverriddenIn(statics, labels, kept[i]);
    }
  }

  lemma {:induction false} NotOverriddenDistinct(statics: seq<Label>, labels: seq<Label>)
    requires Distinct(statics)
    ensures Distinct(NotOverridden(statics, labels))
  {
    if statics != [] {
      var rest := NotOverridden(statics[1..], labels);
      NotOverriddenDistinct(statics[1..], labels);
      forall k | 0 <= k < |rest| ensures rest[k].name != statics[0].name {
        NotOverriddenIn(statics[1..], labels, rest[k]);
        var j :| 0 <= j < |statics[1..]| && statics[1..][j] == rest[k];
        assert statics[j + 1] == rest[k];
      }
    }
  }

  lemma ShownIdentifiers(statics: seq<Label>, labels: seq<Label>)
    requires Identifiers(statics) && Identifiers(labels)
    ensures Identifiers(Shown(statics, labels))
  {
    var shown := Shown(statics, labels);
    forall i | 0 <= i < |shown| ensures Identifier(shown[i].name) {
      ShownEffective(statics, labels, shown[i]);
    }
  }

  /** A name ends at the first equals sign. */
  lemma {:induction false} NamePrefixFree(a: Text, b: Text, x: Text, y: Text)
    requires EQUALS !in a && EQUALS !in b && a + [EQUALS] + x == b + [EQUALS] + y
    ensures a == b && x == y
  {
    var l, r := a + [EQUALS] + x, b + [EQUALS] + y;
    assert l[0] == if a == [] then EQUALS else a[0];
    assert r[0] == if b == [] then EQUALS else b[0];
    if a == [] || b == [] {
      assert l[1..] == x && r[1..] == y;
    } else {
      assert l[1..] == a[1..] + [EQUALS] + x && r[1..] == b[1..] + [EQUALS] + y;
      NamePrefixFree(a[1..], b[1..], x, y);
      assert a == [a[0]] + a[1..] && b == [b[0]] + b[1..];
    }
  }

  lemma LabelPrefixFree(k: Label, l: Label, x: Text, y: Text)
    requires Identifier(k.name) && Identifier(l.name) && LabelText(k) + x == LabelText(l) + y
    ensures k == l && x == y
  {
    var qk, ql := Quoted(Escape(k.value)), Quoted(Escape(l.value));
    hide Quoted, Escape;
    assert LabelText(k) + x == k.name + [EQUALS] + ([QUOTE] + (qk + [QUOTE] + x));
    assert LabelText(l) + y == l.name + [EQUALS] + ([QUOTE] + (ql + [QUOTE] + y));
    NamePrefixFree(k.name, l.name, [QUOTE] + (qk + [QUOTE] + x), [QUOTE] + (ql + [QUOTE] + y));
    assert ([QUOTE] + (qk + [QUOTE] + x))[1..] == qk + [QUOTE] + x;
    assert ([QUOTE] + (ql + [QUOTE] + y))[1..] == ql + [QUOTE] + y;
    QuotedPrefixFree(Escape(k.value), Escape(l.value), x, y);
    Injective(k.value, l.value);
  }

  /** What follows the first label: a comma and the others, or nothing. */
  function After(labels: seq<Label>): Text
    requires labels != []
  {
    if |labels| == 1 then [] else [COMMA] + Joined(labels[1..])
  }

  lemma JoinedFirst(labels: seq<Label>, x: Text)
    requires labels != []
    ensures Joined(labels) + x == LabelText(labels[0]) + (After(labels) + x)
  {
    hide LabelText;
  }

  lemma {:induction false} JoinedPrefixFree(ks: seq<Label>, ls: seq<Label>, x: Text, y: Text)
    requires Identifiers(ks) && Identifiers(ls)
    requires Joined(ks) + [CLOSE_BRACE] + x == Joined(ls) + [CLOSE_BRACE] + y
    ensures ks == ls && x == y
    decreases ks, 1
  {
    hide Joined, After, Identifier;
    var x', y' := [CLOSE_BRACE] + x, [CLOSE_BRACE] + y;
    var l, r := Joined(ks) + x', Joined(ls) + y';
    assert l == Joined(ks) + [CLOSE_BRACE] + x && r == Joined(ls) + [CLOSE_BRACE] + y;
    FirstByte(ks, x');
    FirstByte(ls, y');
    if ks == [] || ls == [] {
      assert l[0] == r[0];
      assert ks == [] && ls == [];
      assert l[1..] == x && r[1..] == y;
    } else {
      JoinedFirst(ks, x');
      JoinedFirst(ls, y');
      LabelPrefixFree(ks[0], ls[0], After(ks) + x', After(ls) + y');
      AfterPrefixFree(ks, ls, x, y);
    }
  }

  /** What follows the first label, byte by byte. */
  lemma AfterParts(ks: seq<Label>, x: Text)
    requires ks != []
    ensures var l := After(ks) + ([CLOSE_BRACE] + x);
            && l != [] && l[0] == (if |ks| == 1 then CLOSE_BRACE else COMMA)
            && l[1..] == if |ks| == 1 then x else Joined(ks[1..]) + [CLOSE_BRACE] + x
  {
    hide Joined;
    if |ks| > 1 {
      assert After(ks) + ([CLOSE_BRACE] + x) == [COMMA] + (Joined(ks[1..]) + [CLOSE_BRACE] + x);
    }
  }

  lemma {:induction false} AfterPrefixFree(ks: seq<Label>, ls: seq<Label>, x: Text, y: Text)
    requires ks != [] && ls != [] && Identifiers(ks) && Identifiers(ls) && ks[0] == ls[0]
    requires After(ks) + ([CLOSE_BRACE] + x) == After(ls) + ([CLOSE_BRACE] + y)
    ensures ks == ls && x == y
    decreases ks, 0
  {
    hide Joined, Identifier;
    AfterParts(ks, x);
    AfterParts(ls, y);
    hide After;
    var l, r := After(ks) + ([CLOSE_BRACE] + x), After(ls) + ([CLOSE_BRACE] + y);
    if |ks| > 1 {
      assert l[0] == r[0];
      JoinedPrefixFree(ks[1..], ls[1..], x, y);
    } else {
      assert l[0] == r[0];
    }
    assert ks == [ks[0]] + ks[1..] && ls == [ls[0]] + ls[1..];
  }

  lemma FirstByte(labels: seq<Label>, x: Text)
    requires Identifiers(labels)
    ensures labels != [] ==> |Joined(labels)| > 0 && (Joined(labels) + x)[0] != CLOSE_BRACE
    ensures labels == [] ==> Joined(labels) + x == x
  {
    if labels != [] {
      JoinedFirst(labels, x);
      assert LabelText(labels[0])[0] == labels[0].name[0];
      assert Identifier(labels[0].name);
      hide LabelText, After, Identifier;
      assert (Joined(labels) + x)[0] == LabelText(labels[0])[0];
    }
  }

  /** Two label sets render alike only if they show the same labels, so only if their effective sets are equal. */
  lemma LabelsInjective(s1: seq<Label>, l1: seq<Label>, s2: seq<Label>, l2: seq<Label>, x: Text, y: Text)
    requires Identifiers(s1) && Identifiers(l1) && Identifiers(s2) && Identifiers(l2)
    requires LabelsText(s1, l1) + x == LabelsText(s2, l2) + y
    ensures x == y && forall l: Label :: Effective(s1, l1, l) <==> Effective(s2, l2, l)
  {
    hide Joined, Identifiers, Effective, Shown;
    var ks, ls := Shown(s1, l1), Shown(s2, l2);
    ShownIdentifiers(s1, l1);
    ShownIdentifiers(s2, l2);
    assert (LabelsText(s1, l1) + x)[1..] == Joined(ks) + [CLOSE_BRACE] + x;
    assert (LabelsText(s2, l2) + y)[1..] == Joined(ls) + [CLOSE_BRACE] + y;
    JoinedPrefixFree(ks, ls, x, y);
    forall l: Label ensures Effective(s1, l1, l) <==> Effective(s2, l2, l) {
      ShownEffective(s1, l1, l);
      ShownEffective(s2, l2, l);
    }
  }
}
