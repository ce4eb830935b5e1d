/** The inline style the PDF exporter gives a text node for its marks. */
module InlineMarks {
  import opened Basics
  import Text

  /** A mark of a text node; `href` is only looked at for links. */
  datatype Mark = Mark(kind: string, href: Option<string>)

  datatype Decoration = Undecorated | Underline | LineThrough | UnderlineLineThrough

  /** `code` stands for the Courier font on grey, `linkColour` for the link blue. */
  datatype Style = Style(
    bold: bool, italics: bool, decoration: Decoration, code: bool, link: Option<string>, linkColour: bool)

  const PLAIN := Style(false, false, Undecorated, false, None, false)

  predicate AllowedScheme(href: string) {
    var lower := Text.Lower(href);
    || Text.StartsWith(lower, "http://")
    || Text.StartsWith(lower, "https://")
    || Text.StartsWith(lower, "mailto:")
  }

  /** A link mark with a non-empty target. */
  predicate IsLink(m: Mark) {
    m.kind == "link" && m.href.Some? && m.href.value != ""
  }

  /** The target that reaches the PDF: trimmed, and only with an allowed scheme. */
  function SafeHref(href: string): Option<string> {
    var trimmed := Text.Trim(href);
    if AllowedScheme(trimmed) then Some(trimmed) else None
  }

  function ApplyMark(s: Style, m: Mark): Style {
    match m.kind
    case "bold" => s.(bold := true)
    case "italic" => s.(italics := true)
    case "strike" =>
      s.(decoration := if s.decoration.Underline? then UnderlineLineThrough else LineThrough)
    case "underline" =>
      s.(decoration := if s.decoration.LineThrough? then UnderlineLineThrough else Underline)
    case "code" => s.(code := true)
    case "link" =>
      if !IsLink(m) then s
      else
        var safe := SafeHref(m.href.value);
        s.(link := if safe.Some? then safe else s.link, linkColour := true, decoration := Underline)
    case _ => s
  }

  /** The style after all marks, applied from left to right. */
  function StyleOf(marks: seq<Mark>): Style {
    if marks == [] then PLAIN
    else ApplyMark(StyleOf(marks[..|marks| - 1]), marks[|marks| - 1])
  }

  /** The marks loop of `mapAstInline`. */
  method MapMarks(marks: seq<Mark>) returns (inline: Style)
    ensures inline == StyleOf(marks)
  {
    inline := PLAIN;
    for i := 0 to |marks|
      invariant inline == StyleOf(marks[..i])
    {
      var mark := marks[i];
      assert marks[..i + 1][..i] == marks[..i];
      match mark.kind {
        case "bold" => inline := inline.(bold := true);
        case "italic" => inline := inline.(italics := true);
        case "strike" =>
          inline := inline.(decoration := if inline.decoration == Underline then UnderlineLineThrough else LineThrough);
        case "underline" =>
          inline := inline.(decoration := if inline.decoration == LineThrough then UnderlineLineThrough else Underline);
        case "code" => inline := inline.(code := true);
        case "link" =>
          if mark.href.Some? && mark.href.value != "" {
            var href := Text.Trim(mark.href.value);
            if AllowedScheme(href) {
              inline := inline.(link := Some(href));
            }
            inline := inline.(linkColour := true, decoration := Underline);
          }
        case _ =>
      }
    }
    assert marks[..|marks|] == marks;
  }

  // ----- Link targets

  /** Whatever the marks, a link in the PDF is the trimmed target of one of them and has an allowed scheme. */
  lemma {:induction false} LinksAreSafe(marks: seq<Mark>)
    ensures var s := StyleOf(marks);
      s.link.Some? ==>
        && AllowedScheme(s.link.value)
        && exists m | m in marks :: IsLink(m) && Text.Trim(m.href.value) == s.link.value
  {
    if marks != [] {
      var rest, last := marks[..|marks| - 1], marks[|marks| - 1];
      LinksAreSafe(rest);
      if StyleOf(marks).link == StyleOf(rest).link {
        assert forall m | m in rest :: m in marks;
      } else {
        ChangedLink(StyleOf(rest), last);
        assert last in marks;
      }
    }
  }

  lemma ChangedLink(s: Style, m: Mark)
    requires ApplyMark(s, m).link != s.link
    ensures IsLink(m) && ApplyMark(s, m).link == Some(Text.Trim(m.href.value)) && AllowedScheme(Text.Trim(m.href.value))
  {
  }

  // ----- Order of the marks

  ghost predicate Has(marks: seq<Mark>, kind: string) {
    exists m | m in marks :: m.kind == kind
  }

  ghost predicate NoDuplicates(marks: seq<Mark>) {
    forall i, j | 0 <= i < j < |marks| :: marks[i].kind != marks[j].kind
  }

  ghost predicate HasLink(marks: seq<Mark>) {
    exists m | m in marks :: m.kind == "link" && m.href.Some? && m.href.value != ""
  }

  /** The style read off the set of marks, with no order. */
  ghost predicate CanonicalStyle(s: Style, marks: seq<Mark>) {
    && s.bold == Has(marks, "bold")
    && s.italics == Has(marks, "italic")
    && s.code == Has(marks, "code")
    && s.linkColour == HasLink(marks)
    && s.decoration ==
       (if Has(marks, "strike") && Has(marks, "underline") then UnderlineLineThrough
        else if Has(marks, "strike") then LineThrough
        else if Has(marks, "underline") || HasLink(marks) then Underline
        else Undecorated)
    && (HasLink(marks) ==> exists m | m in marks :: IsLink(m) && s.link == SafeHref(m.href.value))
    && (!HasLink(marks) ==> s.link.None?)
  }

  lemma LastMark(marks: seq<Mark>, kind: string)
    requires marks != []
    ensures Has(marks, kind) <==> Has(marks[..|marks| - 1], kind) || marks[|marks| - 1].kind == kind
    ensures HasLink(marks) <==> HasLink(marks[..|marks| - 1]) || IsLink(marks[|marks| - 1])
  {
    var rest, last := marks[..|marks| - 1], marks[|marks| - 1];
    assert forall m :: m in marks <==> m in rest || m == last;
  }

  /** Without duplicates, and without a strike beside a link, the style depends on the set of marks only. */
  lemma {:induction false} StyleIsCanonical(marks: seq<Mark>)
    requires NoDuplicates(marks) && !(Has(marks, "strike") && HasLink(marks))
    ensures CanonicalStyle(StyleOf(marks), marks)
  {
    if marks != [] {
      var rest, last := marks[..|marks| - 1], marks[|marks| - 1];
      LastMark(marks, "bold");
      LastMark(marks, "italic");
      LastMark(marks, "code");
      LastMark(marks, "strike");
      LastMark(marks, "underline");
      StyleIsCanonical(rest);
      assert forall m :: m in marks <==> m in rest || m == last;
      forall m | m in rest ensures m.kind != last.kind {
        var i :| 0 <= i < |rest| && rest[i] == m;
        assert marks[i] == m;
      }
    }
  }

  /** Two marks of one kind in a list without duplicates are the same mark. */
  lemma OneOfAKind(marks: seq<Mark>, a: Mark, b: Mark)
    requires NoDuplicates(marks) && a in marks && b in marks && a.kind == b.kind
    ensures a == b
  {
    var i :| 0 <= i < |marks| && marks[i] == a;
    var j :| 0 <= j < |marks| && marks[j] == b;
    assert i == j;
  }

  lemma SameCanonicalStyle(marks: seq<Mark>, other: seq<Mark>, s: Style, t: Style)
    requires NoDuplicates(marks) && (forall m :: m in marks <==> m in other)
    requires CanonicalStyle(s, marks) && CanonicalStyle(t, other)
    ensures s == t
  {
    assert forall k: string :: Has(marks, k) <==> Has(other, k);
    assert HasLink(marks) <==> HasLink(other);
    if HasLink(marks) {
      var a :| a in marks && IsLink(a) && s.link == SafeHref(a.href.value);
      var b :| b in other && IsLink(b) && t.link == SafeHref(b.href.value);
      OneOfAKind(marks, a, b);
    }
  }

  ghost predicate Reordered(marks: seq<Mark>, other: seq<Mark>) {
    multiset(marks) == multiset(other)
  }

  lemma ReorderedMembers(marks: seq<Mark>, other: seq<Mark>)
    requires Reordered(marks, other)
    ensures forall m :: m in marks <==> m in other
  {
    assert forall m :: m in marks <==> m in multiset(marks);
    assert forall m :: m in other <==> m in multiset(other);
  }

  lemma ReorderedNoDuplicates(marks: seq<Mark>, other: seq<Mark>)
    requires Reordered(marks, other) && NoDuplicates(marks)
    ensures NoDuplicates(other)
  {
    ReorderedMembers(marks, other);
    forall i, j | 0 <= i < j < |other| ensures other[i].kind != other[j].kind {
      if other[i].kind == other[j].kind {
        OneOfAKind(marks, other[i], other[j]);
        TwiceInMultiset(other, i, j);
        OnceInMultiset(marks, other[i]);
        assert false;
      }
    }
  }

  lemma TwiceInMultiset(marks: seq<Mark>, i: nat, j: nat)
    requires i < j < |marks| && marks[i] == marks[j]
    ensures multiset(marks)[marks[i]] >= 2
  {
    assert marks == marks[..j] + marks[j..];
    assert marks[i] in marks[..j] by { assert marks[..j][i] == marks[i]; }
    assert marks[j] in marks[j..] by { assert marks[j..][0] == marks[j]; }
  }

  lemma {:induction false} OnceInMultiset(marks: seq<Mark>, m: Mark)
    requires NoDuplicates(marks)
    ensures multiset(marks)[m] <= 1
  {
    if marks != [] {
      var rest, last := marks[..|marks| - 1], marks[|marks| - 1];
      assert marks == rest + [last];
      OnceInMultiset(rest, m);
      if last == m {
        forall i | 0 <= i < |rest| ensures rest[i] != m {
          assert marks[i].kind != last.kind;
        }
        assert m !in rest;
        assert m !in multiset(rest);
      }
    }
  }

  /** The marks with the i-th moved to the end. */
  function MovedLast(marks: seq<Mark>, i: nat): seq<Mark>
    requires i < |marks|
  {
    marks[..i] + marks[i + 1..] + [marks[i]]
  }

  lemma MovedLastReorders(marks: seq<Mark>, i: nat)
    requires i < |marks|
    ensures Reordered(marks, MovedLast(marks, i))
  {
    assert marks == marks[..i] + [marks[i]] + marks[i + 1..];
  }

  /** Moving a mark to the end applies it last. */
  lemma AppliedLast(marks: seq<Mark>, i: nat)
    requires i < |marks|
    ensures exists s :: StyleOf(MovedLast(marks, i)) == ApplyMark(s, marks[i])
  {
    var moved := MovedLast(marks, i);
    assert moved[..|moved| - 1] == marks[..i] + marks[i + 1..] && moved[|moved| - 1] == marks[i];
    assert StyleOf(moved) == ApplyMark(StyleOf(marks[..i] + marks[i + 1..]), marks[i]);
  }

  /** A strike applied last strikes the text through; a link applied last only underlines it. */
  lemma LastStrikeOrLink(s: Style, m: Mark)
    ensures m.kind == "strike" ==> !ApplyMark(s, m).decoration.Underline?
    ensures IsLink(m) ==> ApplyMark(s, m).decoration.Underline?
  {
  }

  lemma OrderMatters(marks: seq<Mark>) returns (one: seq<Mark>, other: seq<Mark>)
    requires Has(marks, "strike") && HasLink(marks)
    ensures Reordered(marks, one) && Reordered(marks, other) && StyleOf(one) != StyleOf(other)
  {
    var m :| m in marks && m.kind == "strike";
    var i :| 0 <= i < |marks| && marks[i] == m;
    var l :| l in marks && IsLink(l);
    var j :| 0 <= j < |marks| && marks[j] == l;
    one, other := MovedLast(marks, i), MovedLast(marks, j);
    MovedLastReorders(marks, i);
    MovedLastReorders(marks, j);
    AppliedLast(marks, i);
    AppliedLast(marks, j);
    var s :| StyleOf(one) == ApplyMark(s, m);
    var t :| StyleOf(other) == ApplyMark(t, l);
    LastStrikeOrLink(s, m);
    LastStrikeOrLink(t, l);
  }

  lemma OrderIrrelevant(marks: seq<Mark>, other: seq<Mark>)
    requires NoDuplicates(marks) && !(Has(marks, "strike") && HasLink(marks)) && Reordered(marks, other)
    ensures StyleOf(other) == StyleOf(marks)
  {
    ReorderedMembers(marks, other);
    ReorderedNoDuplicates(marks, other);
    StyleIsCanonical(marks);
    assert Has(other, "strike") ==> Has(marks, "strike");
    assert HasLink(other) ==> HasLink(marks);
    StyleIsCanonical(other);
    SameCanonicalStyle(marks, other, StyleOf(marks), StyleOf(other));
  }

  /**
   For marks without duplicates, no reordering changes the style exactly when a strike and a
   link with a target do not occur together.
   */
  lemma OrderIrrelevantExact(marks: seq<Mark>)
    requires NoDuplicates(marks)
    ensures (forall other | Reordered(marks, other) :: StyleOf(other) == StyleOf(marks))
       <==> !(Has(marks, "strike") && HasLink(marks))
  {
    if Has(marks, "strike") && HasLink(marks) {
      var one, other := OrderMatters(marks);
    } else {
      forall other | Reordered(marks, other) ensures StyleOf(other) == StyleOf(marks) {
        OrderIrrelevant(marks, other);
      }
    }
  }

  // ----- What the marks give, for any list of them

  /** The target begins with one of the three schemes, with no regard to case. */
  lemma SchemesExact(href: string)
    ensures AllowedScheme(href) <==>
      || (|href| >= 7 && (Text.Lower(href[..7]) == "http://" || Text.Lower(href[..7]) == "mailto:"))
      || (|href| >= 8 && Text.Lower(href[..8]) == "https://")
  {
    var lower := Text.Lower(href);
    assert |href| >= 7 ==> lower[..7] == Text.Lower(href[..7]);
    assert |href| >= 8 ==> lower[..8] == Text.Lower(href[..8]);
    assert "http://" <= lower <==> |href| >= 7 && lower[..7] == "http://";
    assert "mailto:" <= lower <==> |href| >= 7 && lower[..7] == "mailto:";
    assert "https://" <= lower <==> |href| >= 8 && lower[..8] == "https://";
  }

  /** The mark is a link whose trimmed target has an allowed scheme. */
  ghost predicate SafeLink(m: Mark) {
    m.kind == "link" && m.href.Some? && m.href.value != "" && AllowedScheme(Text.Trim(m.href.value))
  }

  /** Bold, italics, code and the link colour tell which marks are there, in any list of marks. */
  lemma {:induction false} StyleFacts(marks: seq<Mark>)
    ensures var s := StyleOf(marks);
      && s.bold == Has(marks, "bold") && s.italics == Has(marks, "italic") && s.code == Has(marks, "code")
      && s.linkColour == HasLink(marks)
  {
    if marks != [] {
      StyleFacts(marks[..|marks| - 1]);
      LastMark(marks, "bold");
      LastMark(marks, "italic");
      LastMark(marks, "code");
    }
  }

  /** The target of the last safe link of a list, if it has one. */
  ghost function LastSafeLink(marks: seq<Mark>): Option<string> {
    if marks == [] then None
    else if SafeLink(marks[|marks| - 1]) then Some(Text.Trim(marks[|marks| - 1].href.value))
    else LastSafeLink(marks[..|marks| - 1])
  }

  /** The link is that of the last safe mark, whatever comes between and after. */
  lemma {:induction false} LinkExact(marks: seq<Mark>)
    ensures StyleOf(marks).link == LastSafeLink(marks)
  {
    if marks != [] {
      LinkExact(marks[..|marks| - 1]);
      LastLink(StyleOf(marks[..|marks| - 1]), marks[|marks| - 1]);
    }
  }

  lemma LastLink(s: Style, m: Mark)
    ensures ApplyMark(s, m).link == if SafeLink(m) then Some(Text.Trim(m.href.value)) else s.link
  {
  }

  /**
   Beside a link, in a list without duplicates: the text is struck through, too, exactly if a
   strike follows the link and no underline follows the strike.
   */
  lemma {:induction false} DecorationBesideLink(marks: seq<Mark>, l: nat)
    requires NoDuplicates(marks) && l < |marks| && IsLink(marks[l])
    ensures StyleOf(marks).decoration ==
      if exists i | l < i < |marks| ::
           marks[i].kind == "strike" && forall j | i < j < |marks| :: marks[j].kind != "underline"
      then UnderlineLineThrough else Underline
    decreases |marks|
  {
    var rest, last := marks[..|marks| - 1], marks[|marks| - 1];
    assert forall i | 0 <= i < |rest| :: rest[i] == marks[i];
    if l < |rest| {
      DecorationBesideLink(rest, l);
      assert last.kind != "link";
    }
  }
}
