/**
 The rewriting of a page's ProseMirror tree when an AI proposal is accepted.

 A tree is any JSON value.  `Texts` lists the strings of its text nodes in document
 order and `Skeleton` is the tree with those strings blanked out; together they
 determine the tree, so what the rewrite does is said completely by what it does to
 each of the two.
 */
module ProseMirror {
  import opened Basics
  import opened Text

  /** JSON values; the key order of an object carries no information. */
  datatype Json =
    | JNull
    | JBool(b: bool)
    | JNum(num: real)
    | JStr(str: string)
    | JArr(items: seq<Json>)
    | JObj(fields: map<string, Json>)

  predicate IsTextNode(f: map<string, Json>) {
    && "type" in f && f["type"] == JStr("text")
    && "text" in f && f["text"].JStr?
  }

  predicate HasContent(f: map<string, Json>) {
    "content" in f && f["content"].JArr?
  }

  datatype Rewritten = Rewritten(updated: Json, count: nat)

  /** `replaceProseMirrorText`: the tree with `original` replaced once in every text node that has it. */
  function Rewrite(node: Json, original: string, suggested: string): (r: Rewritten)
    ensures node.JObj? ==> r.updated.JObj?
    ensures node.JArr? ==> r.updated.JArr?
    decreases node, 1
  {
    match node
    case JArr(items) =>
      var (mapped, count) := RewriteAll(items, original, suggested);
      Rewritten(JArr(mapped), count)
    case JObj(fields) =>
      var hit := IsTextNode(fields) && Find(fields["text"].str, original).Some?;
      var copy :=
        if hit then fields["text" := JStr(ReplaceFirst(fields["text"].str, original, suggested))] else fields;
      var count := if hit then 1 else 0;
      if HasContent(fields) then
        var res := Rewrite(fields["content"], original, suggested);
        Rewritten(JObj(copy["content" := res.updated]), count + res.count)
      else
        Rewritten(JObj(copy), count)
    case _ => Rewritten(node, 0)
  }

  function RewriteAll(items: seq<Json>, original: string, suggested: string): (r: (seq<Json>, nat))
    ensures |r.0| == |items|
    decreases items, 0
  {
    if items == [] then ([], 0)
    else
      var head := Rewrite(items[0], original, suggested);
      var (tail, count) := RewriteAll(items[1..], original, suggested);
      ([head.updated] + tail, head.count + count)
  }

  // ----- What a tree consists of

  /** The strings of the text nodes reached through `content`, in document order. */
  function Texts(node: Json): seq<string>
    decreases node, 1
  {
    match node
    case JArr(items) => TextsAll(items)
    case JObj(f) =>
      (if IsTextNode(f) then [f["text"].str] else []) + (if HasContent(f) then Texts(f["content"]) else [])
    case _ => []
  }

  function TextsAll(items: seq<Json>): seq<string>
    decreases items, 0
  {
    if items == [] then [] else Texts(items[0]) + TextsAll(items[1..])
  }

  /** The tree with the strings of those text nodes blanked out: its shape and every other field. */
  function Skeleton(node: Json): Json
    decreases node, 1
  {
    match node
    case JArr(items) => JArr(SkeletonAll(items))
    case JObj(f) =>
      var blanked := if IsTextNode(f) then f["text" := JStr("")] else f;
      JObj(if HasContent(f) then blanked["content" := Skeleton(f["content"])] else blanked)
    case _ => node
  }

  function SkeletonAll(items: seq<Json>): (r: seq<Json>)
    ensures |r| == |items|
    decreases items, 0
  {
    if items == [] then [] else [Skeleton(items[0])] + SkeletonAll(items[1..])
  }

  /** Skeleton and texts together determine the tree. */
  lemma {:induction false} SkeletonAndTextsDetermine(a: Json, b: Json)
    requires Skeleton(a) == Skeleton(b) && Texts(a) == Texts(b)
    ensures a == b
    decreases a, 1
  {
    SameTextCount(a, b);
    match a {
      case JArr(items) => SkeletonAndTextsDetermineAll(items, b.items);
      case JObj(f) =>
        var g := b.fields;
        SkeletonFields(f, g);
        if HasContent(f) {
          var headF := if IsTextNode(f) then [f["text"].str] else [];
          var headG := if IsTextNode(g) then [g["text"].str] else [];
          assert Texts(a) == headF + Texts(f["content"]);
          assert Texts(b) == headG + Texts(g["content"]);
          assert Texts(f["content"]) == Texts(a)[|headF|..] == Texts(b)[|headG|..] == Texts(g["content"]);
          SkeletonAndTextsDetermine(f["content"], g["content"]);
        }
        if IsTextNode(f) {
          assert f["text"].str == Texts(a)[0] == Texts(b)[0] == g["text"].str;
        }
        assert f.Keys == g.Keys;
        assert forall k | k in f :: f[k] == g[k];
      case _ =>
    }
  }

  lemma {:induction false} SkeletonAndTextsDetermineAll(a: seq<Json>, b: seq<Json>)
    requires SkeletonAll(a) == SkeletonAll(b) && TextsAll(a) == TextsAll(b)
    ensures a == b
    decreases a, 0
  {
    if a != [] {
      assert b != [];
      assert SkeletonAll(a)[0] == Skeleton(a[0]) && SkeletonAll(b)[0] == Skeleton(b[0]);
      assert SkeletonAll(a)[1..] == SkeletonAll(a[1..]) && SkeletonAll(b)[1..] == SkeletonAll(b[1..]);
      SameTextCount(a[0], b[0]);
      assert Texts(a[0]) == TextsAll(a)[..|Texts(a[0])|] == TextsAll(b)[..|Texts(b[0])|] == Texts(b[0]);
      assert TextsAll(a[1..]) == TextsAll(a)[|Texts(a[0])|..] == TextsAll(b)[|Texts(b[0])|..] == TextsAll(b[1..]);
      SkeletonAndTextsDetermine(a[0], b[0]);
      SkeletonAndTextsDetermineAll(a[1..], b[1..]);
    }
  }

  /** Objects with the same skeleton agree on their keys, their kind and every untouched field. */
  lemma SkeletonFields(f: map<string, Json>, g: map<string, Json>)
    requires Skeleton(JObj(f)) == Skeleton(JObj(g))
    ensures f.Keys == g.Keys
    ensures IsTextNode(f) == IsTextNode(g) && HasContent(f) == HasContent(g)
    ensures HasContent(f) ==> Skeleton(f["content"]) == Skeleton(g["content"])
    ensures forall k | k in f && (k == "text" ==> !IsTextNode(f)) && (k == "content" ==> !HasContent(f)) :: f[k] == g[k]
  {
    var sf, sg := Skeleton(JObj(f)).fields, Skeleton(JObj(g)).fields;
    assert sf.Keys == f.Keys && sg.Keys == g.Keys;
    assert "type" in f ==> sf["type"] == f["type"];
    assert "type" in g ==> sg["type"] == g["type"];
    assert "text" in f ==> (sf["text"].JStr? <==> f["text"].JStr?);
    assert "text" in g ==> (sg["text"].JStr? <==> g["text"].JStr?);
    assert "content" in f ==> (sf["content"].JArr? <==> f["content"].JArr?);
    assert "content" in g ==> (sg["content"].JArr? <==> g["content"].JArr?);
    forall k | k in f && (k == "text" ==> !IsTextNode(f)) && (k == "content" ==> !HasContent(f))
      ensures f[k] == g[k]
    {
      assert sf[k] == f[k] && sg[k] == g[k];
    }
  }

  lemma {:induction false} SameTextCount(a: Json, b: Json)
    requires Skeleton(a) == Skeleton(b)
    ensures |Texts(a)| == |Texts(b)|
    decreases a, 1
  {
    match a {
      case JArr(items) => SameTextCountAll(items, b.items);
      case JObj(f) =>
        SkeletonFields(f, b.fields);
        if HasContent(f) {
          SameTextCount(f["content"], b.fields["content"]);
        }
      case _ =>
    }
  }

  lemma {:induction false} SameTextCountAll(a: seq<Json>, b: seq<Json>)
    requires SkeletonAll(a) == SkeletonAll(b)
    ensures |TextsAll(a)| == |TextsAll(b)|
    decreases a, 0
  {
    if a != [] {
      assert SkeletonAll(a)[0] == Skeleton(a[0]) && SkeletonAll(b)[0] == Skeleton(b[0]);
      assert SkeletonAll(a)[1..] == SkeletonAll(a[1..]) && SkeletonAll(b)[1..] == SkeletonAll(b[1..]);
      SameTextCount(a[0], b[0]);
      SameTextCountAll(a[1..], b[1..]);
    }
  }

  // ----- What the rewrite does to a list of texts

  function ReplaceEach(texts: seq<string>, original: string, suggested: string): (r: seq<string>)
    ensures |r| == |texts|
  {
    seq(|texts|, i requires 0 <= i < |texts| => ReplaceFirst(texts[i], original, suggested))
  }

  function Matches(texts: seq<string>, original: string): nat {
    if texts == [] then 0
    else (if Find(texts[0], original).Some? then 1 else 0) + Matches(texts[1..], original)
  }

  function TotalLength(texts: seq<string>): nat {
    if texts == [] then 0 else |texts[0]| + TotalLength(texts[1..])
  }

  lemma {:induction false} MatchesConcat(a: seq<string>, b: seq<string>, original: string)
    ensures Matches(a + b, original) == Matches(a, original) + Matches(b, original)
  {
    if a == [] {
      assert a + b == b;
    } else {
      assert (a + b)[0] == a[0] && (a + b)[1..] == a[1..] + b;
      MatchesConcat(a[1..], b, original);
    }
  }

  /**
   The rewrite keeps the skeleton, replaces the first occurrence in each text and nothing
   else, and counts exactly the texts that have an occurrence.
   */
  lemma {:induction false} RewriteMeaning(node: Json, original: string, suggested: string)
    ensures var r := Rewrite(node, original, suggested);
      && Skeleton(r.updated) == Skeleton(node)
      && Texts(r.updated) == ReplaceEach(Texts(node), original, suggested)
      && r.count == Matches(Texts(node), original)
    decreases node, 1
  {
    var r := Rewrite(node, original, suggested);
    match node {
      case JArr(items) => RewriteAllMeaning(items, original, suggested);
      case JObj(f) =>
        var g := r.updated.fields;
        assert g.Keys == f.Keys;
        assert IsTextNode(g) == IsTextNode(f);
        if HasContent(f) {
          RewriteMeaning(f["content"], original, suggested);
          assert g["content"] == Rewrite(f["content"], original, suggested).updated;
        }
        var headF := if IsTextNode(f) then [f["text"].str] else [];
        var headG := if IsTextNode(g) then [g["text"].str] else [];
        var tailF := if HasContent(f) then Texts(f["content"]) else [];
        assert headG == ReplaceEach(headF, original, suggested);
        assert Texts(r.updated) == headG + ReplaceEach(tailF, original, suggested);
        MatchesConcat(headF, tailF, original);
        SkeletonOfRewrittenFields(f, g);
      case _ =>
    }
  }

  lemma SkeletonOfRewrittenFields(f: map<string, Json>, g: map<string, Json>)
    requires f.Keys == g.Keys && IsTextNode(f) == IsTextNode(g) && HasContent(f) == HasContent(g)
    requires HasContent(f) ==> Skeleton(f["content"]) == Skeleton(g["content"])
    requires forall k | k in f && (k == "text" ==> !IsTextNode(f)) && (k == "content" ==> !HasContent(f)) ::
      f[k] == g[k]
    ensures Skeleton(JObj(f)) == Skeleton(JObj(g))
  {
    var sf, sg := Skeleton(JObj(f)).fields, Skeleton(JObj(g)).fields;
    assert sf.Keys == sg.Keys;
    assert forall k | k in sf :: sf[k] == sg[k];
  }

  lemma HeadAndTail(head: Json, tail: seq<Json>)
    ensures SkeletonAll([head] + tail) == [Skeleton(head)] + SkeletonAll(tail)
    ensures TextsAll([head] + tail) == Texts(head) + TextsAll(tail)
  {
    assert ([head] + tail)[0] == head && ([head] + tail)[1..] == tail;
  }

  lemma ReplaceEachConcat(a: seq<string>, b: seq<string>, original: string, suggested: string)
    ensures ReplaceEach(a + b, original, suggested)
         == ReplaceEach(a, original, suggested) + ReplaceEach(b, original, suggested)
  {
  }

  lemma {:induction false} RewriteAllMeaning(items: seq<Json>, original: string, suggested: string)
    ensures var r := RewriteAll(items, original, suggested);
      && SkeletonAll(r.0) == SkeletonAll(items)
      && TextsAll(r.0) == ReplaceEach(TextsAll(items), original, suggested)
      && r.1 == Matches(TextsAll(items), original)
    decreases items, 0
  {
    if items != [] {
      var r := RewriteAll(items, original, suggested);
      RewriteMeaning(items[0], original, suggested);
      RewriteAllMeaning(items[1..], original, suggested);
      var head, tail := Rewrite(items[0], original, suggested).updated, RewriteAll(items[1..], original, suggested).0;
      assert r.0 == [head] + tail;
      HeadAndTail(items[0], items[1..]);
      HeadAndTail(head, tail);
      assert items == [items[0]] + items[1..];
      MatchesConcat(Texts(items[0]), TextsAll(items[1..]), original);
      ReplaceEachConcat(Texts(items[0]), TextsAll(items[1..]), original, suggested);
    }
  }

  // ----- Which nodes the rewrite reaches

  /** The string that a node with these fields contributes itself. */
  lemma OwnText(f: map<string, Json>)
    ensures
      var own :=
        if "type" in f && f["type"] == JStr("text") && "text" in f && f["text"].JStr? then [f["text"].str] else [];
      var below := if "content" in f && f["content"].JArr? then TextsAll(f["content"].items) else [];
      Texts(JObj(f)) == own + below
  {
  }

  /** The count of a node: one for its own match, and all the matches below its content array. */
  lemma CountOfNode(f: map<string, Json>, original: string, suggested: string)
    ensures
      var own :=
        if "type" in f && f["type"] == JStr("text") && "text" in f && f["text"].JStr? &&
           exists i :: OccursAt(f["text"].str, original, i)
        then 1 else 0;
      var below :=
        if "content" in f && f["content"].JArr? then Matches(TextsAll(f["content"].items), original) else 0;
      Rewrite(JObj(f), original, suggested).count == own + below
  {
    RewriteMeaning(JObj(f), original, suggested);
    OwnText(f);
    if "content" in f && f["content"].JArr? {
      var own := if IsTextNode(f) then [f["text"].str] else [];
      MatchesConcat(own, TextsAll(f["content"].items), original);
    }
  }

  /** The fields of a node after the rewrite, one by one. */
  lemma FieldsOfNode(f: map<string, Json>, original: string, suggested: string)
    ensures
      var r := Rewrite(JObj(f), original, suggested).updated;
      && r.JObj? && r.fields.Keys == f.Keys
      && (forall k | k in f && k != "text" && k != "content" :: r.fields[k] == f[k])
      && ("text" in f ==>
            var isText := "type" in f && f["type"] == JStr("text") && f["text"].JStr?;
            r.fields["text"] == if isText then JStr(ReplaceFirst(f["text"].str, original, suggested)) else f["text"])
      && ("content" in f && !f["content"].JArr? ==> r.fields["content"] == f["content"])
      && ("content" in f && f["content"].JArr? ==>
            && r.fields["content"].JArr? && |r.fields["content"].items| == |f["content"].items|
            && forall i | 0 <= i < |f["content"].items| ::
                 r.fields["content"].items[i] == Rewrite(f["content"].items[i], original, suggested).updated)
  {
    if "content" in f && f["content"].JArr? {
      RewrittenItems(f["content"].items, original, suggested);
    }
  }

  lemma {:induction false} RewrittenItems(items: seq<Json>, original: string, suggested: string)
    ensures forall i | 0 <= i < |items| ::
      RewriteAll(items, original, suggested).0[i] == Rewrite(items[i], original, suggested).updated
  {
    if items != [] {
      RewrittenItems(items[1..], original, suggested);
    }
  }

  /** The node at the end of a path: each step takes one item of an array, or of the content array of an object. */
  function NodeAt(node: Json, path: seq<nat>): Option<Json> {
    if path == [] then Some(node)
    else
      var items :=
        if node.JArr? then node.items
        else if node.JObj? && "content" in node.fields && node.fields["content"].JArr? then node.fields["content"].items
        else [];
      if path[0] < |items| then NodeAt(items[path[0]], path[1..]) else None
  }

  /** The rewrite acts at every path alike: the node there becomes its own rewrite, and no path is lost or added. */
  lemma {:induction false} RewriteAtPath(node: Json, path: seq<nat>, original: string, suggested: string)
    ensures NodeAt(Rewrite(node, original, suggested).updated, path) ==
      match NodeAt(node, path)
      case None => None
      case Some(n) => Some(Rewrite(n, original, suggested).updated)
  {
    if path != [] {
      match node {
        case JArr(items) =>
          RewrittenItems(items, original, suggested);
          if path[0] < |items| {
            RewriteAtPath(items[path[0]], path[1..], original, suggested);
          }
        case JObj(f) =>
          FieldsOfNode(f, original, suggested);
          if "content" in f && f["content"].JArr? && path[0] < |f["content"].items| {
            RewriteAtPath(f["content"].items[path[0]], path[1..], original, suggested);
          }
        case _ =>
      }
    }
  }

  /** A matching text changes at its first occurrence only; any other text is left alone. */
  lemma ReplaceFirstMeaning(text: string, original: string, suggested: string)
    ensures var i := Find(text, original);
      var changed := ReplaceFirst(text, original, suggested);
      && (i.None? ==> changed == text && forall k :: !OccursAt(text, original, k))
      && (i.Some? ==>
        && text == text[..i.value] + original + text[i.value + |original|..]
        && changed == text[..i.value] + suggested + text[i.value + |original|..]
        && forall k | 0 <= k < i.value :: !OccursAt(text, original, k))
  {
  }

  /** The rewrite changes the total text length by `count` times the difference of the two texts. */
  lemma RewriteLength(node: Json, original: string, suggested: string)
    ensures var r := Rewrite(node, original, suggested);
      TotalLength(Texts(r.updated)) == TotalLength(Texts(node)) + r.count * (|suggested| - |original|)
  {
    RewriteMeaning(node, original, suggested);
    ReplaceEachLength(Texts(node), original, suggested);
  }

  lemma {:induction false} ReplaceEachLength(texts: seq<string>, original: string, suggested: string)
    ensures TotalLength(ReplaceEach(texts, original, suggested))
         == TotalLength(texts) + Matches(texts, original) * (|suggested| - |original|)
  {
    if texts != [] {
      var tail := texts[1..];
      assert ReplaceEach(texts, original, suggested)[1..] == ReplaceEach(tail, original, suggested);
      ReplaceEachLength(tail, original, suggested);
      ReplaceFirstLength(texts[0], original, suggested);
      OneMore(Matches(tail, original), |suggested| - |original|);
    }
  }

  lemma ReplaceFirstLength(text: string, original: string, suggested: string)
    ensures |ReplaceFirst(text, original, suggested)|
         == |text| + if Find(text, original).Some? then |suggested| - |original| else 0
  {
  }

  lemma OneMore(m: nat, d: int)
    ensures (1 + m) * d == d + m * d
  {
  }

  lemma {:induction false} NoMatches(texts: seq<string>, original: string)
    ensures Matches(texts, original) == 0 <==> forall t | t in texts :: Find(t, original).None?
  {
    if texts != [] {
      NoMatches(texts[1..], original);
      assert forall t :: t in texts <==> t == texts[0] || t in texts[1..];
    }
  }

  /** A rewrite that replaces nothing returns the tree it was given. */
  lemma RewriteIdentity(node: Json, original: string, suggested: string)
    requires Rewrite(node, original, suggested).count == 0
    ensures Rewrite(node, original, suggested).updated == node
  {
    RewriteMeaning(node, original, suggested);
    NoMatches(Texts(node), original);
    assert ReplaceEach(Texts(node), original, suggested) == Texts(node);
    SkeletonAndTextsDetermine(Rewrite(node, original, suggested).updated, node);
  }

  // ----- Undoing a rewrite

  /**
   A text without the original must not contain the suggestion; in any other text, no
   occurrence of the suggestion may start before the place where it is put.
   */
  ghost predicate Reversible(text: string, original: string, suggested: string) {
    match Find(text, original)
    case None => Find(text, suggested).None?
    case Some(i) => !OccursBefore(ReplaceAt(text, original, suggested, i), suggested, i)
  }

  ghost predicate OccursBefore(s: string, pattern: string, i: nat) {
    exists k | 0 <= k < i :: OccursAt(s, pattern, k)
  }

  /** Putting `original` into a text that does not contain it changes the text. */
  lemma UntouchedRoundTrip(text: string, original: string, suggested: string)
    requires Find(text, original).None?
    ensures ReplaceFirst(text, suggested, original) == text <==> Find(text, suggested).None?
  {
    if j: nat :| Find(text, suggested) == Some(j) {
      assert OccursAt(ReplaceFirst(text, suggested, original), original, j);
    }
  }

  lemma ChangedRoundTrip(text: string, original: string, suggested: string, i: nat)
    requires Find(text, original) == Some(i)
    ensures var changed := ReplaceAt(text, original, suggested, i);
      ReplaceFirst(changed, suggested, original) == text <==> !OccursBefore(changed, suggested, i)
  {
    var changed := ReplaceAt(text, original, suggested, i);
    assert OccursAt(changed, suggested, i);
    var j := Find(changed, suggested).value;
    assert OccursAt(ReplaceFirst(changed, suggested, original), original, j);
    assert changed[..i] == text[..i] && changed[i + |suggested|..] == text[i + |original|..];
  }

  lemma TextRoundTrip(text: string, original: string, suggested: string)
    ensures ReplaceFirst(ReplaceFirst(text, original, suggested), suggested, original) == text
       <==> Reversible(text, original, suggested)
  {
    match Find(text, original) {
      case None => UntouchedRoundTrip(text, original, suggested);
      case Some(i) => ChangedRoundTrip(text, original, suggested, i);
    }
  }

  /**
   Rewriting forth and back gives the tree again exactly when every text is reversible,
   and then both passes replace the same number of texts.
   */
  lemma RoundTripExact(node: Json, original: string, suggested: string)
    ensures var forth := Rewrite(node, original, suggested);
      var back := Rewrite(forth.updated, suggested, original);
      && (back.updated == node <==> forall t | t in Texts(node) :: Reversible(t, original, suggested))
      && (back.updated == node ==> back.count == forth.count)
  {
    var forth := Rewrite(node, original, suggested);
    var back := Rewrite(forth.updated, suggested, original);
    var texts := Texts(node);
    var changed := ReplaceEach(texts, original, suggested);
    RewriteMeaning(node, original, suggested);
    RewriteMeaning(forth.updated, suggested, original);
    TextsRoundTrip(texts, original, suggested);
    if Texts(back.updated) == texts {
      SkeletonAndTextsDetermine(back.updated, node);
      SameMatches(texts, original, suggested);
    }
  }

  lemma TextsRoundTrip(texts: seq<string>, original: string, suggested: string)
    ensures ReplaceEach(ReplaceEach(texts, original, suggested), suggested, original) == texts
       <==> forall t | t in texts :: Reversible(t, original, suggested)
  {
    var again := ReplaceEach(ReplaceEach(texts, original, suggested), suggested, original);
    forall i | 0 <= i < |texts|
      ensures again[i] == texts[i] <==> Reversible(texts[i], original, suggested)
    {
      TextRoundTrip(texts[i], original, suggested);
    }
    if again == texts {
      forall t | t in texts ensures Reversible(t, original, suggested) {
        var i :| 0 <= i < |texts| && texts[i] == t;
        assert again[i] == texts[i];
      }
    }
  }

  lemma {:induction false} SameMatches(texts: seq<string>, original: string, suggested: string)
    requires forall i | 0 <= i < |texts| :: Reversible(texts[i], original, suggested)
    ensures Matches(ReplaceEach(texts, original, suggested), suggested) == Matches(texts, original)
  {
    if texts != [] {
      var changed := ReplaceEach(texts, original, suggested);
      assert changed[1..] == ReplaceEach(texts[1..], original, suggested);
      assert Reversible(texts[0], original, suggested);
      SuggestionInText(texts[0], original, suggested);
      SameMatches(texts[1..], original, suggested);
    }
  }

  /**
   If the first character of the suggestion occurs in no text of the tree, the swapped
   rewrite undoes the rewrite exactly.
   */
  lemma RoundTrip(node: Json, original: string, suggested: string)
    requires suggested != ""
    requires forall t | t in Texts(node) :: suggested[0] !in t
    ensures var forth := Rewrite(node, original, suggested);
      Rewrite(forth.updated, suggested, original) == Rewritten(node, forth.count)
  {
    forall t | t in Texts(node)
      ensures Reversible(t, original, suggested)
    {
      FreshFirstCharacter(t, original, suggested);
    }
    RoundTripExact(node, original, suggested);
  }

  lemma FreshFirstCharacter(text: string, original: string, suggested: string)
    requires suggested != "" && suggested[0] !in text
    ensures Reversible(text, original, suggested)
  {
    forall k | OccursAt(text, suggested, k) ensures text[k] == suggested[0] {
      OccurrenceStart(text, suggested, k);
    }
    if i: nat :| Find(text, original) == Some(i) {
      var changed := text[..i] + suggested + text[i + |original|..];
      forall k | 0 <= k < i ensures !OccursAt(changed, suggested, k) {
        assert changed[k] == text[k];
        OccurrenceStart(changed, suggested, k);
      }
    }
  }

  /** A changed text contains the replacement. */
  lemma SuggestionInText(text: string, original: string, suggested: string)
    ensures Find(text, original).Some? ==> Find(ReplaceFirst(text, original, suggested), suggested).Some?
  {
    if i: nat :| Find(text, original) == Some(i) {
      assert OccursAt(ReplaceFirst(text, original, suggested), suggested, i);
    }
  }

  lemma OccurrenceStart(s: string, pattern: string, k: int)
    ensures pattern != "" && OccursAt(s, pattern, k) ==> s[k] == pattern[0]
  {
    if pattern != "" && OccursAt(s, pattern, k) {
      assert s[k] == s[k..k + |pattern|][0];
    }
  }

  /** Reversibility can fail: here the replacement also completes an earlier occurrence of itself. */
  lemma RoundTripCanFail()
    ensures var node := JObj(map["type" := JStr("text"), "text" := JStr("ab")]);
      && Texts(node) == ["ab"] && !Reversible("ab", "b", "a")
      && Rewrite(Rewrite(node, "b", "a").updated, "a", "b").updated != node
  {
    var node := JObj(map["type" := JStr("text"), "text" := JStr("ab")]);
    assert OccursAt("ab", "b", 1);
    OccurrenceStart("ab", "b", 0);
    FindIsFirst("ab", "b", 1);
    assert ReplaceFirst("ab", "b", "a") == "aa";
    assert OccursAt("aa", "a", 0);
    FindIsFirst("aa", "a", 0);
    assert Texts(node) == ["ab"];
    RoundTripExact(node, "b", "a");
  }
}
