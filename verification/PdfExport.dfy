/**
 The compiler from a page's document tree to PDF content.  Margins and colours of the
 blocks are constants of the block kind and are not kept.
 */
module PdfExport {
  import opened Basics
  import InlineMarks

  datatype Kind =
    | Doc | HeadingNode | ParagraphNode | BulletList | OrderedList | ListItem | Blockquote | CodeBlock
    | HorizontalRule | TextNode
    | Other(name: string)

  /** A document node.  `bare` tells a node without a content array from one whose array is empty. */
  datatype Ast = Ast(
    kind: Kind, text: Option<string>, marks: seq<InlineMarks.Mark>, level: Option<int>, content: seq<Ast>, bare: bool)
  {
    function OwnText(): string {
      if text.Some? then text.value else ""
    }
  }

  datatype Inline = Inline(text: string, style: InlineMarks.Style)

  datatype Pdf =
    | Heading(inlines: seq<Inline>, fontSize: int)
    | Paragraph(inlines: seq<Inline>)
    | Blank                      // a paragraph of one space
    | EmptyText                  // a text block with no text
    | Ul(items: seq<Pdf>)
    | Ol(items: seq<Pdf>)
    | Stack(items: seq<Pdf>)     // a block quote
    | Code(text: string)
    | Rule
    | Span(inline: Inline)
    | Array(items: seq<Pdf>)

  // ----- The compiler

  function MapAstInline(node: Ast): Inline {
    if !node.kind.TextNode? then Inline(node.OwnText(), InlineMarks.PLAIN)
    else Inline(node.OwnText(), InlineMarks.StyleOf(node.marks))
  }

  function MapInlines(nodes: seq<Ast>): (r: seq<Inline>)
    ensures |r| == |nodes|
  {
    seq(|nodes|, i requires 0 <= i < |nodes| => MapAstInline(nodes[i]))
  }

  function FontSize(level: Option<int>): int {
    var n := if level.Some? && level.value != 0 then level.value else 1;
    if n == 2 then 16 else if n == 3 then 13 else if n > 3 then 12 else 22
  }

  /** `mapAstNode`: None is the null result, which the callers filter out. */
  function MapAstNode(node: Ast): Option<Pdf>
    decreases node, 1
  {
    match node.kind
    case Doc =>
      var children := MapAll(node.content);
      Some(Array(if children != [] then children else [EmptyText]))
    case HeadingNode =>
      var inlines := MapInlines(node.content);
      Some(Heading(if inlines != [] then inlines else [Inline("", InlineMarks.PLAIN)], FontSize(node.level)))
    case ParagraphNode =>
      var inlines := MapInlines(node.content);
      Some(if inlines != [] then Paragraph(inlines) else Blank)
    case BulletList => Some(Ul(MapItems(node.content)))
    case OrderedList => Some(Ol(MapItems(node.content)))
    case ListItem => Some(Unwrap(MapAll(node.content)))
    case Blockquote => Some(Stack(MapAll(node.content)))
    case CodeBlock => Some(Code(JoinTexts(node.content)))
    case HorizontalRule => Some(Rule)
    case TextNode => Some(Span(MapAstInline(node)))
    case Other(_) => if node.bare && node.content == [] then None else Some(Array(MapAll(node.content)))
  }

  /** `nodes.map(mapAstNode).filter(Boolean)`. */
  function MapAll(nodes: seq<Ast>): seq<Pdf>
    decreases nodes, 0
  {
    if nodes == [] then []
    else
      var head, tail := MapAstNode(nodes[0]), MapAll(nodes[1..]);
      if head.Some? then [head.value] + tail else tail
  }

  /** The items of a list: list items are unwrapped in place, anything else is compiled as a node. */
  function MapItems(nodes: seq<Ast>): seq<Pdf>
    decreases nodes, 0
  {
    if nodes == [] then []
    else if nodes[0].kind.ListItem? then [Unwrap(MapAll(nodes[0].content))] + MapItems(nodes[1..])
    else
      var head, tail := MapAstNode(nodes[0]), MapItems(nodes[1..]);
      if head.Some? then [head.value] + tail else tail
  }

  function Unwrap(contents: seq<Pdf>): Pdf {
    if |contents| == 1 then contents[0] else Array(contents)
  }

  function JoinTexts(nodes: seq<Ast>): string {
    if nodes == [] then "" else nodes[0].OwnText() + JoinTexts(nodes[1..])
  }

  function Flatten(val: Pdf): seq<Pdf> {
    if val.Array? then FlattenAll(val.items) else [val]
  }

  function FlattenAll(items: seq<Pdf>): seq<Pdf> {
    if items == [] then [] else Flatten(items[0]) + FlattenAll(items[1..])
  }

  /** What a page can have stored: nothing, text that is not JSON or a bare scalar, or a tree. */
  datatype Stored = Nothing | PlainText(text: string) | Tree(root: Ast)

  datatype PdfContent = TextOnly(text: string) | Blocks(blocks: seq<Pdf>)

  function MapContent(stored: Stored): PdfContent {
    match stored
    case Nothing => TextOnly("")
    case PlainText(text) => TextOnly(text)
    case Tree(root) =>
      var mapped := MapAstNode(root);
      if mapped.None? then TextOnly("") else Blocks(Flatten(mapped.value))
  }

  // ----- Text is kept, in order and in style

  datatype Block = Body | Title(fontSize: int) | Listing

  /**
   What a reader sees: a character with its style, its kind of text block and the number of
   quotes it stands in; the end of a text block; a horizontal line.
   */
  datatype Glyph =
    | Glyph(c: char, style: InlineMarks.Style, block: Block, quotes: nat)
    | BlockEnd(block: Block, quotes: nat)
    | Line(quotes: nat)

  function Paint(text: string, style: InlineMarks.Style, block: Block, quotes: nat): (r: seq<Glyph>)
    ensures |r| == |text|
  {
    seq(|text|, i requires 0 <= i < |text| => Glyph(text[i], style, block, quotes))
  }

  /** The style that the marks of a text node ask for; other nodes have none. */
  function StyleIn(node: Ast): InlineMarks.Style {
    if node.kind.TextNode? then InlineMarks.StyleOf(node.marks) else InlineMarks.PLAIN
  }

  /** What a leaf shows: the string of its text field in one style. */
  function LeafGlyphs(text: Option<string>, style: InlineMarks.Style, block: Block, quotes: nat): seq<Glyph> {
    match text
    case None => []
    case Some(s) => seq(|s|, i requires 0 <= i < |s| => Glyph(s[i], style, block, quotes))
  }

  /** The text fields of some nodes, one after the other, in one plain style. */
  function PlainTexts(nodes: seq<Ast>, block: Block, quotes: nat): seq<Glyph> {
    if nodes == [] then []
    else LeafGlyphs(nodes[0].text, InlineMarks.PLAIN, block, quotes) + PlainTexts(nodes[1..], block, quotes)
  }

  /** What a reader sees of the document: own texts in document order, an empty paragraph as one space, lines. */
  function DocText(node: Ast, block: Block, quotes: nat): seq<Glyph>
    decreases node, 1
  {
    if node.kind.HorizontalRule? then [Line(quotes)]
    else if node.kind.ParagraphNode? && node.content == [] then
      [Glyph(' ', InlineMarks.PLAIN, block, quotes), BlockEnd(block, quotes)]
    else if node.kind.ParagraphNode? then DocTextAll(node.content, block, quotes) + [BlockEnd(block, quotes)]
    else if node.kind.HeadingNode? then
      var title := Title(FontSize(node.level));
      DocTextAll(node.content, title, quotes) + [BlockEnd(title, quotes)]
    else if node.kind.CodeBlock? then PlainTexts(node.content, Listing, quotes) + [BlockEnd(Listing, quotes)]
    else
      LeafGlyphs(node.text, StyleIn(node), block, quotes)
      + DocTextAll(node.content, block, if node.kind.Blockquote? then quotes + 1 else quotes)
  }

  function DocTextAll(nodes: seq<Ast>, block: Block, quotes: nat): seq<Glyph>
    decreases nodes, 0
  {
    if nodes == [] then [] else DocText(nodes[0], block, quotes) + DocTextAll(nodes[1..], block, quotes)
  }

  function InlinesText(inlines: seq<Inline>, block: Block, quotes: nat): seq<Glyph> {
    if inlines == [] then []
    else Paint(inlines[0].text, inlines[0].style, block, quotes) + InlinesText(inlines[1..], block, quotes)
  }

  function PdfText(p: Pdf, quotes: nat): seq<Glyph>
    decreases p, 1
  {
    match p
    case Heading(inlines, fontSize) =>
      InlinesText(inlines, Title(fontSize), quotes) + [BlockEnd(Title(fontSize), quotes)]
    case Paragraph(inlines) => InlinesText(inlines, Body, quotes) + [BlockEnd(Body, quotes)]
    case Blank => [Glyph(' ', InlineMarks.PLAIN, Body, quotes), BlockEnd(Body, quotes)]
    case EmptyText => []
    case Code(text) => Paint(text, InlineMarks.PLAIN, Listing, quotes) + [BlockEnd(Listing, quotes)]
    case Rule => [Line(quotes)]
    case Span(inline) => Paint(inline.text, inline.style, Body, quotes)
    case Stack(items) => PdfTextAll(items, quotes + 1)
    case _ => PdfTextAll(p.items, quotes)
  }

  function PdfTextAll(ps: seq<Pdf>, quotes: nat): seq<Glyph>
    decreases ps, 0
  {
    if ps == [] then [] else PdfText(ps[0], quotes) + PdfTextAll(ps[1..], quotes)
  }

  predicate IsContainer(kind: Kind) {
    !(kind.HeadingNode? || kind.ParagraphNode? || kind.CodeBlock? || kind.HorizontalRule? || kind.TextNode?)
  }

  /** A leaf inside a text block: text, a hard break, a mention. */
  predicate InlineLeaf(node: Ast) {
    (node.kind.TextNode? || node.kind.Other?) && node.content == []
  }

  /** The node has no text of its own. */
  predicate Silent(node: Ast) {
    node.text.Some? ==> node.text.value == ""
  }

  /**
   The document schema: containers hold only blocks, text blocks hold only inline leaves, a
   text node has no children, and only inline leaves carry text of their own.
   */
  predicate SchemaValid(node: Ast) {
    if IsContainer(node.kind) then
      Silent(node) && forall c | c in node.content :: SchemaValid(c)
    else if node.kind.TextNode? then node.content == []
    else if node.kind.HorizontalRule? then true
    else Silent(node) && forall c | c in node.content :: InlineLeaf(c)
  }

  lemma {:induction false} InlinesKeepText(nodes: seq<Ast>, block: Block, quotes: nat)
    requires forall c | c in nodes :: InlineLeaf(c)
    ensures InlinesText(MapInlines(nodes), block, quotes) == DocTextAll(nodes, block, quotes)
  {
    if nodes != [] {
      assert MapInlines(nodes)[1..] == MapInlines(nodes[1..]);
      InlinesKeepText(nodes[1..], block, quotes);
      assert InlineLeaf(nodes[0]);
      assert DocText(nodes[0], block, quotes) == LeafGlyphs(nodes[0].text, StyleIn(nodes[0]), block, quotes);
    }
  }

  /** The items of a list are what compiling each child as a node would give. */
  lemma {:induction false} ItemsAreNodes(nodes: seq<Ast>)
    ensures MapItems(nodes) == MapAll(nodes)
  {
    if nodes != [] {
      ItemsAreNodes(nodes[1..]);
    }
  }

  /** A list item with one compiled child is that child; with none or several it is their array. */
  lemma ItemExact(node: Ast)
    requires node.kind.ListItem?
    ensures var children := MapAll(node.content);
      && MapAstNode(node).Some?
      && (|children| == 1 ==> MapAstNode(node).value == children[0])
      && (|children| != 1 ==> MapAstNode(node).value == Array(children))
  {
  }

  lemma PdfTextOfOne(p: Pdf, quotes: nat)
    ensures PdfTextAll([p], quotes) == PdfText(p, quotes)
  {
    assert PdfTextAll([p], quotes) == PdfText(p, quotes) + PdfTextAll([], quotes);
  }

  ghost function TextOf(p: Option<Pdf>, quotes: nat): seq<Glyph> {
    if p.Some? then PdfText(p.value, quotes) else []
  }

  /** Compiling a schema-valid document keeps all its text, in order, with the style of its marks and blocks. */
  lemma {:induction false} CompileKeepsText(node: Ast, quotes: nat)
    requires SchemaValid(node)
    ensures TextOf(MapAstNode(node), quotes) == DocText(node, Body, quotes)
    decreases node, 1
  {
    var children := node.content;
    if IsContainer(node.kind) {
      var inner := if node.kind.Blockquote? then quotes + 1 else quotes;
      CompileAllKeepsText(children, inner);
      ItemsAreNodes(children);
      ContainersKeepText(node, MapAll(children), quotes);
    } else if node.kind.HeadingNode? {
      InlinesKeepText(children, Title(FontSize(node.level)), quotes);
      NoText(Title(FontSize(node.level)), quotes);
    } else if node.kind.ParagraphNode? {
      InlinesKeepText(children, Body, quotes);
    } else if node.kind.CodeBlock? {
      CodeBlockShows(node, quotes);
    }
  }

  lemma NoText(block: Block, quotes: nat)
    ensures InlinesText([Inline("", InlineMarks.PLAIN)], block, quotes) == []
  {
  }

  lemma UnwrapKeepsText(compiled: seq<Pdf>, quotes: nat)
    ensures PdfText(Unwrap(compiled), quotes) == PdfTextAll(compiled, quotes)
  {
    if |compiled| == 1 {
      PdfTextOfOne(compiled[0], quotes);
    }
  }

  lemma ContainersKeepText(node: Ast, compiled: seq<Pdf>, quotes: nat)
    requires IsContainer(node.kind) && compiled == MapAll(node.content) == MapItems(node.content)
    ensures TextOf(MapAstNode(node), quotes)
         == PdfTextAll(compiled, if node.kind.Blockquote? then quotes + 1 else quotes)
  {
    match node.kind {
      case Doc => PdfTextOfOne(EmptyText, quotes);
      case ListItem => UnwrapKeepsText(compiled, quotes);
      case Other(_) => assert MapAstNode(node).None? ==> compiled == [];
      case _ =>
    }
  }

  lemma MapAllText(nodes: seq<Ast>, quotes: nat)
    requires nodes != []
    ensures PdfTextAll(MapAll(nodes), quotes)
         == TextOf(MapAstNode(nodes[0]), quotes) + PdfTextAll(MapAll(nodes[1..]), quotes)
  {
    if MapAstNode(nodes[0]).Some? {
      assert MapAll(nodes)[1..] == MapAll(nodes[1..]);
    }
  }

  lemma {:induction false} CompileAllKeepsText(nodes: seq<Ast>, quotes: nat)
    requires forall c | c in nodes :: SchemaValid(c)
    ensures PdfTextAll(MapAll(nodes), quotes) == DocTextAll(nodes, Body, quotes)
    decreases nodes, 0
  {
    if nodes != [] {
      CompileKeepsText(nodes[0], quotes);
      CompileAllKeepsText(nodes[1..], quotes);
      MapAllText(nodes, quotes);
    }
  }

  lemma {:induction false} JoinedTexts(nodes: seq<Ast>, block: Block, quotes: nat)
    ensures Paint(JoinTexts(nodes), InlineMarks.PLAIN, block, quotes) == PlainTexts(nodes, block, quotes)
  {
    if nodes != [] {
      JoinedTexts(nodes[1..], block, quotes);
      var rest := JoinTexts(nodes[1..]);
      var plain := InlineMarks.PLAIN;
      assert Paint(nodes[0].OwnText() + rest, plain, block, quotes)
          == Paint(nodes[0].OwnText(), plain, block, quotes) + Paint(rest, plain, block, quotes);
    }
  }

  /** A code block shows the text field of each child in order, as a plain listing. */
  lemma CodeBlockShows(node: Ast, quotes: nat)
    requires node.kind.CodeBlock?
    ensures TextOf(MapAstNode(node), quotes) == PlainTexts(node.content, Listing, quotes) + [BlockEnd(Listing, quotes)]
  {
    JoinedTexts(node.content, Listing, quotes);
  }

  /** Every leaf shows its text field: a text node in the style its marks give, another leaf plainly. */
  function LeavesText(nodes: seq<Ast>, block: Block, quotes: nat): seq<Glyph> {
    if nodes == [] then []
    else
      var style := if nodes[0].kind.TextNode? then InlineMarks.StyleOf(nodes[0].marks) else InlineMarks.PLAIN;
      LeafGlyphs(nodes[0].text, style, block, quotes) + LeavesText(nodes[1..], block, quotes)
  }

  lemma {:induction false} InlinesShowLeaves(nodes: seq<Ast>, block: Block, quotes: nat)
    ensures InlinesText(MapInlines(nodes), block, quotes) == LeavesText(nodes, block, quotes)
  {
    if nodes != [] {
      assert MapInlines(nodes)[1..] == MapInlines(nodes[1..]);
      InlinesShowLeaves(nodes[1..], block, quotes);
    }
  }

  /** A paragraph shows its leaves, or one space if it has none. */
  lemma ParagraphShows(node: Ast, quotes: nat)
    requires node.kind.ParagraphNode?
    ensures
      var shown :=
        if node.content == [] then [Glyph(' ', InlineMarks.PLAIN, Body, quotes)]
        else LeavesText(node.content, Body, quotes);
      TextOf(MapAstNode(node), quotes) == shown + [BlockEnd(Body, quotes)]
  {
    InlinesShowLeaves(node.content, Body, quotes);
  }

  /** A heading shows its leaves as a title, in the font size of its level. */
  lemma HeadingShows(node: Ast, quotes: nat)
    requires node.kind.HeadingNode?
    ensures
      var size :=
        if node.level == Some(2) then 16
        else if node.level == Some(3) then 13
        else if node.level.Some? && node.level.value > 3 then 12
        else 22;
      TextOf(MapAstNode(node), quotes)
      == LeavesText(node.content, Title(size), quotes) + [BlockEnd(Title(size), quotes)]
  {
    InlinesShowLeaves(node.content, Title(FontSize(node.level)), quotes);
    NoText(Title(FontSize(node.level)), quotes);
  }

  /** A text node outside a text block shows its text field in the style of its marks. */
  lemma TextNodeShows(node: Ast, quotes: nat)
    requires node.kind.TextNode?
    ensures TextOf(MapAstNode(node), quotes)
         == LeafGlyphs(node.text, InlineMarks.StyleOf(node.marks), Body, quotes)
  {
  }

  // ----- Flattening

  lemma {:induction false} PdfTextConcat(a: seq<Pdf>, b: seq<Pdf>, quotes: nat)
    ensures PdfTextAll(a + b, quotes) == PdfTextAll(a, quotes) + PdfTextAll(b, quotes)
  {
    if a == [] {
      assert a + b == b;
    } else {
      assert (a + b)[1..] == a[1..] + b;
      PdfTextConcat(a[1..], b, quotes);
    }
  }

  /** Flattening removes all the arrays around the blocks and keeps the text, for every compiled value. */
  lemma {:induction false} FlattenMeaning(val: Pdf, quotes: nat)
    ensures forall p | p in Flatten(val) :: !p.Array?
    ensures PdfTextAll(Flatten(val), quotes) == PdfText(val, quotes)
    decreases val, 1
  {
    if val.Array? {
      FlattenAllMeaning(val.items, quotes);
    } else {
      PdfTextOfOne(val, quotes);
    }
  }

  lemma {:induction false} FlattenAllMeaning(items: seq<Pdf>, quotes: nat)
    ensures forall p | p in FlattenAll(items) :: !p.Array?
    ensures PdfTextAll(FlattenAll(items), quotes) == PdfTextAll(items, quotes)
    decreases items, 0
  {
    if items != [] {
      FlattenMeaning(items[0], quotes);
      FlattenAllMeaning(items[1..], quotes);
      PdfTextConcat(Flatten(items[0]), FlattenAll(items[1..]), quotes);
    }
  }

  lemma {:induction false} FlattenAllConcat(a: seq<Pdf>, b: seq<Pdf>)
    ensures FlattenAll(a + b) == FlattenAll(a) + FlattenAll(b)
  {
    if a == [] {
      assert a + b == b;
    } else {
      assert (a + b)[1..] == a[1..] + b;
      FlattenAllConcat(a[1..], b);
    }
  }

  /** Dissolving an array in place, anywhere in a list, changes nothing in what flattening gives. */
  lemma FlattenDissolves(before: seq<Pdf>, items: seq<Pdf>, after: seq<Pdf>)
    ensures FlattenAll(before + [Array(items)] + after) == FlattenAll(before + items + after)
  {
    FlattenAllConcat(before + [Array(items)], after);
    FlattenAllConcat(before, [Array(items)]);
    FlattenAllConcat(before + items, after);
    FlattenAllConcat(before, items);
    assert FlattenAll([Array(items)]) == FlattenAll(items) + FlattenAll([]);
  }

  /** Flattening leaves exactly the lists without arrays as they are: it is the list with all arrays dissolved. */
  lemma {:induction false} FlattenFixed(items: seq<Pdf>)
    ensures FlattenAll(items) == items <==> forall p | p in items :: !p.Array?
  {
    if forall p | p in items :: !p.Array? {
      if items != [] {
        FlattenFixed(items[1..]);
        assert FlattenAll(items) == [items[0]] + items[1..];
      }
    } else {
      FlattenAllMeaning(items, 0);
    }
  }

  /** How often `leaf` stands in `val`, under arrays only. */
  function LeafCount(val: Pdf, leaf: Pdf): nat
    decreases val, 1
  {
    if val.Array? then LeafCountAll(val.items, leaf) else if val == leaf then 1 else 0
  }

  function LeafCountAll(items: seq<Pdf>, leaf: Pdf): nat
    decreases items, 0
  {
    if items == [] then 0 else LeafCount(items[0], leaf) + LeafCountAll(items[1..], leaf)
  }

  /** Flattening keeps every leaf as often as it occurs. */
  lemma {:induction false} FlattenKeepsLeaves(val: Pdf, leaf: Pdf)
    ensures multiset(Flatten(val))[leaf] == LeafCount(val, leaf)
    decreases val, 1
  {
    if val.Array? {
      FlattenAllKeepsLeaves(val.items, leaf);
    }
  }

  lemma {:induction false} FlattenAllKeepsLeaves(items: seq<Pdf>, leaf: Pdf)
    ensures multiset(FlattenAll(items))[leaf] == LeafCountAll(items, leaf)
    decreases items, 0
  {
    if items != [] {
      FlattenKeepsLeaves(items[0], leaf);
      FlattenAllKeepsLeaves(items[1..], leaf);
    }
  }

  /** What is not a tree exports to a single text: nothing to the empty one, plain text to itself. */
  lemma PlainExports(text: string)
    ensures MapContent(Nothing) == TextOnly("") && MapContent(PlainText(text)) == TextOnly(text)
  {
  }

  function ContentText(content: PdfContent): seq<Glyph> {
    if content.Blocks? then PdfTextAll(content.blocks, 0) else Paint(content.text, InlineMarks.PLAIN, Body, 0)
  }

  /**
   The whole export of a schema-valid document: array-free blocks, or plain text, that show its
   text in order, each character in the style of its marks, its text block and its quotes.
   */
  lemma ExportKeepsText(root: Ast)
    requires SchemaValid(root)
    ensures var content := MapContent(Tree(root));
      && (content.Blocks? ==> forall p | p in content.blocks :: !p.Array?)
      && ContentText(content) == DocText(root, Body, 0)
  {
    CompileKeepsText(root, 0);
    if MapAstNode(root).Some? {
      FlattenMeaning(MapAstNode(root).value, 0);
    }
  }

  // ----- Empty exports

  /** A node of a kind the compiler does not know, with no content array, is dropped. */
  predicate Dropped(node: Ast) {
    node.kind.Other? && node.bare && node.content == []
  }

  /** Some block comes out of this node once the arrays are flattened. */
  predicate Visible(node: Ast) {
    if node.kind.Doc? then
      || (forall c | c in node.content :: Dropped(c))
      || (exists c | c in node.content :: Visible(c))
    else if node.kind.ListItem? || node.kind.Other? then exists c | c in node.content :: Visible(c)
    else true
  }

  lemma {:induction false} MapAllEmpty(nodes: seq<Ast>)
    ensures MapAll(nodes) == [] <==> forall c | c in nodes :: Dropped(c)
  {
    if nodes != [] {
      MapAllEmpty(nodes[1..]);
      assert MapAstNode(nodes[0]).None? <==> Dropped(nodes[0]);
      assert forall c :: c in nodes <==> c == nodes[0] || c in nodes[1..];
    }
  }

  lemma FlattenUnwrap(contents: seq<Pdf>)
    ensures Flatten(Unwrap(contents)) == FlattenAll(contents)
  {
    if |contents| == 1 {
      assert FlattenAll(contents) == Flatten(contents[0]) + FlattenAll(contents[1..]);
    }
  }

  lemma {:induction false} CompiledIsVisible(node: Ast)
    requires !Dropped(node)
    ensures MapAstNode(node).Some? && (Flatten(MapAstNode(node).value) != [] <==> Visible(node))
    decreases node, 1
  {
    match node.kind {
      case Doc =>
        AllVisible(node.content);
        MapAllEmpty(node.content);
        FlattenAllEmptyText();
      case ListItem =>
        AllVisible(node.content);
        FlattenUnwrap(MapAll(node.content));
      case Other(_) =>
        AllVisible(node.content);
      case _ =>
    }
  }

  lemma FlattenAllEmptyText()
    ensures FlattenAll([EmptyText]) == [EmptyText]
  {
    assert FlattenAll([EmptyText]) == Flatten(EmptyText) + FlattenAll([]);
  }

  lemma {:induction false} AllVisible(nodes: seq<Ast>)
    ensures FlattenAll(MapAll(nodes)) != [] <==> exists c | c in nodes :: Visible(c)
    decreases nodes, 0
  {
    if nodes != [] {
      AllVisible(nodes[1..]);
      if Dropped(nodes[0]) {
        assert !Visible(nodes[0]);
      } else {
        CompiledIsVisible(nodes[0]);
        assert MapAll(nodes)[0] == MapAstNode(nodes[0]).value && MapAll(nodes)[1..] == MapAll(nodes[1..]);
      }
      assert forall c :: c in nodes <==> c == nodes[0] || c in nodes[1..];
    }
  }

  /** The export of a tree is never an empty list of blocks, except exactly when nothing in it is visible. */
  lemma ExportNonEmptyExact(root: Ast)
    ensures MapContent(Tree(root)) == Blocks([]) <==> !Dropped(root) && !Visible(root)
  {
    if !Dropped(root) {
      CompiledIsVisible(root);
    }
  }

  /** A document whose only block is an empty table exports to no content at all. */
  lemma EmptyExportExists()
    ensures var table := Ast(Other("table"), None, [], None, [], false);
      var doc := Ast(Doc, None, [], None, [table], false);
      SchemaValid(doc) && MapContent(Tree(doc)) == Blocks([])
  {
    var table := Ast(Other("table"), None, [], None, [], false);
    var doc := Ast(Doc, None, [], None, [table], false);
    assert table in doc.content;
    assert forall c | c in doc.content :: c == table;
    assert !Visible(table);
    ExportNonEmptyExact(doc);
  }

  // ----- Lists keep their items and their nesting

  /** The lists of a document and how they nest: each list with the lists inside each of its items. */
  datatype Outline = List(ordered: bool, items: seq<seq<Outline>>)

  function DocOutline(node: Ast): seq<Outline>
    decreases node, 1
  {
    if node.kind.BulletList? then [List(false, ItemOutlines(node.content))]
    else if node.kind.OrderedList? then [List(true, ItemOutlines(node.content))]
    else if IsContainer(node.kind) then DocOutlineAll(node.content)
    else []
  }

  function ItemOutlines(nodes: seq<Ast>): (r: seq<seq<Outline>>)
    ensures |r| == |nodes|
    decreases nodes, 0
  {
    if nodes == [] then [] else [DocOutline(nodes[0])] + ItemOutlines(nodes[1..])
  }

  function DocOutlineAll(nodes: seq<Ast>): seq<Outline>
    decreases nodes, 0
  {
    if nodes == [] then [] else DocOutline(nodes[0]) + DocOutlineAll(nodes[1..])
  }

  function PdfOutline(p: Pdf): seq<Outline>
    decreases p, 1
  {
    match p
    case Ul(items) => [List(false, PdfItemOutlines(items))]
    case Ol(items) => [List(true, PdfItemOutlines(items))]
    case Stack(items) => PdfOutlineAll(items)
    case Array(items) => PdfOutlineAll(items)
    case _ => []
  }

  function PdfItemOutlines(ps: seq<Pdf>): (r: seq<seq<Outline>>)
    ensures |r| == |ps|
    decreases ps, 0
  {
    if ps == [] then [] else [PdfOutline(ps[0])] + PdfItemOutlines(ps[1..])
  }

  function PdfOutlineAll(ps: seq<Pdf>): seq<Outline>
    decreases ps, 0
  {
    if ps == [] then [] else PdfOutline(ps[0]) + PdfOutlineAll(ps[1..])
  }

  predicate IsList(kind: Kind) {
    kind.BulletList? || kind.OrderedList?
  }

  /** No list that the compiler reaches has a child it drops. */
  predicate NoDroppedItems(node: Ast) {
    IsContainer(node.kind) ==>
      && (IsList(node.kind) ==> forall c | c in node.content :: !Dropped(c))
      && forall c | c in node.content :: NoDroppedItems(c)
  }

  ghost function OutlineOf(p: Option<Pdf>): seq<Outline> {
    if p.Some? then PdfOutline(p.value) else []
  }

  lemma PdfOutlineOfOne(p: Pdf)
    ensures PdfOutlineAll([p]) == PdfOutline(p)
  {
    assert PdfOutlineAll([p]) == PdfOutline(p) + PdfOutlineAll([]);
  }

  lemma ContainersKeepLists(node: Ast, compiled: seq<Pdf>)
    requires IsContainer(node.kind) && !IsList(node.kind) && compiled == MapAll(node.content)
    ensures OutlineOf(MapAstNode(node)) == PdfOutlineAll(compiled)
  {
    if |compiled| == 1 {
      PdfOutlineOfOne(compiled[0]);
    }
    PdfOutlineOfOne(EmptyText);
  }

  lemma MapAllOutline(nodes: seq<Ast>)
    requires nodes != []
    ensures PdfOutlineAll(MapAll(nodes)) == OutlineOf(MapAstNode(nodes[0])) + PdfOutlineAll(MapAll(nodes[1..]))
  {
    PdfOutlineSplit(MapAstNode(nodes[0]), MapAll(nodes[1..]));
  }

  lemma PdfOutlineSplit(head: Option<Pdf>, rest: seq<Pdf>)
    ensures PdfOutlineAll((if head.Some? then [head.value] else []) + rest) == OutlineOf(head) + PdfOutlineAll(rest)
    ensures head.None? ==> (if head.Some? then [head.value] else []) + rest == rest
  {
    if head.Some? {
      assert ([head.value] + rest)[1..] == rest;
    } else {
      assert [] + rest == rest;
    }
  }

  /** Compiling keeps the number of outermost lists. */
  lemma {:induction false} OutlineCount(node: Ast)
    ensures |OutlineOf(MapAstNode(node))| == |DocOutline(node)|
    decreases node, 1
  {
    if IsContainer(node.kind) && !IsList(node.kind) {
      OutlineCountAll(node.content);
      ContainersKeepLists(node, MapAll(node.content));
    }
  }

  lemma {:induction false} OutlineCountAll(nodes: seq<Ast>)
    ensures |PdfOutlineAll(MapAll(nodes))| == |DocOutlineAll(nodes)|
    decreases nodes, 0
  {
    if nodes != [] {
      OutlineCount(nodes[0]);
      OutlineCountAll(nodes[1..]);
      MapAllOutline(nodes);
    }
  }

  /**
   Compiling keeps every list with its kind, its number of items and the lists nested in each
   item, exactly when no list has a child that the compiler drops.
   */
  lemma {:induction false} CompileKeepsLists(node: Ast)
    ensures OutlineOf(MapAstNode(node)) == DocOutline(node) <==> NoDroppedItems(node)
    decreases node, 1
  {
    var children := node.content;
    if IsList(node.kind) {
      CompileItemsKeepsLists(children);
      ItemsAreNodes(children);
    } else if IsContainer(node.kind) {
      CompileAllKeepsLists(children);
      ContainersKeepLists(node, MapAll(children));
    }
  }

  lemma {:induction false} CompileItemsKeepsLists(nodes: seq<Ast>)
    ensures PdfItemOutlines(MapAll(nodes)) == ItemOutlines(nodes)
       <==> forall c | c in nodes :: !Dropped(c) && NoDroppedItems(c)
    ensures |MapAll(nodes)| <= |nodes|
    decreases nodes, 0
  {
    if nodes != [] {
      CompileKeepsLists(nodes[0]);
      CompileItemsKeepsLists(nodes[1..]);
      var rest := MapAll(nodes[1..]);
      assert forall c :: c in nodes <==> c == nodes[0] || c in nodes[1..];
      if Dropped(nodes[0]) {
        assert MapAll(nodes) == rest;
      } else {
        assert MapAll(nodes)[1..] == rest;
        ItemOutlinesSplit(PdfOutline(MapAstNode(nodes[0]).value), PdfItemOutlines(rest),
                          DocOutline(nodes[0]), ItemOutlines(nodes[1..]));
      }
    }
  }

  lemma ItemOutlinesSplit(x: seq<Outline>, xs: seq<seq<Outline>>, y: seq<Outline>, ys: seq<seq<Outline>>)
    ensures [x] + xs == [y] + ys <==> x == y && xs == ys
  {
    if [x] + xs == [y] + ys {
      assert ([x] + xs)[0] == x && ([y] + ys)[0] == y;
      assert ([x] + xs)[1..] == xs && ([y] + ys)[1..] == ys;
    }
  }

  lemma OutlinesSplit(x: seq<Outline>, xs: seq<Outline>, y: seq<Outline>, ys: seq<Outline>)
    requires |x| == |y|
    ensures x + xs == y + ys <==> x == y && xs == ys
  {
    if x + xs == y + ys {
      assert (x + xs)[..|x|] == x && (y + ys)[..|x|] == y;
      assert (x + xs)[|x|..] == xs && (y + ys)[|x|..] == ys;
    }
  }

  lemma {:induction false} CompileAllKeepsLists(nodes: seq<Ast>)
    ensures PdfOutlineAll(MapAll(nodes)) == DocOutlineAll(nodes) <==> forall c | c in nodes :: NoDroppedItems(c)
    decreases nodes, 0
  {
    if nodes != [] {
      CompileKeepsLists(nodes[0]);
      CompileAllKeepsLists(nodes[1..]);
      MapAllOutline(nodes);
      OutlineCount(nodes[0]);
      OutlinesSplit(OutlineOf(MapAstNode(nodes[0])), PdfOutlineAll(MapAll(nodes[1..])),
                    DocOutline(nodes[0]), DocOutlineAll(nodes[1..]));
      assert forall c :: c in nodes <==> c == nodes[0] || c in nodes[1..];
    }
  }

  lemma {:induction false} PdfOutlineConcat(a: seq<Pdf>, b: seq<Pdf>)
    ensures PdfOutlineAll(a + b) == PdfOutlineAll(a) + PdfOutlineAll(b)
  {
    if a == [] {
      assert a + b == b;
    } else {
      assert (a + b)[1..] == a[1..] + b;
      PdfOutlineConcat(a[1..], b);
    }
  }

  lemma {:induction false} FlattenKeepsLists(val: Pdf)
    ensures PdfOutlineAll(Flatten(val)) == PdfOutline(val)
    decreases val, 1
  {
    if val.Array? {
      FlattenAllKeepsLists(val.items);
    } else {
      PdfOutlineOfOne(val);
    }
  }

  lemma {:induction false} FlattenAllKeepsLists(items: seq<Pdf>)
    ensures PdfOutlineAll(FlattenAll(items)) == PdfOutlineAll(items)
    decreases items, 0
  {
    if items != [] {
      FlattenKeepsLists(items[0]);
      FlattenAllKeepsLists(items[1..]);
      PdfOutlineConcat(Flatten(items[0]), FlattenAll(items[1..]));
    }
  }

  ghost function ContentOutline(content: PdfContent): seq<Outline> {
    if content.Blocks? then PdfOutlineAll(content.blocks) else []
  }

  /**
   The whole export keeps the lists, with the same kinds, item counts, nesting and order, exactly
   when no list has a child that the compiler drops.
   */
  lemma ExportKeepsLists(root: Ast)
    ensures ContentOutline(MapContent(Tree(root))) == DocOutline(root) <==> NoDroppedItems(root)
  {
    CompileKeepsLists(root);
    if MapAstNode(root).Some? {
      FlattenKeepsLists(MapAstNode(root).value);
    }
  }

  /** Throughout the tree, lists have only list items as children. */
  predicate ListsOfItems(node: Ast) {
    && (IsList(node.kind) ==> forall c | c in node.content :: c.kind.ListItem?)
    && forall c | c in node.content :: ListsOfItems(c)
  }

  /** A list of list items, the schema's only kind, loses none. */
  lemma {:induction false} ItemsAreNeverDropped(node: Ast)
    requires ListsOfItems(node)
    ensures NoDroppedItems(node)
  {
    forall c | c in node.content ensures NoDroppedItems(c) {
      ItemsAreNeverDropped(c);
    }
  }

  /** A list with an unknown, empty child exports with one item less. */
  lemma DroppedItemExists()
    ensures var item := Ast(Other("caption"), None, [], None, [], true);
      var list := Ast(BulletList, None, [], None, [item], false);
      DocOutline(list) == [List(false, [[]])] && ContentOutline(MapContent(Tree(list))) == [List(false, [])]
  {
    var item := Ast(Other("caption"), None, [], None, [], true);
    var list := Ast(BulletList, None, [], None, [item], false);
    assert [item][1..] == [];
    assert MapItems([item]) == [];
    assert DocOutline(item) == DocOutlineAll([]) == [];
    assert ItemOutlines(list.content) == [DocOutline(item)] + ItemOutlines([]) == [[]];
    assert Flatten(Ul([])) == [Ul([])];
    PdfOutlineOfOne(Ul([]));
  }
}
