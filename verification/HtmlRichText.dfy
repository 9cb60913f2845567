/** Printing a rich-text document as an HTML tree and parsing such a tree back (app/richText.ts). */
module HtmlRichText {
  import opened Wrappers
  import opened JsStrings
  import opened RichText
  import opened RichTextPlain
  import opened NormalizeHtml
  import H = Html

  type Node = H.Node

  // ---------------------------------------------------------------- printing

  function TextNodes(text: Str): seq<Node> {
    if text == [] then [] else [H.Text(text)]
  }

  function LinkAttrs(href: Str, title: Str): H.Attrs {
    var attrs := map[H.Href := href];
    if title == [] then attrs else attrs[H.Title := title]
  }

  /** applyMarkToHtml: a mark becomes one element around what is printed so far, or nothing. */
  function WrapOne(nodes: seq<Node>, m: Mark): seq<Node> {
    match m.kind
    case Strong => [H.Element(H.Strong, map[], nodes)]
    case Em => [H.Element(H.Em, map[], nodes)]
    case Code => [H.Element(H.Code, map[], nodes)]
    case Strike => [H.Element(H.S, map[], nodes)]
    case Spoiler => nodes
    case UnknownMark(_) => nodes
    case _ =>
      var href := SanitizeAbsoluteHref(OrEmpty(m.href));
      if href == [] then nodes else [H.Element(H.A, LinkAttrs(href, OrEmpty(m.title)), nodes)]
  }

  /** The first mark is the innermost element. */
  function Wrap(nodes: seq<Node>, marks: seq<Mark>): seq<Node> {
    if marks == [] then nodes else WrapOne(Wrap(nodes, marks[..|marks| - 1]), marks[|marks| - 1])
  }

  function PrintInline(node: Inline): seq<Node> {
    Wrap(TextNodes(node.text), NormalizeMarks(node.marks))
  }

  function PrintInlines(nodes: seq<Inline>): seq<Node> {
    if nodes == [] then [] else PrintInline(nodes[0]) + PrintInlines(nodes[1..])
  }

  function PrintItem(item: Block): Node {
    var it := AsListItem(item);
    H.Element(H.Li, map[], PrintInlines(it.children))
  }

  function PrintItems(items: seq<Block>): (r: seq<Node>)
    ensures |r| == |items| && forall i :: 0 <= i < |items| ==> r[i] == PrintItem(items[i])
  {
    if items == [] then [] else [PrintItem(items[0])] + PrintItems(items[1..])
  }

  function PrintBlock(b: Block): seq<Node> {
    match b
    case Paragraph(children) => [H.Element(H.P, map[], PrintInlines(children))]
    case Blockquote(children) => [H.Element(H.Blockquote, map[], PrintInlines(children))]
    case ListItem(children) => [H.Element(H.Li, map[], PrintInlines(children))]
    case CodeBlock(text, _) => [H.Element(H.Pre, map[], [H.Element(H.Code, map[], TextNodes(text))])]
    case List(ordered, items) => [H.Element(if ordered then H.Ol else H.Ul, map[], PrintItems(items))]
    case LineBreak => [H.Element(H.Br, map[], [])]
    case Attachment(_, _, _, _) => []
    case UnknownBlock(_) => []
  }

  function PrintBlocks(blocks: seq<Block>): seq<Node> {
    if blocks == [] then [] else PrintBlock(blocks[0]) + PrintBlocks(blocks[1..])
  }

  // ---------------------------------------------------------------- parsing

  function PlainMark(kind: MarkKind): Mark {
    Mark(kind, None, None, None, NoId, None, None)
  }

  function AttrOrEmpty(attrs: H.Attrs, name: H.AttrName): Str {
    if name in attrs then attrs[name] else []
  }

  /** htmlTagToMark */
  function TagToMark(tag: H.Tag, attrs: H.Attrs): Option<Mark> {
    match tag
    case Strong => Some(PlainMark(Strong))
    case B => Some(PlainMark(Strong))
    case Em => Some(PlainMark(Em))
    case I => Some(PlainMark(Em))
    case Code => Some(PlainMark(Code))
    case S => Some(PlainMark(Strike))
    case A =>
      var href := SanitizeAbsoluteHref(AttrOrEmpty(attrs, H.Href));
      if href == [] then None
      else Some(PlainMark(Link).(href := Some(href), title := H.NonEmpty(AttrOrEmpty(attrs, H.Title))))
    case _ => None
  }

  /** htmlNodeToInlineNodes: `marks` are the marks of the enclosing elements, outermost first. */
  function ParseInline(node: Node, marks: seq<Mark>): seq<Inline>
    decreases node, 1
  {
    match node
    case Text(data) => [Inline(data, NormalizeMarks(marks))]
    case Element(tag, attrs, children) =>
      if tag.Br? then [Inline([NEWLINE], NormalizeMarks(marks))]
      else
        var mark := TagToMark(tag, attrs);
        ParseInlines(children, if mark.Some? then marks + [mark.value] else marks)
    case _ => []
  }

  function ParseInlines(nodes: seq<Node>, marks: seq<Mark>): seq<Inline>
    decreases nodes, 0
  {
    if nodes == [] then [] else ParseInline(nodes[0], marks) + ParseInlines(nodes[1..], marks)
  }

  function TextContent(node: Node): Str
    decreases node, 1
  {
    match node
    case Text(data) => data
    case Element(_, _, children) => TextContents(children)
    case _ => []
  }

  function TextContents(nodes: seq<Node>): Str
    decreases nodes, 0
  {
    if nodes == [] then [] else TextContent(nodes[0]) + TextContents(nodes[1..])
  }

  function ParseChildren(nodes: seq<Node>): seq<Inline> {
    NormalizeInline(ParseInlines(nodes, []))
  }

  /** The direct li children; everything else in a list is skipped. */
  function ParseItems(nodes: seq<Node>): seq<Block> {
    if nodes == [] then []
    else (if nodes[0].Element? && nodes[0].tag.Li? then [ListItem(ParseChildren(nodes[0].children))] else [])
         + ParseItems(nodes[1..])
  }

  /** htmlNodeToBlocks: None for a node that belongs to running text. */
  function ParseBlock(node: Node): Option<Block> {
    if !node.Element? then None
    else
      match node.tag
      case P => Some(Paragraph(ParseChildren(node.children)))
      case Blockquote => Some(Blockquote(ParseChildren(node.children)))
      case Pre => Some(CodeBlock(TextContent(node), None))
      case Ul => Some(List(false, ParseItems(node.children)))
      case Ol => Some(List(true, ParseItems(node.children)))
      case Br => Some(LineBreak)
      case _ => None
  }

  /** The paragraph that the buffered running text makes. */
  function Flush(buffer: seq<Inline>): seq<Block> {
    if buffer == [] then [] else [Paragraph(NormalizeInline(buffer))]
  }

  function CollectBlocks(nodes: seq<Node>, buffer: seq<Inline>): seq<Block>
    decreases nodes
  {
    if nodes == [] then Flush(buffer)
    else
      var b := ParseBlock(nodes[0]);
      if b.Some? then Flush(buffer) + [b.value] + CollectBlocks(nodes[1..], [])
      else CollectBlocks(nodes[1..], buffer + ParseInline(nodes[0], []))
  }

  function ParseBlocks(nodes: seq<Node>): seq<Block> {
    NormalizeBlocks(CollectBlocks(nodes, []))
  }

  lemma CollectNext(nodes: seq<Node>, i: nat, buffer: seq<Inline>)
    requires i < |nodes|
    ensures var b := ParseBlock(nodes[i]);
            CollectBlocks(nodes[i..], buffer) ==
            if b.Some? then Flush(buffer) + [b.value] + CollectBlocks(nodes[i + 1..], [])
            else CollectBlocks(nodes[i + 1..], buffer + ParseInline(nodes[i], []))
  {
    hide ParseBlock, ParseInline, Flush;
    assert nodes[i..][1..] == nodes[i + 1..];
  }

  lemma Associate(a: seq<Block>, b: seq<Block>, c: seq<Block>, d: seq<Block>)
    ensures a + (b + c + d) == a + b + c + d
    ensures b == [] ==> a + b == a
  {}

  /** htmlNodesToBlocks as the loop the code runs over its inline buffer. */
  method HtmlNodesToBlocks(nodes: seq<Node>) returns (r: seq<Block>)
    ensures r == ParseBlocks(nodes)
  {
    assert forall buffer :: CollectBlocks(nodes[|nodes|..], buffer) == Flush(buffer);
    hide ParseBlock, ParseInline, NormalizeBlocks, NormalizeInline, CollectBlocks;
    var blocks: seq<Block> := [];
    var inlineBuffer: seq<Inline> := [];
    for i := 0 to |nodes|
      invariant blocks + CollectBlocks(nodes[i..], inlineBuffer) == CollectBlocks(nodes, [])
    {
      CollectNext(nodes, i, inlineBuffer);
      var b := ParseBlock(nodes[i]);
      if b.Some? {
        Associate(blocks, Flush(inlineBuffer), [b.value], CollectBlocks(nodes[i + 1..], []));
        if inlineBuffer != [] {
          var children := NormalizeInlineNodes(inlineBuffer);
          blocks := blocks + [Paragraph(children)];
          inlineBuffer := [];
        }
        blocks := blocks + [b.value];
      } else {
        inlineBuffer := inlineBuffer + ParseInline(nodes[i], []);
      }
    }
    if inlineBuffer != [] {
      var children := NormalizeInlineNodes(inlineBuffer);
      blocks := blocks + [Paragraph(children)];
    }
    r := NormalizeBlocks(blocks);
  }

  // ---------------------------------------------------------------- the printed tree is clean

  lemma NoAttributesAreClean(tag: H.Tag)
    ensures H.SanitizeAttrs(H.TextOnly, tag, map[]) == map[]
  {}

  lemma LinkAttrsAreClean(value: Str, title: Str)
    requires SanitizeAbsoluteHref(value) != []
    ensures var attrs := LinkAttrs(SanitizeAbsoluteHref(value), title);
            H.SanitizeAttrs(H.TextOnly, H.A, attrs) == attrs
  {
    SanitizeHrefIsProjection(value);
    hide SanitizeHref, SanitizeAbsoluteHref, H.SanitizeTarget, H.SanitizeRel;
    H.KeptAttrsFixed(H.TextOnly, H.A, LinkAttrs(SanitizeAbsoluteHref(value), title));
  }

  lemma CleanOne(node: Node)
    requires H.Clean(H.TextOnly, node)
    ensures H.AllClean(H.TextOnly, [node])
  {
    assert [node][1..] == [];
  }

  lemma WrapOneShape(nodes: seq<Node>, m: Mark)
    ensures var r := WrapOne(nodes, m);
            r == nodes || (|r| == 1 && r[0].Element? && r[0].children == nodes && H.AllowedTag(H.TextOnly, r[0].tag)
                           && H.SanitizeAttrs(H.TextOnly, r[0].tag, r[0].attrs) == r[0].attrs)
  {
    var r := WrapOne(nodes, m);
    if r != nodes { NoAttributesAreClean(r[0].tag); }
    if SanitizeAbsoluteHref(OrEmpty(m.href)) != [] { LinkAttrsAreClean(OrEmpty(m.href), OrEmpty(m.title)); }
    hide H.SanitizeAttrs, SanitizeAbsoluteHref, LinkAttrs;
  }

  lemma {:induction false} WrapOneIsClean(nodes: seq<Node>, m: Mark)
    requires H.AllClean(H.TextOnly, nodes)
    ensures H.AllClean(H.TextOnly, WrapOne(nodes, m))
  {
    WrapOneShape(nodes, m);
    hide WrapOne, H.SanitizeAttrs;
    var r := WrapOne(nodes, m);
    if r != nodes {
      CleanOne(r[0]);
      assert r == [r[0]];
    }
  }

  lemma {:induction false} WrapIsClean(nodes: seq<Node>, marks: seq<Mark>)
    requires H.AllClean(H.TextOnly, nodes)
    ensures H.AllClean(H.TextOnly, Wrap(nodes, marks))
  {
    if marks == [] {
    } else {
      WrapIsClean(nodes, marks[..|marks| - 1]);
      WrapOneIsClean(Wrap(nodes, marks[..|marks| - 1]), marks[|marks| - 1]);
    }
  }

  lemma {:induction false} InlinesAreClean(nodes: seq<Inline>)
    ensures H.AllClean(H.TextOnly, PrintInlines(nodes))
  {
    if nodes == [] {
    } else {
      CleanOne(H.Text(nodes[0].text));
      WrapIsClean(TextNodes(nodes[0].text), NormalizeMarks(nodes[0].marks));
      InlinesAreClean(nodes[1..]);
      H.AllCleanConcat(H.TextOnly, PrintInline(nodes[0]), PrintInlines(nodes[1..]));
    }
  }

  lemma PlainElementIsClean(tag: H.Tag, children: seq<Node>)
    requires H.AllowedTag(H.TextOnly, tag) && H.AllClean(H.TextOnly, children)
    ensures H.AllClean(H.TextOnly, [H.Element(tag, map[], children)])
  {
    NoAttributesAreClean(tag);
    CleanOne(H.Element(tag, map[], children));
  }

  lemma {:induction false} ItemsAreClean(items: seq<Block>)
    ensures H.AllClean(H.TextOnly, PrintItems(items))
  {
    if items == [] {
    } else {
      InlinesAreClean(AsListItem(items[0]).children);
      PlainElementIsClean(H.Li, PrintInlines(AsListItem(items[0]).children));
      ItemsAreClean(items[1..]);
      H.AllCleanConcat(H.TextOnly, [PrintItem(items[0])], PrintItems(items[1..]));
    }
  }

  lemma BlockIsClean(b: Block)
    ensures H.AllClean(H.TextOnly, PrintBlock(b))
  {
    hide H.AllClean;
    match b {
      case Paragraph(children) =>
        InlinesAreClean(children);
        PlainElementIsClean(H.P, PrintInlines(children));
      case Blockquote(children) =>
        InlinesAreClean(children);
        PlainElementIsClean(H.Blockquote, PrintInlines(children));
      case ListItem(children) =>
        InlinesAreClean(children);
        PlainElementIsClean(H.Li, PrintInlines(children));
      case CodeBlock(text, _) =>
        CleanOne(H.Text(text));
        NoNodesAreClean();
        PlainElementIsClean(H.Code, TextNodes(text));
        PlainElementIsClean(H.Pre, [H.Element(H.Code, map[], TextNodes(text))]);
      case List(ordered, items) =>
        ItemsAreClean(items);
        PlainElementIsClean(if ordered then H.Ol else H.Ul, PrintItems(items));
      case LineBreak =>
        NoNodesAreClean();
        PlainElementIsClean(H.Br, []);
      case _ => NoNodesAreClean();
    }
  }

  lemma NoNodesAreClean()
    ensures H.AllClean(H.TextOnly, [])
  {}

  lemma {:induction false} BlocksAreClean(blocks: seq<Block>)
    ensures H.AllClean(H.TextOnly, PrintBlocks(blocks))
  {
    if blocks == [] {
    } else {
      BlockIsClean(blocks[0]);
      BlocksAreClean(blocks[1..]);
      H.AllCleanConcat(H.TextOnly, PrintBlock(blocks[0]), PrintBlocks(blocks[1..]));
    }
  }

  /** Whatever the document, the sanitizer finds nothing to change in the printed tree. */
  lemma PrintedTreeIsLeftAlone(blocks: seq<Block>)
    ensures H.SanitizeAll(H.TextOnly, PrintBlocks(blocks)) == PrintBlocks(blocks)
  {
    BlocksAreClean(blocks);
    H.AllCleanIsFixed(H.TextOnly, PrintBlocks(blocks));
  }

  // ---------------------------------------------------------------- printing keeps the text

  function ItemsText(items: seq<Block>): Str {
    if items == [] then [] else TextOf(AsListItem(items[0]).children) + ItemsText(items[1..])
  }

  /** The words of a block; line breaks and attachments have none in HTML. */
  function BlockWords(b: Block): Str {
    match b
    case Paragraph(children) => TextOf(children)
    case Blockquote(children) => TextOf(children)
    case ListItem(children) => TextOf(children)
    case CodeBlock(text, _) => text
    case List(_, items) => ItemsText(items)
    case _ => []
  }

  function DocumentWords(blocks: seq<Block>): Str {
    if blocks == [] then [] else BlockWords(blocks[0]) + DocumentWords(blocks[1..])
  }

  lemma ElementText(tag: H.Tag, attrs: H.Attrs, children: seq<Node>)
    requires !H.Blocked(tag)
    ensures H.VisibleTextAll([H.Element(tag, attrs, children)]) == H.VisibleTextAll(children)
  {
    H.VisibleTextOne(H.Element(tag, attrs, children));
  }

  lemma TextNodesText(text: Str)
    ensures H.VisibleTextAll(TextNodes(text)) == text
  {
    if text != [] { H.VisibleTextOne(H.Text(text)); }
  }

  lemma WrapOneText(nodes: seq<Node>, m: Mark)
    ensures H.VisibleTextAll(WrapOne(nodes, m)) == H.VisibleTextAll(nodes)
  {
    WrapOneShape(nodes, m);
    hide WrapOne, H.VisibleTextAll, H.SanitizeAttrs;
    var r := WrapOne(nodes, m);
    if r != nodes {
      ElementText(r[0].tag, r[0].attrs, nodes);
      assert r == [H.Element(r[0].tag, r[0].attrs, nodes)];
    }
  }

  lemma {:induction false} WrapText(nodes: seq<Node>, marks: seq<Mark>)
    ensures H.VisibleTextAll(Wrap(nodes, marks)) == H.VisibleTextAll(nodes)
  {
    hide WrapOne, H.VisibleTextAll;
    if marks == [] {
    } else {
      WrapText(nodes, marks[..|marks| - 1]);
      WrapOneText(Wrap(nodes, marks[..|marks| - 1]), marks[|marks| - 1]);
    }
  }

  lemma InlineText(node: Inline)
    ensures H.VisibleTextAll(PrintInline(node)) == node.text
  {
    WrapText(TextNodes(node.text), NormalizeMarks(node.marks));
    TextNodesText(node.text);
  }

  lemma TextOfCons(first: Inline, rest: seq<Inline>)
    ensures TextOf([first] + rest) == first.text + TextOf(rest)
  {
    TextOfConcat([first], rest);
    TextPush([], first);
    assert [] + [first] == [first];
  }

  lemma {:induction false} InlinesText(nodes: seq<Inline>)
    ensures H.VisibleTextAll(PrintInlines(nodes)) == TextOf(nodes)
  {
    if nodes == [] {
    } else {
      hide PrintInline, TextOf, H.VisibleTextAll;
      InlineText(nodes[0]);
      InlinesText(nodes[1..]);
      H.VisibleTextConcat(PrintInline(nodes[0]), PrintInlines(nodes[1..]));
      TextOfCons(nodes[0], nodes[1..]);
      assert [nodes[0]] + nodes[1..] == nodes;
    }
  }

  lemma {:induction false} ItemsTextPrinted(items: seq<Block>)
    ensures H.VisibleTextAll(PrintItems(items)) == ItemsText(items)
  {
    if items == [] {
    } else {
      var children := AsListItem(items[0]).children;
      InlinesText(children);
      ElementText(H.Li, map[], PrintInlines(children));
      ItemsTextPrinted(items[1..]);
      H.VisibleTextConcat([PrintItem(items[0])], PrintItems(items[1..]));
      hide PrintInlines, TextOf, H.VisibleTextAll;
    }
  }

  lemma BlockText(b: Block)
    ensures H.VisibleTextAll(PrintBlock(b)) == BlockWords(b)
  {
    match b {
      case Paragraph(children) => InlinesText(children); ElementText(H.P, map[], PrintInlines(children));
      case Blockquote(children) => InlinesText(children); ElementText(H.Blockquote, map[], PrintInlines(children));
      case ListItem(children) => InlinesText(children); ElementText(H.Li, map[], PrintInlines(children));
      case CodeBlock(text, _) =>
        TextNodesText(text);
        ElementText(H.Code, map[], TextNodes(text));
        ElementText(H.Pre, map[], [H.Element(H.Code, map[], TextNodes(text))]);
      case List(ordered, items) =>
        ItemsTextPrinted(items);
        ElementText(if ordered then H.Ol else H.Ul, map[], PrintItems(items));
      case LineBreak => ElementText(H.Br, map[], []);
      case _ =>
    }
    assert H.VisibleTextAll([]) == [];
    hide PrintInlines, PrintItems, ItemsText, TextOf, TextNodes, H.VisibleTextAll;
  }

  /** For every document, valid or not and whatever its marks, the reader of the printed page sees exactly its words, in order. */
  lemma {:induction false} PrintKeepsWords(blocks: seq<Block>)
    ensures H.VisibleTextAll(PrintBlocks(blocks)) == DocumentWords(blocks)
  {
    if blocks == [] {
    } else {
      BlockText(blocks[0]);
      PrintKeepsWords(blocks[1..]);
      H.VisibleTextConcat(PrintBlock(blocks[0]), PrintBlocks(blocks[1..]));
      hide PrintBlock, BlockWords, H.VisibleTextAll;
    }
  }

  // ---------------------------------------------------------------- the round trip

  /** A mark HTML can carry: no field an element has no place for. */
  predicate PlainAsHtml(m: Mark) {
    match m.kind
    case Strong => m == PlainMark(Strong)
    case Em => m == PlainMark(Em)
    case Code => m == PlainMark(Code)
    case Strike => m == PlainMark(Strike)
    case Link => m == PlainMark(Link).(href := m.href, title := m.title) && m.title != Some([])
    case _ => false
  }

  /** At most one link: links do not nest. */
  predicate PlainMarks(marks: seq<Mark>) {
    (forall i :: 0 <= i < |marks| ==> PlainAsHtml(marks[i])) && |OfRank(marks, Rank(Link))| <= 1
  }

  predicate PlainInlines(nodes: seq<Inline>) {
    forall i :: 0 <= i < |nodes| ==> PlainMarks(nodes[i].marks)
  }

  /** Paragraphs, quotes, code blocks without a language, lists and line breaks, with plain marks. */
  predicate Representable(b: Block) {
    match b
    case Paragraph(children) => PlainInlines(children)
    case Blockquote(children) => PlainInlines(children)
    case CodeBlock(_, language) => language == None
    case List(_, items) => forall i :: 0 <= i < |items| ==> items[i].ListItem? && PlainInlines(items[i].children)
    case LineBreak => true
    case _ => false
  }

  predicate AllRepresentable(blocks: seq<Block>) {
    forall i :: 0 <= i < |blocks| ==> Representable(blocks[i])
  }

  ghost predicate Normalized(blocks: seq<Block>) {
    NormalizeBlocks(blocks) == blocks
  }

  function Reverse(marks: seq<Mark>): (r: seq<Mark>)
    ensures |r| == |marks|
  {
    if marks == [] then [] else [marks[|marks| - 1]] + Reverse(marks[..|marks| - 1])
  }

  lemma {:induction false} OfRankConcat(a: seq<Mark>, b: seq<Mark>, rank: int)
    ensures OfRank(a + b, rank) == OfRank(a, rank) + OfRank(b, rank)
  {
    if b == [] {
      assert a + b == a;
    } else {
      assert (a + b)[..|a + b| - 1] == a + b[..|b| - 1];
      OfRankConcat(a, b[..|b| - 1], rank);
    }
  }

  /** All marks of one type in a plain list are the same mark. */
  lemma {:induction false} OfRankIsUniform(marks: seq<Mark>, rank: int, m: Mark)
    requires forall i :: 0 <= i < |marks| && Rank(marks[i].kind) == rank ==> marks[i] == m
    ensures forall i :: 0 <= i < |OfRank(marks, rank)| ==> OfRank(marks, rank)[i] == m
  {
    if marks == [] {
    } else {
      OfRankIsUniform(marks[..|marks| - 1], rank, m);
    }
  }

  lemma PlainFront(front: seq<Mark>, last: Mark)
    requires PlainMarks(front + [last])
    ensures PlainMarks(front) && PlainAsHtml(last)
    ensures last.kind.Link? ==> OfRank(front, Rank(Link)) == []
  {
    hide PlainAsHtml;
    var marks := front + [last];
    assert marks[..|front|] == front && marks[|front|] == last;
    assert forall i :: 0 <= i < |front| ==> marks[i] == front[i];
  }

  /** In a plain list the last mark commutes with the earlier ones of its type: they are equal, or there are none. */
  lemma LastCommutes(front: seq<Mark>, last: Mark, rank: int)
    requires PlainMarks(front + [last])
    ensures OfRank([last], rank) + OfRank(front, rank) == OfRank(front, rank) + OfRank([last], rank)
  {
    PlainFront(front, last);
    OfRankOne(last, rank);
    if !last.kind.Link? { OfRankIsUniform(front, Rank(last.kind), last); }
    hide OfRank;
  }

  lemma {:induction false} ReverseOfRank(marks: seq<Mark>, rank: int)
    requires PlainMarks(marks)
    ensures OfRank(Reverse(marks), rank) == OfRank(marks, rank)
  {
    if marks == [] {
    } else {
      hide PlainMarks, OfRank;
      var front, last := marks[..|marks| - 1], marks[|marks| - 1];
      assert front + [last] == marks;
      PlainFront(front, last);
      ReverseOfRank(front, rank);
      OfRankConcat([last], Reverse(front), rank);
      OfRankConcat(front, [last], rank);
      LastCommutes(front, last, rank);
    }
  }

  lemma OfRankOne(m: Mark, rank: int)
    ensures OfRank([m], rank) == if Rank(m.kind) == rank then [m] else []
  {
    assert [m][..0] == [];
  }

  lemma {:induction false} ReverseHas(marks: seq<Mark>)
    ensures forall i :: 0 <= i < |marks| ==> Reverse(marks)[i] in marks
  {
    if marks == [] {
    } else {
      ReverseHas(marks[..|marks| - 1]);
    }
  }

  /** Marks printed innermost first and read outermost first come back in their own order. */
  lemma ReverseNormalizes(marks: seq<Mark>)
    requires NormalizeMarks(marks) == marks && PlainMarks(marks)
    ensures NormalizeMarks(Reverse(marks)) == marks
  {
    NormalizeMarksIsProjection(marks);
    ReverseHas(marks);
    hide NormalizeMark, PlainMarks, SortMarks, OfRank, Reverse, NormalizeEach, Rank;
    var back := Reverse(marks);
    forall i | 0 <= i < |back| ensures NormalizeMark(back[i]) == Some(back[i]) {
      assert back[i] in marks;
    }
    NormalizeEachOfNormal(back);
    forall rank: int ensures OfRank(SortMarks(back), rank) == OfRank(marks, rank) {
      SortMarksIsStableSort(back, rank);
      ReverseOfRank(marks, rank);
    }
    SortMarksIsStableSort(back, 0);
    StableSortIsUnique(SortMarks(back), marks);
  }

  /** The element printed for a plain normal mark reads back as that mark. */
  lemma WrapOneReads(nodes: seq<Node>, m: Mark, marks: seq<Mark>)
    requires PlainAsHtml(m) && NormalizeMark(m) == Some(m)
    ensures ParseInlines(WrapOne(nodes, m), marks) == ParseInlines(nodes, marks + [m])
  {
    MarkReads(nodes, m);
    var e := WrapOne(nodes, m)[0];
    hide WrapOne, TagToMark, PlainAsHtml, NormalizeMark;
    assert [e][1..] == [];
    assert ParseInlines([e], marks) == ParseInline(e, marks) + [];
  }

  lemma MarkReads(nodes: seq<Node>, m: Mark)
    requires PlainAsHtml(m) && NormalizeMark(m) == Some(m)
    ensures var r := WrapOne(nodes, m);
            |r| == 1 && r[0].Element? && !r[0].tag.Br? && r[0].children == nodes
            && TagToMark(r[0].tag, r[0].attrs) == Some(m)
  {
    if m.kind.Link? { LinkReads(nodes, m); }
    hide SanitizeAbsoluteHref, LinkAttrs, NormalizeMark;
  }

  lemma LinkReads(nodes: seq<Node>, m: Mark)
    requires m.kind.Link? && PlainAsHtml(m) && NormalizeMark(m) == Some(m)
    ensures var href := SanitizeAbsoluteHref(OrEmpty(m.href));
            href != [] && TagToMark(H.A, LinkAttrs(href, OrEmpty(m.title))) == Some(m)
  {
    SanitizeHrefIsProjection(OrEmpty(m.href));
    hide SanitizeAbsoluteHref;
  }

  lemma {:induction false} WrapReads(text: Str, ms: seq<Mark>, marks: seq<Mark>)
    requires text != [] && EachNormal(ms) && forall i :: 0 <= i < |ms| ==> PlainAsHtml(ms[i])
    ensures ParseInlines(Wrap(TextNodes(text), ms), marks) == [Inline(text, NormalizeMarks(marks + Reverse(ms)))]
  {
    hide PlainAsHtml, NormalizeMark, NormalizeMarks, WrapOne;
    if ms == [] {
      assert marks + Reverse(ms) == marks;
      assert TextNodes(text)[1..] == [];
    } else {
      var front, last := ms[..|ms| - 1], ms[|ms| - 1];
      WrapOneReads(Wrap(TextNodes(text), front), last, marks);
      WrapReads(text, front, marks + [last]);
      assert marks + [last] + Reverse(front) == marks + Reverse(ms);
    }
  }

  lemma {:induction false} ParseInlinesConcat(a: seq<Node>, b: seq<Node>, marks: seq<Mark>)
    ensures ParseInlines(a + b, marks) == ParseInlines(a, marks) + ParseInlines(b, marks)
  {
    if a == [] {
      assert a + b == b;
    } else {
      assert (a + b)[0] == a[0] && (a + b)[1..] == a[1..] + b;
      ParseInlinesConcat(a[1..], b, marks);
    }
  }

  lemma InlineReads(node: Inline)
    requires node.text != [] && NormalizeMarks(node.marks) == node.marks && PlainMarks(node.marks)
    ensures ParseInlines(PrintInline(node), []) == [node]
  {
    NormalizeMarksIsProjection(node.marks);
    ReverseNormalizes(node.marks);
    hide NormalizeMarks, Reverse;
    WrapReads(node.text, node.marks, []);
    assert [] + Reverse(node.marks) == Reverse(node.marks);
  }

  lemma {:induction false} InlinesRead(nodes: seq<Inline>)
    requires forall i :: 0 <= i < |nodes| ==> nodes[i].text != [] && NormalizeMarks(nodes[i].marks) == nodes[i].marks
    requires PlainInlines(nodes)
    ensures ParseInlines(PrintInlines(nodes), []) == nodes
  {
    if nodes == [] {
    } else {
      InlineReads(nodes[0]);
      InlinesRead(nodes[1..]);
      ParseInlinesConcat(PrintInline(nodes[0]), PrintInlines(nodes[1..]), []);
    }
  }

  lemma ChildrenRead(nodes: seq<Inline>)
    requires NormalizeInline(nodes) == nodes && PlainInlines(nodes)
    ensures ParseChildren(PrintInlines(nodes)) == nodes
  {
    NormalizeInlineIsNormal(nodes);
    InlinesRead(nodes);
  }

  lemma {:induction false} ItemsRead(items: seq<Block>)
    requires forall i :: 0 <= i < |items| ==> items[i].ListItem? && PlainInlines(items[i].children)
    requires forall i :: 0 <= i < |items| ==> NormalizeInline(items[i].children) == items[i].children
    ensures ParseItems(PrintItems(items)) == items
  {
    if items == [] {
    } else {
      ChildrenRead(items[0].children);
      ItemsRead(items[1..]);
      hide NormalizeInline;
      var r := PrintItems(items);
      assert r[1..] == PrintItems(items[1..]);
    }
  }

  lemma CodeReads(text: Str)
    ensures TextContent(H.Element(H.Pre, map[], [H.Element(H.Code, map[], TextNodes(text))])) == text
  {
    var code := H.Element(H.Code, map[], TextNodes(text));
    assert TextNodes(text) != [] ==> TextNodes(text)[1..] == [];
    assert TextContents(TextNodes(text)) == text;
    assert [code][1..] == [];
    assert TextContents([code]) == TextContent(code) + [];
  }

  lemma NormalItems(ordered: bool, items: seq<Block>)
    requires NormalizeBlock(List(ordered, items)) == List(ordered, items)
    ensures forall i :: 0 <= i < |items| && items[i].ListItem? ==> NormalizeInline(items[i].children) == items[i].children
  {
    hide NormalizeInline, OnlyItems;
    forall i | 0 <= i < |items| && items[i].ListItem? ensures NormalizeInline(items[i].children) == items[i].children {
      assert items[i] in NormalizeBlocks(items);
      var j :| 0 <= j < |items| && items[i] == NormalizeBlock(items[j]);
      NormalizeBlockIsProjection(items[j]);
    }
  }

  lemma BlockReads(b: Block)
    requires Representable(b) && NormalizeBlock(b) == b
    ensures |PrintBlock(b)| == 1 && ParseBlock(PrintBlock(b)[0]) == Some(b)
  {
    hide ParseChildren, ParseItems, PrintInlines, PrintItems, OnlyItems, NormalizeBlocks, TextContent, NormalizeInline;
    match b {
      case Paragraph(children) => ChildrenRead(children);
      case Blockquote(children) => ChildrenRead(children);
      case CodeBlock(text, _) => CodeReads(text);
      case List(ordered, items) =>
        NormalItems(ordered, items);
        ItemsRead(items);
      case _ =>
    }
  }

  lemma {:induction false} BlocksRead(blocks: seq<Block>)
    requires AllRepresentable(blocks) && forall i :: 0 <= i < |blocks| ==> NormalizeBlock(blocks[i]) == blocks[i]
    ensures |PrintBlocks(blocks)| == |blocks|
    ensures forall i :: 0 <= i < |blocks| ==> PrintBlock(blocks[i]) == [PrintBlocks(blocks)[i]]
    ensures CollectBlocks(PrintBlocks(blocks), []) == blocks
  {
    hide Representable, NormalizeBlock, ParseBlock, PrintBlock;
    if blocks == [] {
    } else {
      BlockReads(blocks[0]);
      BlocksRead(blocks[1..]);
      assert PrintBlocks(blocks)[1..] == PrintBlocks(blocks[1..]);
    }
  }

  /** Printed and parsed back, a normalized representable document is the same document. */
  lemma {:induction false} RoundTrip(blocks: seq<Block>)
    requires Normalized(blocks) && AllRepresentable(blocks)
    ensures ParseBlocks(H.SanitizeAll(H.TextOnly, PrintBlocks(blocks))) == blocks
  {
    PrintedTreeIsLeftAlone(blocks);
    BlocksRead(blocks);
  }

  // ---------------------------------------------------------------- the printed document

  predicate IsLineBreak(b: Block) {
    b.LineBreak?
  }

  lemma BreaksMatch(b: Block)
    requires Representable(b)
    ensures |PrintBlock(b)| == 1 && (IsBreak(PrintBlock(b)[0]) <==> IsLineBreak(b))
  {
    hide PrintInlines, PrintItems;
  }

  lemma {:induction false} PrintBlocksShape(blocks: seq<Block>)
    requires AllRepresentable(blocks)
    ensures |PrintBlocks(blocks)| == |blocks|
    ensures forall i :: 0 <= i < |blocks| ==> PrintBlock(blocks[i]) == [PrintBlocks(blocks)[i]]
  {
    hide Representable, PrintBlock, IsBreak;
    if blocks == [] {
    } else {
      BreaksMatch(blocks[0]);
      PrintBlocksShape(blocks[1..]);
    }
  }

  lemma PlainMarkIsValid(m: Mark)
    requires PlainAsHtml(m) && NormalizeMark(m) == Some(m)
    ensures ValidMark(m)
  {
    NormalMarkIsValidIff(m);
  }

  lemma NormalPlainChildrenAreValid(nodes: seq<Inline>)
    requires NormalizeInline(nodes) == nodes && PlainInlines(nodes)
    ensures ValidChildren(nodes)
  {
    NormalizeInlineIsNormal(nodes);
    hide NormalizeInline, PlainAsHtml, NormalizeMark, ValidMark, OfRank;
    forall i, j | 0 <= i < |nodes| && 0 <= j < |nodes[i].marks| ensures ValidMark(nodes[i].marks[j]) {
      NormalizeMarksIsProjection(nodes[i].marks);
      assert PlainMarks(nodes[i].marks);
      PlainMarkIsValid(nodes[i].marks[j]);
    }
  }

  lemma {:induction false} RepresentableIsValid(blocks: seq<Block>)
    requires Normalized(blocks) && AllRepresentable(blocks)
    ensures IsRichTextDocument(blocks)
  {
    hide PlainInlines, ValidChildren, NormalizeInline, OnlyItems;
    forall i | 0 <= i < |blocks| ensures ValidBlock(blocks[i]) {
      var b := blocks[i];
      assert NormalizeBlock(b) == b && Representable(b);
      match b {
        case Paragraph(children) => NormalPlainChildrenAreValid(children);
        case Blockquote(children) => NormalPlainChildrenAreValid(children);
        case List(ordered, items) =>
          NormalItems(ordered, items);
          forall j | 0 <= j < |items| ensures ValidChildren(items[j].children) {
            NormalPlainChildrenAreValid(items[j].children);
          }
        case _ =>
      }
    }
  }

  // ---------------------------------------------------------------- the printed tree is one a parser can return

  /**
   No empty text, no two texts side by side, no link inside a link: such a tree survives being written
   as a string and parsed.
   */
  ghost predicate Settled(node: Node, inside: bool)
    decreases node, 1
  {
    match node
    case Text(data) => data != []
    case Element(tag, _, children) => !(inside && tag.A?) && AllSettled(children, inside || tag.A?)
    case _ => true
  }

  ghost predicate AllSettled(nodes: seq<Node>, inside: bool)
    decreases nodes, 0
  {
    || nodes == []
    || (&& Settled(nodes[0], inside) && AllSettled(nodes[1..], inside)
        && (|nodes| > 1 ==> !(nodes[0].Text? && nodes[1].Text?)))
  }

  lemma OneIsSettled(node: Node, inside: bool)
    requires Settled(node, inside)
    ensures AllSettled([node], inside)
  {
    assert [node][1..] == [];
  }

  lemma {:induction false} WrapIsSettled(text: Str, ms: seq<Mark>, inside: bool)
    requires text != [] && EachNormal(ms) && forall i :: 0 <= i < |ms| ==> PlainAsHtml(ms[i])
    requires |OfRank(ms, Rank(Link))| <= if inside then 0 else 1
    ensures var r := Wrap(TextNodes(text), ms);
            |r| == 1 && (r[0].Text? <==> ms == []) && Settled(r[0], inside)
  {
    hide PlainAsHtml, NormalizeMark, WrapOne;
    if ms == [] {
    } else {
      var front, last := ms[..|ms| - 1], ms[|ms| - 1];
      WrapIsSettled(text, front, inside || last.kind.Link?);
      MarkSettles(Wrap(TextNodes(text), front), last, inside);
    }
  }

  lemma MarkSettles(inner: seq<Node>, m: Mark, inside: bool)
    requires PlainAsHtml(m) && NormalizeMark(m) == Some(m) && !(inside && m.kind.Link?)
    requires |inner| == 1 && Settled(inner[0], inside || m.kind.Link?)
    ensures var r := WrapOne(inner, m); |r| == 1 && r[0].Element? && Settled(r[0], inside)
  {
    MarkReads(inner, m);
    TagOfMark(inner, m);
    OneIsSettled(inner[0], inside || m.kind.Link?);
    hide WrapOne, PlainAsHtml, NormalizeMark;
    assert inner == [inner[0]];
  }

  lemma TagOfMark(inner: seq<Node>, m: Mark)
    requires PlainAsHtml(m) && NormalizeMark(m) == Some(m)
    ensures var r := WrapOne(inner, m); |r| == 1 && r[0].Element? && (r[0].tag.A? <==> m.kind.Link?)
  {
    hide SanitizeAbsoluteHref;
  }

  lemma InlineIsSettled(node: Inline)
    requires node.text != [] && NormalizeMarks(node.marks) == node.marks && PlainMarks(node.marks)
    ensures var r := PrintInline(node);
            |r| == 1 && (r[0].Text? <==> node.marks == []) && Settled(r[0], false)
  {
    NormalizeMarksIsProjection(node.marks);
    WrapIsSettled(node.text, node.marks, false);
  }

  lemma SettledCons(head: Node, rest: seq<Node>)
    requires Settled(head, false) && AllSettled(rest, false) && (rest != [] ==> !(head.Text? && rest[0].Text?))
    ensures AllSettled([head] + rest, false)
  {
    hide Settled;
    assert ([head] + rest)[1..] == rest;
  }

  lemma NormalTail(nodes: seq<Inline>)
    requires NormalInline(nodes) && PlainInlines(nodes) && nodes != []
    ensures NormalInline(nodes[1..]) && PlainInlines(nodes[1..])
    ensures nodes[0].text != [] && NormalizeMarks(nodes[0].marks) == nodes[0].marks && PlainMarks(nodes[0].marks)
    ensures |nodes| > 1 ==> nodes[0].marks != nodes[1].marks
  {
    hide NormalizeMarks, PlainMarks;
  }

  lemma {:induction false} InlinesAreSettled(nodes: seq<Inline>)
    requires NormalInline(nodes) && PlainInlines(nodes)
    ensures AllSettled(PrintInlines(nodes), false)
    ensures nodes != [] ==> PrintInlines(nodes) != [] && (PrintInlines(nodes)[0].Text? <==> nodes[0].marks == [])
  {
    if nodes == [] {
    } else {
      hide PrintInline, Settled, AllSettled, NormalizeMarks, PlainMarks, NormalInline, PlainInlines;
      NormalTail(nodes);
      InlineIsSettled(nodes[0]);
      InlinesAreSettled(nodes[1..]);
      var head := PrintInline(nodes[0])[0];
      assert PrintInline(nodes[0]) == [head];
      SettledCons(head, PrintInlines(nodes[1..]));
    }
  }

  lemma {:induction false} ElementsAreSettled(nodes: seq<Node>)
    requires forall i :: 0 <= i < |nodes| ==> nodes[i].Element? && Settled(nodes[i], false)
    ensures AllSettled(nodes, false)
  {
    if nodes == [] {
    } else {
      ElementsAreSettled(nodes[1..]);
    }
  }

  lemma ChildrenAreSettled(tag: H.Tag, nodes: seq<Inline>)
    requires NormalizeInline(nodes) == nodes && PlainInlines(nodes) && !tag.A?
    ensures Settled(H.Element(tag, map[], PrintInlines(nodes)), false)
  {
    NormalizeInlineIsNormal(nodes);
    InlinesAreSettled(nodes);
  }

  lemma {:induction false} BlockIsSettled(b: Block)
    requires Representable(b) && NormalizeBlock(b) == b
    ensures forall i :: 0 <= i < |PrintBlock(b)| ==> PrintBlock(b)[i].Element? && Settled(PrintBlock(b)[i], false)
  {
    hide PlainInlines, PrintInlines, NormalizeInline, OnlyItems, NormalizeBlocks;
    match b {
      case Paragraph(children) => ChildrenAreSettled(H.P, children);
      case Blockquote(children) => ChildrenAreSettled(H.Blockquote, children);
      case CodeBlock(text, _) =>
        if text != [] { OneIsSettled(H.Text(text), false); }
        OneIsSettled(H.Element(H.Code, map[], TextNodes(text)), false);
      case List(ordered, items) =>
        NormalItems(ordered, items);
        forall i | 0 <= i < |items| ensures Settled(PrintItem(items[i]), false) {
          ChildrenAreSettled(H.Li, items[i].children);
        }
        ElementsAreSettled(PrintItems(items));
      case _ =>
    }
  }

  lemma {:induction false} PrintedTreeIsSettled(blocks: seq<Block>)
    requires Normalized(blocks) && AllRepresentable(blocks)
    ensures AllSettled(PrintBlocks(blocks), false)
  {
    PrintBlocksShape(blocks);
    var nodes := PrintBlocks(blocks);
    hide PrintBlocks, PrintBlock, Representable, NormalizeBlock;
    forall i | 0 <= i < |nodes| ensures nodes[i].Element? && Settled(nodes[i], false) {
      BlockIsSettled(blocks[i]);
      assert PrintBlock(blocks[i])[0] == nodes[i];
    }
    ElementsAreSettled(nodes);
  }

  // ---------------------------------------------------------------- what parsing yields

  /** No link inside a link, as an HTML parser guarantees. */
  ghost predicate NoNestedLinks(node: Node, inside: bool)
    decreases node, 1
  {
    node.Element? ==> !(inside && node.tag.A?) && NoNestedLinksIn(node.children, inside || node.tag.A?)
  }

  ghost predicate NoNestedLinksIn(nodes: seq<Node>, inside: bool)
    decreases nodes, 0
  {
    nodes == [] || (NoNestedLinks(nodes[0], inside) && NoNestedLinksIn(nodes[1..], inside))
  }

  /** The marks gathered on the way into the tree. */
  ghost predicate Gathered(marks: seq<Mark>, inside: bool) {
    && EachNormal(marks) && (forall i :: 0 <= i < |marks| ==> PlainAsHtml(marks[i]))
    && |OfRank(marks, Rank(Link))| <= if inside then 1 else 0
  }

  ghost predicate Read(node: Inline) {
    PlainMarks(node.marks) && NormalizeMarks(node.marks) == node.marks
  }

  ghost predicate AllRead(nodes: seq<Inline>) {
    forall i :: 0 <= i < |nodes| ==> Read(nodes[i])
  }

  lemma TagMarkIsPlain(tag: H.Tag, attrs: H.Attrs)
    ensures var r := TagToMark(tag, attrs);
            r.Some? ==> PlainAsHtml(r.value) && NormalizeMark(r.value) == r && (r.value.kind.Link? ==> tag.A?)
  {
    SanitizeHrefIsProjection(AttrOrEmpty(attrs, H.Href));
    hide SanitizeAbsoluteHref;
  }

  lemma GatherOne(marks: seq<Mark>, inside: bool, tag: H.Tag, attrs: H.Attrs)
    requires Gathered(marks, inside) && !(inside && tag.A?)
    ensures Gathered(marks, inside || tag.A?)
    ensures var r := TagToMark(tag, attrs); r.Some? ==> Gathered(marks + [r.value], inside || tag.A?)
  {
    TagMarkIsPlain(tag, attrs);
    var r := TagToMark(tag, attrs);
    hide PlainAsHtml, NormalizeMark, TagToMark;
    if r.Some? {
      OfRankConcat(marks, [r.value], Rank(Link));
      OfRankOne(r.value, Rank(Link));
    }
  }

  lemma {:induction false} GatheredReads(text: Str, marks: seq<Mark>, inside: bool)
    requires Gathered(marks, inside)
    ensures Read(Inline(text, NormalizeMarks(marks)))
  {
    NormalizeMarksIsProjection(marks);
    NormalizeEachOfNormal(marks);
    SortMarksIsStableSort(marks, Rank(Link));
    hide PlainAsHtml, NormalizeMark, NormalizeEach, SortMarks, OfRank;
    var sorted := SortMarks(marks);
    forall i | 0 <= i < |sorted| ensures PlainAsHtml(sorted[i]) {
      assert sorted[i] in multiset(sorted);
      assert sorted[i] in marks;
    }
  }

  lemma {:induction false} ParseReads(node: Node, marks: seq<Mark>, inside: bool)
    requires NoNestedLinks(node, inside) && Gathered(marks, inside)
    ensures AllRead(ParseInline(node, marks))
    decreases node, 1
  {
    hide Gathered, Read, TagToMark, NormalizeMarks;
    match node {
      case Text(data) => GatheredReads(data, marks, inside);
      case Element(tag, attrs, children) =>
        GatheredReads([NEWLINE], marks, inside);
        GatherOne(marks, inside, tag, attrs);
        var mark := TagToMark(tag, attrs);
        ParseAllReads(children, if mark.Some? then marks + [mark.value] else marks, inside || tag.A?);
      case _ =>
    }
  }

  lemma {:induction false} ParseAllReads(nodes: seq<Node>, marks: seq<Mark>, inside: bool)
    requires NoNestedLinksIn(nodes, inside) && Gathered(marks, inside)
    ensures AllRead(ParseInlines(nodes, marks))
    decreases nodes, 0
  {
    hide Gathered, Read;
    if nodes == [] {
    } else {
      ParseReads(nodes[0], marks, inside);
      ParseAllReads(nodes[1..], marks, inside);
    }
  }

  lemma AppendKeepsRead(acc: seq<Inline>, node: Inline)
    requires AllRead(acc) && Read(node)
    ensures AllRead(AppendNormalized(acc, node))
  {
    hide PlainMarks, NormalizeMarks;
  }

  lemma {:induction false} NormalizeKeepsRead(nodes: seq<Inline>)
    requires AllRead(nodes)
    ensures AllRead(NormalizeInline(nodes))
  {
    hide Read, AppendNormalized;
    if nodes == [] {
    } else {
      NormalizeKeepsRead(nodes[..|nodes| - 1]);
      AppendKeepsRead(NormalizeInline(nodes[..|nodes| - 1]), nodes[|nodes| - 1]);
    }
  }

  lemma {:induction false} NormalizedReads(nodes: seq<Inline>)
    requires AllRead(nodes)
    ensures PlainInlines(NormalizeInline(nodes)) && NormalizeInline(NormalizeInline(nodes)) == NormalizeInline(nodes)
  {
    NormalizeKeepsRead(nodes);
    NormalizeInlineIsNormal(nodes);
    NormalInlineIsFixed(NormalizeInline(nodes));
    hide NormalizeInline, PlainMarks, NormalizeMarks;
    forall i | 0 <= i < |NormalizeInline(nodes)| ensures PlainMarks(NormalizeInline(nodes)[i].marks) {
      assert Read(NormalizeInline(nodes)[i]);
    }
  }

  lemma NoMarksGathered()
    ensures Gathered([], false)
  {}

  /** A parsed block is normal and representable. */
  ghost predicate Canonical(b: Block) {
    NormalizeBlock(b) == b && Representable(b)
  }

  ghost predicate AllCanonical(blocks: seq<Block>) {
    forall i :: 0 <= i < |blocks| ==> Canonical(blocks[i])
  }

  lemma ChildrenAreRead(nodes: seq<Node>)
    requires NoNestedLinksIn(nodes, false)
    ensures PlainInlines(ParseChildren(nodes)) && NormalizeInline(ParseChildren(nodes)) == ParseChildren(nodes)
  {
    NoMarksGathered();
    ParseAllReads(nodes, [], false);
    NormalizedReads(ParseInlines(nodes, []));
  }

  ghost predicate CanonicalItem(b: Block) {
    b.ListItem? && PlainInlines(b.children) && NormalizeInline(b.children) == b.children
  }

  lemma {:induction false} ItemsAreCanonical(nodes: seq<Node>)
    requires NoNestedLinksIn(nodes, false)
    ensures forall i :: 0 <= i < |ParseItems(nodes)| ==> CanonicalItem(ParseItems(nodes)[i])
  {
    hide ParseChildren, PlainInlines, NormalizeInline;
    if nodes == [] {
    } else {
      if nodes[0].Element? && nodes[0].tag.Li? { ChildrenAreRead(nodes[0].children); }
      ItemsAreCanonical(nodes[1..]);
    }
  }

  lemma ListIsCanonical(ordered: bool, items: seq<Block>)
    requires forall i :: 0 <= i < |items| ==> CanonicalItem(items[i])
    ensures Canonical(List(ordered, items))
  {
    hide PlainInlines, NormalizeInline, OnlyItems;
    assert NormalizeBlocks(items) == items;
    OnlyItemsOfItems(items);
  }

  lemma ParsedBlockIsCanonical(node: Node)
    requires NoNestedLinks(node, false) && ParseBlock(node).Some?
    ensures Canonical(ParseBlock(node).value)
  {
    if node.tag.Ul? || node.tag.Ol? {
      ItemsAreCanonical(node.children);
      ListIsCanonical(node.tag.Ol?, ParseItems(node.children));
    } else if node.tag.P? || node.tag.Blockquote? {
      ChildrenAreRead(node.children);
    }
    hide ParseChildren, ParseItems, PlainInlines, NormalizeInline, OnlyItems, NormalizeBlocks, TextContent;
  }

  lemma {:induction false} FlushIsCanonical(buffer: seq<Inline>)
    requires AllRead(buffer)
    ensures AllCanonical(Flush(buffer))
  {
    NormalizedReads(buffer);
    hide PlainInlines, NormalizeInline;
  }

  lemma {:induction false} CollectedIsCanonical(nodes: seq<Node>, buffer: seq<Inline>)
    requires NoNestedLinksIn(nodes, false) && AllRead(buffer)
    ensures AllCanonical(CollectBlocks(nodes, buffer))
    decreases nodes
  {
    FlushIsCanonical(buffer);
    hide Canonical, Flush, ParseBlock, Read;
    if nodes == [] {
    } else {
      var b := ParseBlock(nodes[0]);
      if b.Some? {
        ParsedBlockIsCanonical(nodes[0]);
        CollectedIsCanonical(nodes[1..], []);
      } else {
        NoMarksGathered();
        ParseReads(nodes[0], [], false);
        CollectedIsCanonical(nodes[1..], buffer + ParseInline(nodes[0], []));
      }
    }
  }

  /**
   Whatever tree is imported, the document is normalized, valid and representable, so exporting and
   importing it again changes nothing.
   */
  lemma ImportIsStable(nodes: seq<Node>)
    requires NoNestedLinksIn(nodes, false)
    ensures var blocks := ParseBlocks(nodes);
            && Normalized(blocks) && AllRepresentable(blocks) && IsRichTextDocument(blocks)
            && ParseBlocks(H.SanitizeAll(H.TextOnly, PrintBlocks(blocks))) == blocks
  {
    CollectedIsCanonical(nodes, []);
    hide NormalizeBlock, Representable, CollectBlocks, ParseBlock, PrintBlock;
    var blocks := ParseBlocks(nodes);
    assert blocks == CollectBlocks(nodes, []);
    assert forall i :: 0 <= i < |blocks| ==> Canonical(blocks[i]);
    RepresentableIsValid(blocks);
    RoundTrip(blocks);
  }
}
