/** richTextToSafeHtml and htmlToRichText (app/richText.ts), through the string stage of the sanitizer. */
module SafeHtml {
  import opened Wrappers
  import opened JsStrings
  import opened RichText
  import opened RichTextPlain
  import opened NormalizeHtml
  import opened HtmlRichText
  import H = Html

  /** richTextToSafeHtml, as the tree an HTML parser makes of its result. */
  function RichTextToSafeHtml(blocks: seq<Block>): seq<H.Node> {
    if !IsRichTextDocument(blocks) then [] else SanitizeHtml(PrintBlocks(blocks))
  }

  /** htmlToRichText, from the tree of its argument. */
  function HtmlToRichText(nodes: seq<H.Node>): seq<Block> {
    ParseBlocks(SanitizeHtml(nodes))
  }

  // ---------------------------------------------------------------- documents with tidy links

  /** For a valid document the page is the printed tree, without the breaks at its ends, written and read once; an invalid one has none. */
  lemma SafeHtmlIsPrinted(blocks: seq<Block>)
    ensures RichTextToSafeHtml(blocks) ==
              if IsRichTextDocument(blocks) then Reread(Strip(TidyNodes(PrintBlocks(blocks)), IsBreak)) else []
  {
    PrintedTreeIsLeftAlone(blocks);
    hide PrintBlocks, Reread, Strip, TidyNodes;
  }

  lemma {:induction false} PrintedBreaksAreVoid(blocks: seq<Block>)
    ensures VoidBreaks(TidyNodes(PrintBlocks(blocks)))
  {
    if blocks == [] {
    } else {
      PrintedBreaksAreVoid(blocks[1..]);
      var first, rest := PrintBlock(blocks[0]), PrintBlocks(blocks[1..]);
      hide PrintBlock, PrintBlocks;
      assert |first| <= 1 && (first != [] && IsBreak(first[0]) ==> first[0].children == []) by { OneElement(blocks[0]); }
      if first == [] {
        assert [] + rest == rest;
      } else {
        assert (first + rest)[1..] == rest;
      }
    }
  }

  lemma OneElement(b: Block)
    ensures var nodes := PrintBlock(b); |nodes| <= 1 && (nodes != [] && IsBreak(nodes[0]) ==> nodes[0].children == [])
  {}

  /** No word of a valid document is lost on its page and none is added, whatever falls into which block there. */
  lemma SafeHtmlKeepsWords(blocks: seq<Block>)
    requires IsRichTextDocument(blocks)
    ensures H.VisibleTextAll(RichTextToSafeHtml(blocks)) == DocumentWords(blocks)
  {
    SafeHtmlIsPrinted(blocks);
    PrintKeepsWords(blocks);
    TidyKeepsText(PrintBlocks(blocks));
    PrintedBreaksAreVoid(blocks);
    StripKeepsText(TidyNodes(PrintBlocks(blocks)));
    RereadKeepsText(Strip(TidyNodes(PrintBlocks(blocks)), IsBreak));
  }

  predicate TidyMark(m: Mark) {
    Tidy(OrEmpty(m.href)) && Tidy(OrEmpty(m.title))
  }

  predicate TidyMarks(marks: seq<Mark>) {
    forall m :: m in marks ==> TidyMark(m)
  }

  predicate TidyInlines(nodes: seq<Inline>) {
    forall n :: n in nodes ==> TidyMarks(n.marks)
  }

  predicate TidyBlock(b: Block) {
    match b
    case Paragraph(children) => TidyInlines(children)
    case Blockquote(children) => TidyInlines(children)
    case ListItem(children) => TidyInlines(children)
    case List(_, items) => forall item :: item in items ==> TidyInlines(AsListItem(item).children)
    case _ => true
  }

  /** No href and no title spells a break tag in another way than `<br/>`. */
  predicate TidyLinks(blocks: seq<Block>) {
    forall b :: b in blocks ==> TidyBlock(b)
  }

  lemma NothingIsTidy()
    ensures Tidy([])
  {}

  lemma {:induction false} TrimStartIsTidy(s: Str)
    requires Tidy(s)
    ensures Tidy(TrimStart(s))
  {
    hide Tidy;
    if s == [] || !IsSpace(s[0]) {
    } else {
      TidyRest(s, 1);
      TrimStartIsTidy(s[1..]);
    }
  }

  lemma HrefIsTidy(value: Str)
    requires Tidy(value)
    ensures Tidy(SanitizeAbsoluteHref(value))
  {
    NothingIsTidy();
    TrimStartIsTidy(value);
    TidyPrefix(TrimStart(value), Trim(value));
    hide Tidy, SafeHref, HasScheme, TrimStart, TrimEnd;
  }

  lemma NormalMarkIsTidy(m: Mark)
    requires TidyMark(m) && NormalizeMark(m).Some?
    ensures TidyMark(NormalizeMark(m).value)
  {
    NothingIsTidy();
    HrefIsTidy(OrEmpty(m.href));
    hide Tidy, SanitizeAbsoluteHref;
  }

  lemma {:induction false} EachIsTidy(marks: seq<Mark>)
    requires TidyMarks(marks)
    ensures TidyMarks(NormalizeEach(marks))
  {
    hide TidyMark, NormalizeMark;
    if marks == [] {
    } else {
      assert TidyMark(marks[0]);
      if NormalizeMark(marks[0]).Some? { NormalMarkIsTidy(marks[0]); }
      EachIsTidy(marks[1..]);
    }
  }

  lemma NormalMarksAreTidy(marks: seq<Mark>)
    requires TidyMarks(marks)
    ensures TidyMarks(NormalizeMarks(marks))
  {
    EachIsTidy(marks);
    SortMarksIsStableSort(NormalizeEach(marks), 0);
    hide TidyMark, NormalizeEach, SortMarks, OfRank;
    forall m | m in NormalizeMarks(marks) ensures TidyMark(m) {
      assert m in multiset(NormalizeMarks(marks));
    }
  }

  // ---------------------------------------------------------------- tidy documents print tidy trees

  lemma ElementIsTidy(tag: H.Tag, attrs: H.Attrs, nodes: seq<H.Node>)
    requires AllTidy(nodes) && forall name :: name in attrs ==> Tidy(attrs[name])
    ensures TidyTags(H.Element(tag, attrs, nodes))
  {}

  lemma WrapOneIsTidy(nodes: seq<H.Node>, m: Mark)
    requires AllTidy(nodes) && TidyMark(m)
    ensures AllTidy(WrapOne(nodes, m))
  {
    HrefIsTidy(OrEmpty(m.href));
    hide Tidy, SanitizeAbsoluteHref;
    var r := WrapOne(nodes, m);
    if r != nodes {
      assert r == [H.Element(r[0].tag, r[0].attrs, nodes)] && forall name :: name in r[0].attrs ==> Tidy(r[0].attrs[name]);
      hide TidyTags, WrapOne;
      ElementIsTidy(r[0].tag, r[0].attrs, nodes);
    }
  }

  lemma {:induction false} WrapIsTidy(nodes: seq<H.Node>, marks: seq<Mark>)
    requires AllTidy(nodes) && TidyMarks(marks)
    ensures AllTidy(Wrap(nodes, marks))
  {
    hide AllTidy, TidyMark, WrapOne;
    if marks == [] {
    } else {
      var front, last := marks[..|marks| - 1], marks[|marks| - 1];
      assert TidyMarks(front) && TidyMark(last);
      WrapIsTidy(nodes, front);
      WrapOneIsTidy(Wrap(nodes, front), last);
    }
  }

  lemma {:induction false} PrintedInlinesAreTidy(nodes: seq<Inline>)
    requires TidyInlines(nodes)
    ensures AllTidy(PrintInlines(nodes))
  {
    hide TidyMarks, TidyTags, Wrap, NormalizeMarks;
    if nodes == [] {
    } else {
      assert TidyMarks(nodes[0].marks);
      NormalMarksAreTidy(nodes[0].marks);
      TextIsTidy(nodes[0].text);
      WrapIsTidy(TextNodes(nodes[0].text), NormalizeMarks(nodes[0].marks));
      PrintedInlinesAreTidy(nodes[1..]);
    }
  }

  lemma TextIsTidy(text: Str)
    ensures AllTidy(TextNodes(text))
  {}

  lemma {:induction false} PrintedBlockIsTidy(b: Block)
    requires TidyBlock(b)
    ensures AllTidy(PrintBlock(b))
  {
    hide AllTidy, TidyInlines, PrintInlines, TidyTags;
    match b {
      case Paragraph(children) => PrintedInlinesAreTidy(children); ElementIsTidy(H.P, map[], PrintInlines(children));
      case Blockquote(children) => PrintedInlinesAreTidy(children); ElementIsTidy(H.Blockquote, map[], PrintInlines(children));
      case ListItem(children) => PrintedInlinesAreTidy(children); ElementIsTidy(H.Li, map[], PrintInlines(children));
      case CodeBlock(text, _) =>
        TextIsTidy(text);
        ElementIsTidy(H.Code, map[], TextNodes(text));
        OneIsTidy(H.Element(H.Code, map[], TextNodes(text)));
        ElementIsTidy(H.Pre, map[], [H.Element(H.Code, map[], TextNodes(text))]);
      case List(ordered, items) =>
        forall i | 0 <= i < |items| ensures TidyTags(PrintItem(items[i])) {
          PrintedInlinesAreTidy(AsListItem(items[i]).children);
          ElementIsTidy(H.Li, map[], PrintInlines(AsListItem(items[i]).children));
        }
        EachTidy(PrintItems(items));
        ElementIsTidy(if ordered then H.Ol else H.Ul, map[], PrintItems(items));
      case LineBreak => EachTidy([]); ElementIsTidy(H.Br, map[], []);
      case _ =>
    }
    EachTidy(PrintBlock(b));
  }

  lemma OneIsTidy(node: H.Node)
    requires TidyTags(node)
    ensures AllTidy([node])
  {}

  lemma EachTidy(nodes: seq<H.Node>)
    requires forall i :: 0 <= i < |nodes| ==> TidyTags(nodes[i])
    ensures AllTidy(nodes)
  {}

  lemma {:induction false} PrintedTreeIsTidy(blocks: seq<Block>)
    requires TidyLinks(blocks)
    ensures AllTidy(PrintBlocks(blocks))
  {
    hide TidyBlock, PrintBlock, TidyTags;
    if blocks == [] {
    } else {
      PrintedBlockIsTidy(blocks[0]);
      PrintedTreeIsTidy(blocks[1..]);
    }
  }

  // ---------------------------------------------------------------- tidy trees are read as tidy documents

  lemma TagMarkIsTidy(tag: H.Tag, attrs: H.Attrs)
    requires forall name :: name in attrs ==> Tidy(attrs[name])
    ensures var r := TagToMark(tag, attrs); r.Some? ==> TidyMark(r.value)
  {
    NothingIsTidy();
    HrefIsTidy(AttrOrEmpty(attrs, H.Href));
    hide Tidy, SanitizeAbsoluteHref;
  }

  lemma {:induction false} ReadInlineIsTidy(node: H.Node, marks: seq<Mark>)
    requires TidyTags(node) && TidyMarks(marks)
    ensures TidyInlines(ParseInline(node, marks))
    decreases node, 1
  {
    NormalMarksAreTidy(marks);
    hide TidyMark, NormalizeMarks, TagToMark, Tidy;
    if node.Element? {
      TagMarkIsTidy(node.tag, node.attrs);
      var mark := TagToMark(node.tag, node.attrs);
      ReadInlinesAreTidy(node.children, if mark.Some? then marks + [mark.value] else marks);
    }
  }

  lemma {:induction false} ReadInlinesAreTidy(nodes: seq<H.Node>, marks: seq<Mark>)
    requires AllTidy(nodes) && TidyMarks(marks)
    ensures TidyInlines(ParseInlines(nodes, marks))
    decreases nodes, 0
  {
    hide TidyMarks, TidyTags, ParseInline;
    if nodes == [] {
    } else {
      ReadInlineIsTidy(nodes[0], marks);
      ReadInlinesAreTidy(nodes[1..], marks);
    }
  }

  lemma AppendKeepsTidy(acc: seq<Inline>, node: Inline)
    requires TidyInlines(acc) && TidyMarks(node.marks)
    ensures TidyInlines(AppendNormalized(acc, node))
  {
    NormalMarksAreTidy(node.marks);
    hide TidyMarks, NormalizeMarks;
  }

  lemma {:induction false} NormalInlinesAreTidy(nodes: seq<Inline>)
    requires TidyInlines(nodes)
    ensures TidyInlines(NormalizeInline(nodes))
  {
    hide TidyMarks, AppendNormalized;
    if nodes == [] {
    } else {
      NormalInlinesAreTidy(nodes[..|nodes| - 1]);
      AppendKeepsTidy(NormalizeInline(nodes[..|nodes| - 1]), nodes[|nodes| - 1]);
    }
  }

  lemma ReadChildrenAreTidy(nodes: seq<H.Node>)
    requires AllTidy(nodes)
    ensures TidyInlines(ParseChildren(nodes))
  {
    ReadInlinesAreTidy(nodes, []);
    NormalInlinesAreTidy(ParseInlines(nodes, []));
  }

  predicate TidyItems(items: seq<Block>) {
    forall item :: item in items ==> item.ListItem? && TidyInlines(item.children)
  }

  lemma {:induction false} ReadItemsAreTidy(nodes: seq<H.Node>)
    requires AllTidy(nodes)
    ensures TidyItems(ParseItems(nodes))
  {
    hide TidyInlines, ParseChildren;
    if nodes == [] {
    } else {
      assert TidyTags(nodes[0]);
      if nodes[0].Element? && nodes[0].tag.Li? { ReadChildrenAreTidy(nodes[0].children); }
      ReadItemsAreTidy(nodes[1..]);
    }
  }

  lemma ReadBlockIsTidy(node: H.Node)
    requires TidyTags(node) && ParseBlock(node).Some?
    ensures TidyBlock(ParseBlock(node).value)
  {
    ReadChildrenAreTidy(node.children);
    ReadItemsAreTidy(node.children);
    hide TidyInlines, ParseChildren, ParseItems, TextContent;
  }

  lemma {:induction false} CollectedBlocksAreTidy(nodes: seq<H.Node>, buffer: seq<Inline>)
    requires AllTidy(nodes) && TidyInlines(buffer)
    ensures TidyLinks(CollectBlocks(nodes, buffer))
    decreases nodes
  {
    NormalInlinesAreTidy(buffer);
    hide TidyMarks, TidyTags, ParseBlock, ParseInline, NormalizeInline;
    if nodes == [] {
    } else {
      assert TidyTags(nodes[0]);
      var b := ParseBlock(nodes[0]);
      if b.Some? {
        ReadBlockIsTidy(nodes[0]);
        CollectedBlocksAreTidy(nodes[1..], []);
      } else {
        NoMarksAreTidy();
        ReadInlineIsTidy(nodes[0], []);
        CollectedBlocksAreTidy(nodes[1..], buffer + ParseInline(nodes[0], []));
      }
    }
  }

  lemma NoMarksAreTidy()
    ensures TidyMarks([])
  {}

  lemma {:induction false} NormalBlockIsTidy(b: Block)
    requires TidyBlock(b)
    ensures TidyBlock(NormalizeBlock(b))
  {
    hide TidyInlines, NormalizeInline;
    match b {
      case Paragraph(children) => NormalInlinesAreTidy(children);
      case Blockquote(children) => NormalInlinesAreTidy(children);
      case ListItem(children) => NormalInlinesAreTidy(children);
      case List(_, items) =>
        forall i | 0 <= i < |items| && NormalizeBlock(items[i]).ListItem?
          ensures TidyInlines(NormalizeBlock(items[i]).children)
        {
          assert items[i] in items;
          NormalInlinesAreTidy(items[i].children);
        }
      case _ =>
    }
  }

  lemma ReadDocumentIsTidy(nodes: seq<H.Node>)
    requires AllTidy(nodes)
    ensures TidyLinks(ParseBlocks(nodes))
  {
    NoInlinesAreTidy();
    CollectedBlocksAreTidy(nodes, []);
    var collected := CollectBlocks(nodes, []);
    hide TidyBlock, NormalizeBlock, CollectBlocks;
    forall b | b in NormalizeBlocks(collected) ensures TidyBlock(b) {
      var i :| 0 <= i < |collected| && b == NormalizeBlock(collected[i]);
      assert TidyBlock(collected[i]);
      NormalBlockIsTidy(collected[i]);
    }
  }

  lemma NoInlinesAreTidy()
    ensures TidyInlines([])
  {}

  // ---------------------------------------------------------------- blocks that do not close

  /** Written self-closed and left open by the parser. */
  predicate Unclosed(b: Block) {
    (b.Blockquote? && b.children == []) || (b.List? && b.items == [])
  }

  /** No block falls into the one in front of it. */
  predicate Uncut(blocks: seq<Block>) {
    forall i :: 0 <= i < |blocks| - 1 ==>
      !Unclosed(blocks[i]) && !(blocks[i] == Paragraph([]) && blocks[i + 1].LineBreak?)
  }

  /** An element of running text, a list item or a code block: nothing in it stays open. */
  ghost predicate Shuts(node: H.Node)
    decreases node
  {
    node.Element? ==> !(node.tag.P? || node.tag.Blockquote? || node.tag.Ul? || node.tag.Ol?)
                      && forall c :: c in node.children ==> Shuts(c)
  }

  ghost predicate AllShut(nodes: seq<H.Node>) {
    forall n :: n in nodes ==> Shuts(n)
  }

  lemma {:induction false} ShutIsClosed(nodes: seq<H.Node>)
    requires AllShut(nodes)
    ensures Closed(nodes)
    decreases nodes
  {
    if nodes == [] {
    } else {
      assert Shuts(nodes[0]);
      if nodes[0].Element? { ShutIsClosed(nodes[0].children); }
      ShutIsClosed(nodes[1..]);
    }
  }

  lemma {:induction false} WrapShuts(nodes: seq<H.Node>, marks: seq<Mark>)
    requires AllShut(nodes)
    ensures AllShut(Wrap(nodes, marks))
  {
    hide SanitizeAbsoluteHref;
    if marks == [] {
    } else {
      WrapShuts(nodes, marks[..|marks| - 1]);
    }
  }

  lemma {:induction false} PrintedInlinesShut(nodes: seq<Inline>)
    ensures AllShut(PrintInlines(nodes))
  {
    hide Wrap, NormalizeMarks;
    if nodes == [] {
    } else {
      WrapShuts(TextNodes(nodes[0].text), NormalizeMarks(nodes[0].marks));
      PrintedInlinesShut(nodes[1..]);
    }
  }

  lemma PrintedItemsShut(items: seq<Block>)
    ensures AllShut(PrintItems(items))
  {
    forall i | 0 <= i < |items| ensures Shuts(PrintItem(items[i])) {
      PrintedInlinesShut(AsListItem(items[i]).children);
      hide PrintInlines;
    }
  }

  lemma PrintsSome(nodes: seq<Inline>)
    requires NormalizeInline(nodes) == nodes && PlainInlines(nodes)
    ensures PrintInlines(nodes) == [] <==> nodes == []
  {
    NormalizeInlineIsNormal(nodes);
    InlinesAreSettled(nodes);
    hide NormalizeInline, PlainInlines;
  }

  /** How a printed block ends is decided by whether it is empty. */
  lemma {:induction false} BlockShuts(b: Block)
    requires Representable(b) && NormalizeBlock(b) == b
    ensures var r := PrintBlock(b);
            && |r| == 1 && r[0].Element? && Closed(r[0].children)
            && (StaysOpen(r[0]) <==> Unclosed(b)) && (OpenParagraph(r[0]) <==> b == Paragraph([]))
            && (InParagraph(r[0]) <==> b.LineBreak?)
  {
    hide AllShut, Closed, PlainInlines, NormalizeInline, PrintInlines, OnlyItems, NormalizeBlocks;
    match b {
      case Paragraph(children) => PrintsSome(children); PrintedInlinesShut(children); ShutIsClosed(PrintInlines(children));
      case Blockquote(children) => PrintsSome(children); PrintedInlinesShut(children); ShutIsClosed(PrintInlines(children));
      case CodeBlock(text, _) => CodeShuts(text); ShutIsClosed([H.Element(H.Code, map[], TextNodes(text))]);
      case List(ordered, items) => PrintedItemsShut(items); ShutIsClosed(PrintItems(items));
      case LineBreak => NothingIsClosed();
      case _ =>
    }
  }

  lemma CodeShuts(text: Str)
    ensures AllShut([H.Element(H.Code, map[], TextNodes(text))])
  {}

  lemma UncutCons(b: Block, rest: seq<Block>)
    ensures Uncut([b] + rest) <==>
            Uncut(rest) && (rest != [] ==> !Unclosed(b) && !(b == Paragraph([]) && rest[0].LineBreak?))
  {
    var blocks := [b] + rest;
    hide Unclosed;
    if Uncut(blocks) {
      forall i | 0 <= i < |rest| - 1
        ensures !Unclosed(rest[i]) && !(rest[i] == Paragraph([]) && rest[i + 1].LineBreak?)
      {
        assert blocks[i + 1] == rest[i] && blocks[i + 2] == rest[i + 1];
      }
      if rest != [] { assert blocks[0] == b && blocks[1] == rest[0]; }
    }
  }

  /** The parser sees the printed blocks again exactly when none falls into another; otherwise it sees fewer. */
  lemma {:induction false} RereadBlocks(blocks: seq<Block>)
    requires AllRepresentable(blocks) && forall i :: 0 <= i < |blocks| ==> NormalizeBlock(blocks[i]) == blocks[i]
    ensures |PrintBlocks(blocks)| == |blocks|
    ensures blocks != [] ==> (InParagraph(PrintBlocks(blocks)[0]) <==> blocks[0].LineBreak?)
    ensures Uncut(blocks) ==> Reread(PrintBlocks(blocks)) == PrintBlocks(blocks)
    ensures !Uncut(blocks) ==> |Reread(PrintBlocks(blocks))| < |blocks|
  {
    hide Representable, NormalizeBlock, PrintBlock, Unclosed, StaysOpen, OpenParagraph, InParagraph, Uncut, Closed;
    if blocks == [] {
      NoBlocksAreUncut();
    } else {
      var b, rest := blocks[0], blocks[1..];
      assert blocks == [b] + rest;
      UncutCons(b, rest);
      BlockShuts(b);
      RereadBlocks(rest);
      var node, nodes := PrintBlock(b)[0], PrintBlocks(rest);
      assert PrintBlocks(blocks) == [node] + nodes && PrintBlocks(blocks)[1..] == nodes;
      ClosedIsFixed(node.children);
      RereadCons(node, nodes);
      if nodes != [] { HeadStays(nodes); }
    }
  }

  lemma NoBlocksAreUncut()
    ensures Uncut([])
  {}

  lemma RereadCons(node: H.Node, nodes: seq<H.Node>)
    requires node.Element? && Reread(node.children) == node.children
    ensures var r := Reread([node] + nodes);
            && (StaysOpen(node) ==> |r| == 1)
            && (OpenParagraph(node) && nodes != [] && InParagraph(nodes[0]) ==> |r| <= |nodes|)
            && ((StaysOpen(node) && nodes == [])
                || (!StaysOpen(node) && !(OpenParagraph(node) && nodes != [] && InParagraph(nodes[0])))
                ==> r == [node] + Reread(nodes))
  {
    var rest := Reread(nodes);
    assert ([node] + nodes)[1..] == nodes;
    if nodes != [] { HeadStays(nodes); }
    assert rest[0..] == rest;
  }

  // ---------------------------------------------------------------- the round trip

  lemma {:induction false} CollectedAreFew(nodes: seq<H.Node>, buffer: seq<Inline>)
    ensures |CollectBlocks(nodes, buffer)| <= |nodes| + if buffer == [] then 0 else 1
    decreases nodes
  {
    hide ParseBlock, ParseInline, NormalizeInline;
    if nodes == [] {
    } else {
      CollectedAreFew(nodes[1..], if ParseBlock(nodes[0]).Some? then [] else buffer + ParseInline(nodes[0], []));
    }
  }

  lemma PrintSlice(blocks: seq<Block>, lo: nat, hi: nat)
    requires AllRepresentable(blocks) && lo <= hi <= |blocks|
    ensures |PrintBlocks(blocks)| == |blocks| && PrintBlocks(blocks[lo..hi]) == PrintBlocks(blocks)[lo..hi]
  {
    PrintBlocksShape(blocks);
    PrintBlocksShape(blocks[lo..hi]);
    hide PrintBlocks, PrintBlock, Representable;
    forall i | 0 <= i < hi - lo ensures PrintBlocks(blocks[lo..hi])[i] == PrintBlocks(blocks)[lo + i] {
      assert blocks[lo..hi][i] == blocks[lo + i];
      assert [PrintBlocks(blocks[lo..hi])[i]] == [PrintBlocks(blocks)[lo + i]];
    }
  }

  lemma StripCommutes(blocks: seq<Block>)
    requires AllRepresentable(blocks)
    ensures Strip(PrintBlocks(blocks), IsBreak) == PrintBlocks(Strip(blocks, IsLineBreak))
  {
    var nodes := PrintBlocks(blocks);
    PrintBlocksShape(blocks);
    forall i | 0 <= i < |blocks| ensures IsBreak(nodes[i]) == IsLineBreak(blocks[i]) {
      hide *;
      hide PrintBlock, IsBreak, IsLineBreak;
      BreaksMatch(blocks[i]);
    }
    LastAlike(nodes, IsBreak, blocks, IsLineBreak);
    PrintSlice(blocks, Leading(blocks, IsLineBreak), Last(blocks, IsLineBreak));
    hide PrintBlocks, AllRepresentable, Leading, Last, IsBreak, IsLineBreak;
  }

  lemma StripKeeps(blocks: seq<Block>)
    requires Normalized(blocks) && AllRepresentable(blocks)
    ensures Normalized(Strip(blocks, IsLineBreak)) && AllRepresentable(Strip(blocks, IsLineBreak))
  {
    hide Representable, NormalizeBlock, Leading, Last, IsLineBreak;
    var s := Strip(blocks, IsLineBreak);
    forall i | 0 <= i < |s| ensures NormalizeBlock(s[i]) == s[i] && Representable(s[i]) {
      var j := Leading(blocks, IsLineBreak) + i;
      assert s[i] == blocks[j];
      assert NormalizeBlock(blocks[j]) == blocks[j];
    }
    assert NormalizeBlocks(s) == s;
  }

  /** Each code block has text. */
  predicate NoEmptyCode(blocks: seq<Block>) {
    forall b :: b in blocks && b.CodeBlock? ==> b.text != []
  }

  /** What a document must avoid: line breaks at its ends, blocks that swallow what follows, break tags in links. */
  ghost predicate ComesBack(blocks: seq<Block>) {
    Stripped(blocks, IsLineBreak) && Uncut(blocks) && TidyLinks(blocks)
  }

  /** Without odd break tags one pass through the sanitizer is all that happens: the second finds nothing to change. */
  lemma TidyDocument(blocks: seq<Block>)
    requires Normalized(blocks) && AllRepresentable(blocks) && TidyLinks(blocks)
    ensures HtmlToRichText(RichTextToSafeHtml(blocks)) == ParseBlocks(Reread(PrintBlocks(Strip(blocks, IsLineBreak))))
  {
    RepresentableIsValid(blocks);
    PrintedTreeIsLeftAlone(blocks);
    PrintedTreeIsTidy(blocks);
    TidyNodesAreTidy(PrintBlocks(blocks));
    StripCommutes(blocks);
    StripStrips(PrintBlocks(blocks), IsBreak);
    StripIsTidy(PrintBlocks(blocks));
    var inner := Strip(blocks, IsLineBreak);
    BlocksAreClean(inner);
    RereadIsFixed(PrintBlocks(inner));
    hide IsRichTextDocument, AllRepresentable, ParseBlocks, PrintBlocks, Strip, Stripped, Normalized, AllTidy, TidyLinks, Reread,
         H.AllClean;
  }

  lemma UncutComesBack(blocks: seq<Block>)
    requires Normalized(blocks) && AllRepresentable(blocks)
    ensures var back := ParseBlocks(Reread(PrintBlocks(blocks)));
            if Uncut(blocks) then back == blocks else |back| < |blocks|
  {
    forall i | 0 <= i < |blocks| ensures NormalizeBlock(blocks[i]) == blocks[i] { assert NormalizeBlocks(blocks)[i] == blocks[i]; }
    RereadBlocks(blocks);
    CollectedAreFew(Reread(PrintBlocks(blocks)), []);
    RoundTrip(blocks);
    PrintedTreeIsLeftAlone(blocks);
    hide AllRepresentable, PrintBlocks, Reread, Uncut, CollectBlocks, NormalizeBlock;
  }

  /**
   Through safe HTML a document comes back exactly when no line break stands at its ends, every empty quote
   and empty list is its last block, no empty paragraph stands before a line break, and no link spells a
   break tag in its href or title. If only the line breaks are in the way, they are all that is lost.
   */
  lemma {:induction false} SafeHtmlRoundTrip(blocks: seq<Block>)
    requires Normalized(blocks) && AllRepresentable(blocks) && NoEmptyCode(blocks)
    ensures HtmlToRichText(RichTextToSafeHtml(blocks)) == blocks <==> ComesBack(blocks)
    ensures var inner := Strip(blocks, IsLineBreak);
            TidyLinks(blocks) && Uncut(inner) ==> HtmlToRichText(RichTextToSafeHtml(blocks)) == inner
  {
    var back := RichTextToSafeHtml(blocks);
    ResultIsTidy(back);
    ReadDocumentIsTidy(SanitizeHtml(back));
    if TidyLinks(blocks) {
      TidyDocument(blocks);
      StripKeeps(blocks);
      StripStrips(blocks, IsLineBreak);
      StripShortens(blocks, IsLineBreak);
      UncutComesBack(Strip(blocks, IsLineBreak));
    }
    hide AllRepresentable, Normalized, ParseBlocks, PrintBlocks, Strip, Stripped, TidyLinks, Reread, Uncut, RichTextToSafeHtml,
         SanitizeHtml, AllTidy, NoEmptyCode;
  }

  /** A document that does not come back: behind an empty quote everything falls into the quote, whatever it is. */
  lemma EmptyQuoteSwallows(rest: seq<Block>)
    requires Normalized([Blockquote([])] + rest) && AllRepresentable(rest) && TidyLinks(rest)
    ensures var back := HtmlToRichText(RichTextToSafeHtml([Blockquote([])] + rest)); |back| == 1 && back[0].Blockquote?
  {
    var blocks := [Blockquote([])] + rest;
    TidyDocument(blocks);
    StripKeepsHead(blocks, IsLineBreak);
    var inner := Strip(blocks, IsLineBreak);
    assert inner == [Blockquote([])] + inner[1..];
    var nodes := PrintBlocks(inner);
    assert nodes == [H.Element(H.Blockquote, map[], [])] + PrintBlocks(inner[1..]);
    RereadQuote(nodes);
    hide RichTextToSafeHtml, HtmlToRichText, Strip, TidyLinks, AllRepresentable, PrintBlocks, Reread, ParseBlocks;
    assert Reread(nodes) == [Reread(nodes)[0]];
    ParsedQuote(Reread(nodes)[0]);
  }

  lemma RereadQuote(nodes: seq<H.Node>)
    requires nodes != [] && nodes[0] == H.Element(H.Blockquote, map[], [])
    ensures var r := Reread(nodes); |r| == 1 && r[0].Element? && r[0].tag.Blockquote?
  {}

  lemma ParsedQuote(node: H.Node)
    requires node.Element? && node.tag.Blockquote?
    ensures |ParseBlocks([node])| == 1 && ParseBlocks([node])[0].Blockquote?
  {
    hide ParseChildren, NormalizeInline;
    assert [node][1..] == [];
    assert CollectBlocks([node], []) == Flush([]) + [ParseBlock(node).value] + CollectBlocks([], []);
  }
}
