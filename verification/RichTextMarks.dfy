/** What normalization keeps of a document's marks, mark by mark and character by character. */
module RichTextMarks {
  import opened Wrappers
  import opened JsStrings
  import opened RichText

  // ---------------------------------------------------------------- one mark

  predicate HasNoHref(m: Mark) {
    m.href == None || m.href == Some([])
  }

  /** The href without the white space around it, when that is a safe absolute one. */
  ghost predicate TrimsTo(m: Mark, href: Str) {
    m.href.Some? && href == Trim(m.href.value) && SafeAbsolute(href)
  }

  /**
   What becomes of a mark: strong, em, code, strike and spoiler stay as they are, a link stays when its href is
   safe and absolute, and a mention or hashtag stays without an href that is not. No other field is touched, and
   marks of other types go.
   */
  lemma NormalizeMarkIs(m: Mark)
    ensures match m.kind
            case UnknownMark(_) => NormalizeMark(m) == None
            case Link =>
              if exists href :: TrimsTo(m, href) then NormalizeMark(m) == Some(m.(href := Some(Trim(m.href.value))))
              else NormalizeMark(m) == None
            case Mention => NormalizeMark(m) == Some(WithSafeHref(m))
            case Hashtag => NormalizeMark(m) == Some(WithSafeHref(m))
            case _ => NormalizeMark(m) == Some(m)
  {
    AbsoluteHrefIff(OrEmpty(m.href));
    NothingIsSafe();
    if m.href.Some? && SafeAbsolute(Trim(m.href.value)) { assert TrimsTo(m, Trim(m.href.value)); }
    TrimTrims([]);
    hide SanitizeAbsoluteHref, SafeAbsolute, Trim;
  }

  ghost function WithSafeHref(m: Mark): Mark {
    if HasNoHref(m) then m
    else if exists href :: TrimsTo(m, href) then m.(href := Some(Trim(m.href.value)))
    else m.(href := None)
  }

  lemma NothingIsSafe()
    ensures !SafeAbsolute([])
  {}

  // ---------------------------------------------------------------- the marks of a node

  const MARK_ORDER: seq<MarkKind> := [Strong, Em, Code, Strike, Spoiler, Link, Mention, Hashtag]

  lemma RankIs(kind: MarkKind)
    ensures forall a :: 0 <= a < |MARK_ORDER| && kind == MARK_ORDER[a] ==> Rank(kind) == a
  {}

  /** How many of the given marks become `x`. */
  ghost function Times(marks: seq<Mark>, x: Mark): nat {
    if marks == [] then 0 else Times(marks[1..], x) + if NormalizeMark(marks[0]) == Some(x) then 1 else 0
  }

  lemma {:induction false} EachCounted(marks: seq<Mark>, x: Mark)
    ensures multiset(NormalizeEach(marks))[x] == Times(marks, x)
  {
    hide NormalizeMark;
    if marks == [] {
    } else {
      EachCounted(marks[1..], x);
    }
  }

  /**
   Normalized marks stand in the order strong, em, code, strike, spoiler, link, mention, hashtag, and every mark
   that normalization keeps is there as often as it was given.
   */
  lemma NormalMarksAre(marks: seq<Mark>, x: Mark)
    ensures var r := NormalizeMarks(marks);
            && multiset(r)[x] == Times(marks, x)
            && forall i, j, a, b ::
                 (&& 0 <= i < j < |r| && 0 <= a < |MARK_ORDER| && 0 <= b < |MARK_ORDER|
                  && r[i].kind == MARK_ORDER[a] && r[j].kind == MARK_ORDER[b])
                 ==> a <= b
  {
    NormalizeMarksIsProjection(marks);
    EachCounted(marks, x);
    SortMarksIsStableSort(NormalizeEach(marks), 0);
    var r := NormalizeMarks(marks);
    hide NormalizeMark, NormalizeEach, SortMarks, OfRank, Rank;
    forall i, j, a, b | 0 <= i < j < |r| && 0 <= a < |MARK_ORDER| && 0 <= b < |MARK_ORDER|
      && r[i].kind == MARK_ORDER[a] && r[j].kind == MARK_ORDER[b]
      ensures a <= b
    {
      RankIs(r[i].kind);
      RankIs(r[j].kind);
      assert Rank(r[i].kind) <= Rank(r[j].kind);
    }
  }

  // ---------------------------------------------------------------- the marks of each character

  /** One inline node, character by character. */
  function Characters(text: Str, marks: seq<Mark>): seq<(CodeUnit, seq<Mark>)> {
    seq(|text|, i requires 0 <= i < |text| => (text[i], marks))
  }

  /** A list of nodes as characters with their normalized marks. */
  function Painted(nodes: seq<Inline>): seq<(CodeUnit, seq<Mark>)> {
    if nodes == [] then []
    else Painted(nodes[..|nodes| - 1]) + Characters(nodes[|nodes| - 1].text, NormalizeMarks(nodes[|nodes| - 1].marks))
  }

  lemma PaintedPush(nodes: seq<Inline>, node: Inline)
    ensures Painted(nodes + [node]) == Painted(nodes) + Characters(node.text, NormalizeMarks(node.marks))
  {
    assert (nodes + [node])[..|nodes|] == nodes;
  }

  lemma CharactersConcat(a: Str, b: Str, marks: seq<Mark>)
    ensures Characters(a + b, marks) == Characters(a, marks) + Characters(b, marks)
  {}

  lemma AppendPaints(acc: seq<Inline>, node: Inline)
    ensures Painted(AppendNormalized(acc, node)) == Painted(acc) + Characters(node.text, NormalizeMarks(node.marks))
  {
    NormalizeMarksIsProjection(node.marks);
    hide NormalizeMarks, Painted, EachNormal, Sorted;
    var next := AppendNormalized(acc, node);
    if node.text == [] {
    } else if |next| == |acc| {
      var front, last := acc[..|acc| - 1], acc[|acc| - 1];
      assert acc == front + [last] && next == front + [Inline(last.text + node.text, last.marks)];
      PaintedPush(front, last);
      PaintedPush(front, Inline(last.text + node.text, last.marks));
      CharactersConcat(last.text, node.text, NormalizeMarks(last.marks));
    } else {
      PaintedPush(acc, Inline(node.text, NormalizeMarks(node.marks)));
    }
  }

  /** Merging and dropping nodes changes no character and no mark: every character keeps its place and its normalized marks. */
  lemma {:induction false} NormalizeKeepsPaint(nodes: seq<Inline>)
    ensures Painted(NormalizeInline(nodes)) == Painted(nodes)
  {
    hide AppendNormalized, Characters, NormalizeMarks;
    if nodes == [] {
    } else {
      NormalizeKeepsPaint(nodes[..|nodes| - 1]);
      AppendPaints(NormalizeInline(nodes[..|nodes| - 1]), nodes[|nodes| - 1]);
    }
  }

  ghost predicate SameItems(items: seq<Block>, others: seq<Block>) {
    && |others| == |items|
    && forall i :: 0 <= i < |items| ==>
         items[i].ListItem? && others[i].ListItem? && Painted(others[i].children) == Painted(items[i].children)
  }

  /** A document keeps its blocks: their kinds, their order, their texts, and of a list its items, one by one. */
  ghost predicate SameBlock(a: Block, b: Block) {
    match a
    case Paragraph(children) => b.Paragraph? && Painted(b.children) == Painted(children)
    case Blockquote(children) => b.Blockquote? && Painted(b.children) == Painted(children)
    case ListItem(children) => b.ListItem? && Painted(b.children) == Painted(children)
    case List(ordered, items) =>
      && b.List? && b.ordered == ordered
      && ((forall i :: 0 <= i < |items| ==> items[i].ListItem?) ==> SameItems(items, b.items))
    case _ => b == a
  }

  lemma {:induction false} NormalizeKeepsBlock(b: Block)
    ensures SameBlock(b, NormalizeBlock(b))
  {
    hide Painted, NormalizeInline;
    match b {
      case Paragraph(children) => NormalizeKeepsPaint(children);
      case Blockquote(children) => NormalizeKeepsPaint(children);
      case ListItem(children) => NormalizeKeepsPaint(children);
      case List(_, items) =>
        if forall i :: 0 <= i < |items| ==> items[i].ListItem? { NormalizeKeepsItems(items); }
        hide NormalizeBlocks, OnlyItems, SameItems;
      case _ =>
    }
  }

  lemma NormalizeKeepsItems(items: seq<Block>)
    requires forall i :: 0 <= i < |items| ==> items[i].ListItem?
    ensures SameItems(items, OnlyItems(NormalizeBlocks(items)))
  {
    var r := NormalizeBlocks(items);
    hide Painted, NormalizeInline, OnlyItems, NormalizeBlocks;
    forall i | 0 <= i < |items| ensures r[i].ListItem? && Painted(r[i].children) == Painted(items[i].children) {
      assert r[i] == NormalizeBlock(items[i]);
      NormalizeKeepsPaint(items[i].children);
    }
    OnlyItemsOfItems(r);
  }

  /** createRichTextDocument loses no block and no character. */
  lemma NormalizeKeepsDocument(blocks: seq<Block>)
    ensures |NormalizeBlocks(blocks)| == |blocks|
    ensures forall i :: 0 <= i < |blocks| ==> SameBlock(blocks[i], NormalizeBlocks(blocks)[i])
  {
    hide SameBlock, NormalizeBlock;
    forall i | 0 <= i < |blocks| ensures SameBlock(blocks[i], NormalizeBlocks(blocks)[i]) { NormalizeKeepsBlock(blocks[i]); }
  }

  // ---------------------------------------------------------------- which documents are valid

  /** A known mark; a link has a safe absolute href, and a mention or hashtag has one if it has an href at all. */
  ghost predicate GoodMark(m: Mark) {
    match m.kind
    case UnknownMark(_) => false
    case Link => exists href :: TrimsTo(m, href)
    case Mention => m.href.None? || exists href :: TrimsTo(m, href)
    case Hashtag => m.href.None? || exists href :: TrimsTo(m, href)
    case _ => true
  }

  /** The node stands in the block, directly or in one of its items. */
  ghost predicate HasNode(b: Block, node: Inline) {
    match b
    case Paragraph(children) => node in children
    case Blockquote(children) => node in children
    case ListItem(children) => node in children
    case List(_, items) => exists i :: 0 <= i < |items| && items[i].ListItem? && node in items[i].children
    case _ => false
  }

  /** A known block; a list has nothing but items, and an attachment has a storageId. */
  predicate GoodBlock(b: Block) {
    match b
    case UnknownBlock(_) => false
    case List(_, items) => forall i :: 0 <= i < |items| ==> items[i].ListItem?
    case Attachment(storageId, _, _, _) => storageId != []
    case _ => true
  }

  ghost predicate GoodNodes(b: Block) {
    forall node, m :: HasNode(b, node) && m in node.marks ==> GoodMark(m)
  }

  lemma ValidMarkIff(m: Mark)
    ensures ValidMark(m) <==> GoodMark(m)
  {
    AbsoluteHrefIff(OrEmpty(m.href));
    NothingIsSafe();
    TrimTrims([]);
    if m.href.Some? && SafeAbsolute(Trim(m.href.value)) { assert TrimsTo(m, Trim(m.href.value)); }
    hide SanitizeAbsoluteHref, SafeAbsolute, Trim;
  }

  lemma ValidChildrenIff(nodes: seq<Inline>)
    ensures ValidChildren(nodes) <==> forall node, m :: node in nodes && m in node.marks ==> GoodMark(m)
  {
    hide ValidMark, GoodMark;
    forall i, j | 0 <= i < |nodes| && 0 <= j < |nodes[i].marks| ensures ValidMark(nodes[i].marks[j]) <==> GoodMark(nodes[i].marks[j]) {
      ValidMarkIff(nodes[i].marks[j]);
    }
    if forall node, m :: node in nodes && m in node.marks ==> GoodMark(m) {
      forall i, j | 0 <= i < |nodes| && 0 <= j < |nodes[i].marks| ensures ValidMark(nodes[i].marks[j]) {
        assert nodes[i] in nodes && nodes[i].marks[j] in nodes[i].marks;
      }
    }
  }

  lemma ValidBlockIff(b: Block)
    ensures ValidBlock(b) <==> GoodBlock(b) && GoodNodes(b)
  {
    hide ValidChildren, GoodMark;
    match b {
      case Paragraph(children) => ValidChildrenIff(children);
      case Blockquote(children) => ValidChildrenIff(children);
      case ListItem(children) => ValidChildrenIff(children);
      case List(_, items) => ValidListIff(b);
      case _ =>
    }
  }

  lemma ValidListIff(b: Block)
    requires b.List?
    ensures ValidBlock(b) <==> GoodBlock(b) && GoodNodes(b)
  {
    hide ValidChildren, GoodMark;
    forall i | 0 <= i < |b.items| && b.items[i].ListItem?
      ensures ValidChildren(b.items[i].children) <==> forall node, m :: node in b.items[i].children && m in node.marks ==> GoodMark(m)
    {
      ValidChildrenIff(b.items[i].children);
    }
    if GoodBlock(b) && GoodNodes(b) {
      forall i, node, m | 0 <= i < |b.items| && node in b.items[i].children && m in node.marks ensures GoodMark(m) {
        assert HasNode(b, node);
      }
    }
  }

  /** isRichTextDocument accepts exactly the documents of known blocks, with lists of items, stored attachments and good marks. */
  lemma ValidIff(blocks: seq<Block>)
    ensures IsRichTextDocument(blocks) <==> forall b :: b in blocks ==> GoodBlock(b) && GoodNodes(b)
  {
    hide ValidBlock, GoodBlock, GoodNodes;
    forall i | 0 <= i < |blocks| ensures ValidBlock(blocks[i]) <==> GoodBlock(blocks[i]) && GoodNodes(blocks[i]) {
      ValidBlockIff(blocks[i]);
    }
    if forall b :: b in blocks ==> GoodBlock(b) && GoodNodes(b) {
      forall i | 0 <= i < |blocks| ensures ValidBlock(blocks[i]) { assert blocks[i] in blocks; }
    }
  }
}
