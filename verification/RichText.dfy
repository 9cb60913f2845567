/** The canonical rich-text document of app/richText.ts: marks, nodes, blocks, validation and normalization. */
module RichText {
  import opened Wrappers
  import opened JsStrings

  datatype MarkKind = Strong | Em | Code | Strike | Spoiler | Link | Mention | Hashtag | UnknownMark(name: Str)

  datatype MarkId = NoId | TextId(text: Str) | NumberId(number: int)

  datatype Mark = Mark(kind: MarkKind, href: Option<Str>, title: Option<Str>, summary: Option<Str>,
                       id: MarkId, name: Option<Str>, protocol: Option<Str>)

  datatype Inline = Inline(text: Str, marks: seq<Mark>)

  datatype Block =
    | Paragraph(children: seq<Inline>)
    | Blockquote(children: seq<Inline>)
    | ListItem(children: seq<Inline>)
    | CodeBlock(text: Str, language: Option<Str>)
    | List(ordered: bool, items: seq<Block>)
    | LineBreak
    | Attachment(storageId: Str, mimeType: Option<Str>, alt: Option<Str>, title: Option<Str>)
    | UnknownBlock(name: Str)

  // ---------------------------------------------------------------- marks

  /** The position of a mark in markOrder. */
  function Rank(kind: MarkKind): int {
    match kind
    case Strong => 0
    case Em => 1
    case Code => 2
    case Strike => 3
    case Spoiler => 4
    case Link => 5
    case Mention => 6
    case Hashtag => 7
    case UnknownMark(_) => -1
  }

  predicate LinkLike(kind: MarkKind) {
    kind.Link? || kind.Mention? || kind.Hashtag?
  }

  /** `value || ''` for an optional string. */
  function OrEmpty(value: Option<Str>): Str {
    value.GetOr([])
  }

  function NormalizeMark(m: Mark): Option<Mark> {
    if m.kind.UnknownMark? then None
    else if !LinkLike(m.kind) then Some(m)
    else
      var href := SanitizeAbsoluteHref(OrEmpty(m.href));
      var n := if OrEmpty(m.href) == [] then m else m.(href := if href == [] then None else Some(href));
      if m.kind.Link? && OrEmpty(n.href) == [] then None else Some(n)
  }

  function NormalizeEach(marks: seq<Mark>): seq<Mark> {
    if marks == [] then []
    else
      var n := NormalizeMark(marks[0]);
      (if n.Some? then [n.value] else []) + NormalizeEach(marks[1..])
  }

  /** Insert behind every mark of the same or a lower rank. */
  function InsertMark(sorted: seq<Mark>, m: Mark): seq<Mark> {
    if sorted == [] || Rank(sorted[|sorted| - 1].kind) <= Rank(m.kind) then sorted + [m]
    else InsertMark(sorted[..|sorted| - 1], m) + [sorted[|sorted| - 1]]
  }

  function SortMarks(marks: seq<Mark>): seq<Mark> {
    if marks == [] then [] else InsertMark(SortMarks(marks[..|marks| - 1]), marks[|marks| - 1])
  }

  function NormalizeMarks(marks: seq<Mark>): seq<Mark> {
    SortMarks(NormalizeEach(marks))
  }

  ghost predicate Sorted(marks: seq<Mark>) {
    forall i, j :: 0 <= i < j < |marks| ==> Rank(marks[i].kind) <= Rank(marks[j].kind)
  }

  /** The marks of one rank, in order. */
  function OfRank(marks: seq<Mark>, rank: int): seq<Mark> {
    if marks == [] then []
    else OfRank(marks[..|marks| - 1], rank)
         + if Rank(marks[|marks| - 1].kind) == rank then [marks[|marks| - 1]] else []
  }

  lemma {:induction false} InsertMarkPermutes(sorted: seq<Mark>, m: Mark)
    ensures multiset(InsertMark(sorted, m)) == multiset(sorted) + multiset{m}
  {
    if sorted != [] && Rank(sorted[|sorted| - 1].kind) > Rank(m.kind) {
      InsertMarkPermutes(sorted[..|sorted| - 1], m);
      assert sorted == sorted[..|sorted| - 1] + [sorted[|sorted| - 1]];
    }
  }

  lemma {:induction false} InsertMarkSorts(sorted: seq<Mark>, m: Mark)
    requires Sorted(sorted)
    ensures Sorted(InsertMark(sorted, m))
  {
    if sorted != [] && Rank(sorted[|sorted| - 1].kind) > Rank(m.kind) {
      var front, last := sorted[..|sorted| - 1], sorted[|sorted| - 1];
      InsertMarkSorts(front, m);
      var r := InsertMark(front, m);
      forall i | 0 <= i < |r| ensures Rank(r[i].kind) <= Rank(last.kind) {
        InsertMarkPermutes(front, m);
        assert r[i] in multiset(r);
        if r[i] != m { assert r[i] in front; }
      }
    }
  }

  lemma {:induction false} InsertMarkIsStable(sorted: seq<Mark>, m: Mark, rank: int)
    requires Sorted(sorted)
    ensures OfRank(InsertMark(sorted, m), rank) == OfRank(sorted + [m], rank)
  {
    assert (sorted + [m])[..|sorted|] == sorted;
    if sorted == [] || Rank(sorted[|sorted| - 1].kind) <= Rank(m.kind) {
    } else {
      var front, last := sorted[..|sorted| - 1], sorted[|sorted| - 1];
      InsertMarkIsStable(front, m, rank);
      assert (front + [m])[..|front|] == front;
      assert (InsertMark(front, m) + [last])[..|InsertMark(front, m)|] == InsertMark(front, m);
    }
  }

  /** Sorting by markOrder is a stable sort: a sorted permutation that keeps the order inside every mark type. */
  lemma {:induction false} SortMarksIsStableSort(marks: seq<Mark>, rank: int)
    ensures Sorted(SortMarks(marks))
    ensures multiset(SortMarks(marks)) == multiset(marks)
    ensures OfRank(SortMarks(marks), rank) == OfRank(marks, rank)
  {
    if marks == [] {
    } else {
      hide SortMarks, InsertMark;
      var front, last := marks[..|marks| - 1], marks[|marks| - 1];
      SortMarksIsStableSort(front, rank);
      InsertMarkPermutes(SortMarks(front), last);
      InsertMarkSorts(SortMarks(front), last);
      InsertMarkIsStable(SortMarks(front), last, rank);
      SortPush(front, last);
      assert marks == front + [last];
      assert (SortMarks(front) + [last])[..|SortMarks(front)|] == SortMarks(front);
    }
  }

  lemma {:induction false} OfRankEmpty(marks: seq<Mark>, rank: int)
    requires forall i :: 0 <= i < |marks| ==> Rank(marks[i].kind) != rank
    ensures OfRank(marks, rank) == []
  {
    if marks == [] {
    } else {
      OfRankEmpty(marks[..|marks| - 1], rank);
    }
  }

  lemma LastOfItsRank(marks: seq<Mark>)
    requires marks != []
    ensures var group := OfRank(marks, Rank(marks[|marks| - 1].kind));
            group != [] && group[|group| - 1] == marks[|marks| - 1]
  {}

  /** There is only one stable sort, so any correct sort routine gives what SortMarks gives. */
  lemma {:induction false} StableSortIsUnique(a: seq<Mark>, b: seq<Mark>)
    requires Sorted(a) && Sorted(b)
    requires forall rank: int :: OfRank(a, rank) == OfRank(b, rank)
    ensures a == b
  {
    if a != [] { assert OfRank(a, Rank(a[|a| - 1].kind)) == OfRank(b, Rank(a[|a| - 1].kind)); LastOfItsRank(a); }
    if b != [] { assert OfRank(a, Rank(b[|b| - 1].kind)) == OfRank(b, Rank(b[|b| - 1].kind)); LastOfItsRank(b); }
    if a != [] && b != [] {
      var x, y := a[|a| - 1], b[|b| - 1];
      if Rank(x.kind) < Rank(y.kind) { OfRankEmpty(a, Rank(y.kind)); }
      if Rank(y.kind) < Rank(x.kind) { OfRankEmpty(b, Rank(x.kind)); }
      assert x == y;
      var front, other := a[..|a| - 1], b[..|b| - 1];
      forall rank: int ensures OfRank(front, rank) == OfRank(other, rank) {
        assert OfRank(a, rank) == OfRank(b, rank);
        var tail := if Rank(x.kind) == rank then [x] else [];
        assert OfRank(front, rank) == OfRank(a, rank)[..|OfRank(a, rank)| - |tail|];
        assert OfRank(other, rank) == OfRank(b, rank)[..|OfRank(b, rank)| - |tail|];
      }
      StableSortIsUnique(front, other);
      assert a == a[..|a| - 1] + [x] && b == b[..|b| - 1] + [y];
    }
  }

  lemma SortPush(marks: seq<Mark>, m: Mark)
    ensures SortMarks(marks + [m]) == InsertMark(SortMarks(marks), m)
  {
    assert (marks + [m])[..|marks|] == marks;
  }

  lemma {:induction false} SortOfSorted(marks: seq<Mark>)
    requires Sorted(marks)
    ensures SortMarks(marks) == marks
  {
    if marks == [] {
    } else {
      hide SortMarks;
      var front, last := marks[..|marks| - 1], marks[|marks| - 1];
      SortOfSorted(front);
      SortPush(front, last);
      assert marks == front + [last];
    }
  }

  lemma NormalizeMarkIsProjection(m: Mark)
    ensures NormalizeMark(m).Some? ==> NormalizeMark(NormalizeMark(m).value) == NormalizeMark(m)
    ensures NormalizeMark(m).Some? ==> NormalizeMark(m).value.kind == m.kind
  {
    SanitizeHrefIsProjection(OrEmpty(m.href));
  }

  ghost predicate EachNormal(marks: seq<Mark>) {
    forall i :: 0 <= i < |marks| ==> NormalizeMark(marks[i]) == Some(marks[i])
  }

  lemma {:induction false} NormalizeEachIsNormal(marks: seq<Mark>)
    ensures EachNormal(NormalizeEach(marks))
  {
    if marks == [] {
    } else {
      NormalizeMarkIsProjection(marks[0]);
      NormalizeEachIsNormal(marks[1..]);
    }
  }

  lemma {:induction false} NormalizeEachOfNormal(marks: seq<Mark>)
    requires EachNormal(marks)
    ensures NormalizeEach(marks) == marks
  {
    if marks == [] {
    } else {
      NormalizeEachOfNormal(marks[1..]);
    }
  }

  lemma NormalizeMarksIsProjection(marks: seq<Mark>)
    ensures NormalizeMarks(NormalizeMarks(marks)) == NormalizeMarks(marks)
    ensures Sorted(NormalizeMarks(marks)) && EachNormal(NormalizeMarks(marks))
  {
    var each := NormalizeEach(marks);
    NormalizeEachIsNormal(marks);
    SortMarksIsStableSort(each, 0);
    forall i | 0 <= i < |SortMarks(each)| ensures NormalizeMark(SortMarks(each)[i]) == Some(SortMarks(each)[i]) {
      assert SortMarks(each)[i] in multiset(SortMarks(each));
      assert SortMarks(each)[i] in each;
    }
    NormalizeEachOfNormal(SortMarks(each));
    SortOfSorted(SortMarks(each));
  }

  // ---------------------------------------------------------------- inline nodes

  function TextOf(nodes: seq<Inline>): Str {
    if nodes == [] then [] else TextOf(nodes[..|nodes| - 1]) + nodes[|nodes| - 1].text
  }

  lemma {:induction false} TextOfConcat(a: seq<Inline>, b: seq<Inline>)
    ensures TextOf(a + b) == TextOf(a) + TextOf(b)
  {
    if b == [] {
      assert a + b == a;
    } else {
      assert (a + b)[..|a + b| - 1] == a + b[..|b| - 1];
      TextOfConcat(a, b[..|b| - 1]);
    }
  }

  /** One round of normalizeInlineNodes. */
  function AppendNormalized(acc: seq<Inline>, node: Inline): seq<Inline> {
    if node.text == [] then acc
    else
      var marks := NormalizeMarks(node.marks);
      if acc != [] && NormalizeMarks(acc[|acc| - 1].marks) == NormalizeMarks(marks)
      then acc[|acc| - 1 := acc[|acc| - 1].(text := acc[|acc| - 1].text + node.text)]
      else acc + [Inline(node.text, marks)]
  }

  function NormalizeInline(nodes: seq<Inline>): seq<Inline> {
    if nodes == [] then [] else AppendNormalized(NormalizeInline(nodes[..|nodes| - 1]), nodes[|nodes| - 1])
  }

  /** No empty node, canonical marks, and no two neighbours with equal marks. */
  ghost predicate NormalInline(nodes: seq<Inline>) {
    && (forall i :: 0 <= i < |nodes| ==> nodes[i].text != [] && NormalizeMarks(nodes[i].marks) == nodes[i].marks)
    && (forall i :: 0 < i < |nodes| ==> nodes[i - 1].marks != nodes[i].marks)
  }

  lemma TextPush(nodes: seq<Inline>, node: Inline)
    ensures TextOf(nodes + [node]) == TextOf(nodes) + node.text
  {
    assert (nodes + [node])[..|nodes|] == nodes;
  }

  lemma AppendNormalizedText(acc: seq<Inline>, node: Inline)
    ensures TextOf(AppendNormalized(acc, node)) == TextOf(acc) + node.text
  {
    hide TextOf, NormalizeMarks;
    var next := AppendNormalized(acc, node);
    if node.text != [] {
      if |next| == |acc| {
        var front, last := acc[..|acc| - 1], acc[|acc| - 1];
        TextPush(front, last);
        TextPush(front, next[|next| - 1]);
        assert acc == front + [last] && next == front + [next[|next| - 1]];
      } else {
        TextPush(acc, next[|next| - 1]);
      }
    }
  }

  lemma AppendNormalizedKeeps(acc: seq<Inline>, node: Inline)
    requires NormalInline(acc)
    ensures NormalInline(AppendNormalized(acc, node))
  {
    NormalizeMarksIsProjection(node.marks);
    hide NormalizeMarks;
  }

  lemma {:induction false} NormalizeInlineIsNormal(nodes: seq<Inline>)
    ensures NormalInline(NormalizeInline(nodes))
    ensures TextOf(NormalizeInline(nodes)) == TextOf(nodes)
  {
    if nodes == [] {
    } else {
      NormalizeInlineIsNormal(nodes[..|nodes| - 1]);
      AppendNormalizedKeeps(NormalizeInline(nodes[..|nodes| - 1]), nodes[|nodes| - 1]);
      AppendNormalizedText(NormalizeInline(nodes[..|nodes| - 1]), nodes[|nodes| - 1]);
    }
  }

  lemma {:induction false} NormalInlineIsFixed(nodes: seq<Inline>)
    requires NormalInline(nodes)
    ensures NormalizeInline(nodes) == nodes
  {
    if nodes == [] {
    } else {
      var front, last := nodes[..|nodes| - 1], nodes[|nodes| - 1];
      NormalInlineIsFixed(front);
      assert NormalizeMarks(last.marks) == last.marks;
      if front != [] {
        assert front[|front| - 1] == nodes[|nodes| - 2];
        assert NormalizeMarks(front[|front| - 1].marks) == front[|front| - 1].marks;
      }
      assert AppendNormalized(front, last) == front + [last];
    }
  }

  /** normalizeInlineNodes as the loop the code runs. */
  method NormalizeInlineNodes(nodes: seq<Inline>) returns (normalized: seq<Inline>)
    ensures normalized == NormalizeInline(nodes)
    ensures NormalInline(normalized) && TextOf(normalized) == TextOf(nodes)
  {
    normalized := [];
    for i := 0 to |nodes|
      invariant normalized == NormalizeInline(nodes[..i])
    {
      assert nodes[..i + 1][..i] == nodes[..i];
      var node := nodes[i];
      if node.text == [] {
        continue;
      }
      var next := Inline(node.text, NormalizeMarks(node.marks));
      if normalized != [] {
        var previous := normalized[|normalized| - 1];
        if NormalizeMarks(previous.marks) == NormalizeMarks(next.marks) {
          normalized := normalized[|normalized| - 1 := previous.(text := previous.text + next.text)];
          continue;
        }
      }
      normalized := normalized + [next];
    }
    assert nodes[..|nodes|] == nodes;
    NormalizeInlineIsNormal(nodes);
  }

  // ---------------------------------------------------------------- blocks

  function NormalizeBlock(b: Block): Block {
    match b
    case Paragraph(children) => Paragraph(NormalizeInline(children))
    case Blockquote(children) => Blockquote(NormalizeInline(children))
    case ListItem(children) => ListItem(NormalizeInline(children))
    case List(ordered, items) => List(ordered, OnlyItems(NormalizeBlocks(items)))
    case _ => b
  }

  function NormalizeBlocks(blocks: seq<Block>): (r: seq<Block>)
    ensures |r| == |blocks|
    ensures forall i :: 0 <= i < |blocks| ==> r[i] == NormalizeBlock(blocks[i])
  {
    if blocks == [] then [] else NormalizeBlocks(blocks[..|blocks| - 1]) + [NormalizeBlock(blocks[|blocks| - 1])]
  }

  function OnlyItems(blocks: seq<Block>): (r: seq<Block>)
    ensures forall i :: 0 <= i < |r| ==> r[i].ListItem? && r[i] in blocks
  {
    if blocks == [] then []
    else OnlyItems(blocks[..|blocks| - 1]) + if blocks[|blocks| - 1].ListItem? then [blocks[|blocks| - 1]] else []
  }

  lemma {:induction false} OnlyItemsOfItems(blocks: seq<Block>)
    requires forall i :: 0 <= i < |blocks| ==> blocks[i].ListItem?
    ensures OnlyItems(blocks) == blocks
  {
    if blocks == [] {
    } else {
      OnlyItemsOfItems(blocks[..|blocks| - 1]);
    }
  }

  /** createRichTextDocument is a projection: normalizing a normalized document changes nothing. */
  lemma {:induction false} NormalizeBlockIsProjection(b: Block)
    ensures NormalizeBlock(NormalizeBlock(b)) == NormalizeBlock(b)
    decreases b, 0
  {
    match b {
      case Paragraph(children) => NormalizeInlineIsNormal(children); NormalInlineIsFixed(NormalizeInline(children));
      case Blockquote(children) => NormalizeInlineIsNormal(children); NormalInlineIsFixed(NormalizeInline(children));
      case ListItem(children) => NormalizeInlineIsNormal(children); NormalInlineIsFixed(NormalizeInline(children));
      case List(_, items) =>
        var kept := OnlyItems(NormalizeBlocks(items));
        forall i | 0 <= i < |kept| ensures NormalizeBlock(kept[i]) == kept[i] {
          var j :| 0 <= j < |items| && kept[i] == NormalizeBlock(items[j]);
          NormalizeBlockIsProjection(items[j]);
        }
        assert NormalizeBlocks(kept) == kept;
        OnlyItemsOfItems(kept);
      case _ =>
    }
  }

  lemma NormalizeBlocksIsProjection(blocks: seq<Block>)
    ensures NormalizeBlocks(NormalizeBlocks(blocks)) == NormalizeBlocks(blocks)
  {
    forall i | 0 <= i < |blocks| ensures NormalizeBlock(NormalizeBlock(blocks[i])) == NormalizeBlock(blocks[i]) {
      NormalizeBlockIsProjection(blocks[i]);
    }
  }

  // ---------------------------------------------------------------- validation

  predicate ValidMark(m: Mark) {
    && !m.kind.UnknownMark?
    && (m.kind.Link? ==> SanitizeAbsoluteHref(OrEmpty(m.href)) != [])
    && ((m.kind.Mention? || m.kind.Hashtag?) && m.href.Some? ==> SanitizeAbsoluteHref(m.href.value) != [])
  }

  predicate ValidChildren(nodes: seq<Inline>) {
    forall i, j :: 0 <= i < |nodes| && 0 <= j < |nodes[i].marks| ==> ValidMark(nodes[i].marks[j])
  }

  predicate ValidBlock(b: Block) {
    match b
    case Paragraph(children) => ValidChildren(children)
    case Blockquote(children) => ValidChildren(children)
    case ListItem(children) => ValidChildren(children)
    case CodeBlock(_, _) => true
    case List(_, items) => forall i :: 0 <= i < |items| ==> items[i].ListItem? && ValidChildren(items[i].children)
    case LineBreak => true
    case Attachment(storageId, _, _, _) => storageId != []
    case UnknownBlock(_) => false
  }

  /** isRichTextDocument, for a value of the document's shape. */
  predicate IsRichTextDocument(blocks: seq<Block>) {
    forall i :: 0 <= i < |blocks| ==> ValidBlock(blocks[i])
  }

  /**
   Normalization makes a mark valid except in one case the code has: a mention or hashtag with an
   empty href keeps it, because the empty string counts as no href in normalizeLinkLikeMark but as a present href in validation.
   */
  lemma NormalMarkIsValidIff(m: Mark)
    requires NormalizeMark(m).Some?
    ensures ValidMark(NormalizeMark(m).value) <==> !((m.kind.Mention? || m.kind.Hashtag?) && m.href == Some([]))
  {
    SanitizeHrefIsProjection(OrEmpty(m.href));
    TrimTrims([]);
  }
}
