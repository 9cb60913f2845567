/** AT Protocol export: text with facets whose positions are UTF-8 byte offsets. */
module AtProto {
  import opened Wrappers
  import opened JsStrings
  import opened RichText
  import opened RichTextPlain

  datatype Feature = LinkFeature(uri: Str) | MentionFeature(did: Str) | TagFeature(tag: Str)

  datatype Facet = Facet(byteStart: nat, byteEnd: nat, features: seq<Feature>)

  datatype AtText = AtText(text: Str, facets: seq<Facet>)

  const EMPTY := AtText([], [])

  // ---------------------------------------------------------------- features of a node

  predicate IsMethodUnit(u: CodeUnit) { 97 <= u <= 122 || IsDigit(u) }

  predicate IsIdentifierUnit(u: CodeUnit) {
    IsLetter(u) || IsDigit(u) || u == 46 || u == 95 || u == 58 || u == 37 || u == 45
  }

  function MethodUnits(s: Str): (n: nat)
    ensures n <= |s|
  {
    if s != [] && IsMethodUnit(s[0]) then 1 + MethodUnits(s[1..]) else 0
  }

  /** The pattern /^did:[a-z0-9]+:[A-Za-z0-9._:%-]+$/ */
  predicate IsDid(s: Str) {
    && StartsWith(s, U("did:"))
    && var n := MethodUnits(s[4..]);
       && n > 0 && 4 + n + 1 < |s| && s[4 + n] == 58
       && forall i :: 4 + n < i < |s| ==> IsIdentifierUnit(s[i])
  }

  predicate HasSpace(s: Str) {
    exists i :: 0 <= i < |s| && IsSpace(s[i])
  }

  function TagName(value: Str): Str {
    var trimmed := Trim(value);
    var tag := if trimmed != [] && trimmed[0] == 35 then trimmed[1..] else trimmed;
    if tag == [] || |tag| > 640 || HasSpace(tag) then [] else tag
  }

  function FeatureOf(node: Inline, m: Mark): Option<Feature> {
    match m.kind
    case Link =>
      var uri := SanitizeAbsoluteHref(OrEmpty(m.href));
      if uri == [] then None else Some(LinkFeature(uri))
    case Mention => if m.id.TextId? && IsDid(m.id.text) then Some(MentionFeature(m.id.text)) else None
    case Hashtag =>
      var tag := TagName(if OrEmpty(m.name) != [] then OrEmpty(m.name) else node.text);
      if tag == [] then None else Some(TagFeature(tag))
    case _ => None
  }

  function FeaturesOf(node: Inline, marks: seq<Mark>): seq<Feature> {
    if marks == [] then []
    else
      var f := FeatureOf(node, marks[0]);
      (if f.Some? then [f.value] else []) + FeaturesOf(node, marks[1..])
  }

  function Features(node: Inline): seq<Feature> {
    FeaturesOf(node, NormalizeMarks(node.marks))
  }

  // ---------------------------------------------------------------- the export

  function AppendInline(r: AtText, node: Inline): AtText {
    if node.text == [] then r
    else
      var text := r.text + node.text;
      if Features(node) == [] then AtText(text, r.facets)
      else AtText(text, r.facets + [Facet(ByteLength(r.text), ByteLength(text), Features(node))])
  }

  function InlineToAtProto(nodes: seq<Inline>): AtText {
    if nodes == [] then EMPTY else AppendInline(InlineToAtProto(nodes[..|nodes| - 1]), nodes[|nodes| - 1])
  }

  function ShiftFacet(f: Facet, offset: nat): Facet {
    Facet(f.byteStart + offset, f.byteEnd + offset, f.features)
  }

  function ShiftFacets(facets: seq<Facet>, offset: nat): (r: seq<Facet>)
    ensures |r| == |facets|
    ensures forall i :: 0 <= i < |facets| ==> r[i] == ShiftFacet(facets[i], offset)
  {
    seq(|facets|, i requires 0 <= i < |facets| => ShiftFacet(facets[i], offset))
  }

  function AppendPart(r: AtText, part: AtText): AtText {
    if part.text == [] then r
    else
      var base := if r.text == [] then [] else r.text + [NEWLINE];
      AtText(base + part.text, r.facets + ShiftFacets(part.facets, ByteLength(base)))
  }

  function JoinParts(parts: seq<AtText>): AtText {
    if parts == [] then EMPTY else AppendPart(JoinParts(parts[..|parts| - 1]), parts[|parts| - 1])
  }

  function ItemToAtProto(item: Block): AtText {
    InlineToAtProto(AsListItem(item).children)
  }

  function ItemsToAtProto(items: seq<Block>): (r: seq<AtText>)
    ensures |r| == |items|
  {
    seq(|items|, i requires 0 <= i < |items| => ItemToAtProto(items[i]))
  }

  function BlockToAtProto(b: Block): AtText {
    match b
    case Paragraph(children) => InlineToAtProto(children)
    case Blockquote(children) => InlineToAtProto(children)
    case ListItem(children) => InlineToAtProto(children)
    case CodeBlock(text, _) => AtText(text, [])
    case List(_, items) => JoinParts(ItemsToAtProto(items))
    case LineBreak => AtText([NEWLINE], [])
    case Attachment(_, _, alt, title) => AtText(AttachmentText(alt, title), [])
    case UnknownBlock(_) => EMPTY
  }

  function BlocksToAtProto(blocks: seq<Block>): (r: seq<AtText>)
    ensures |r| == |blocks|
  {
    seq(|blocks|, i requires 0 <= i < |blocks| => BlockToAtProto(blocks[i]))
  }

  function RichTextToAtProto(blocks: seq<Block>): AtText {
    if !IsRichTextDocument(blocks) then EMPTY else JoinParts(BlocksToAtProto(blocks))
  }

  // ---------------------------------------------------------------- reference: a document as a list of pieces

  // A piece is an inline node, or a plain node for one code block, one attachment or one line break.

  /** The facets a list of pieces should have: one per annotated piece, cut where the piece begins and ends. */
  function FacetsOf(ps: seq<Inline>): seq<Facet> {
    if ps == [] then []
    else
      var front, last := ps[..|ps| - 1], ps[|ps| - 1];
      FacetsOf(front)
      + if Features(last) == [] then [] else [Facet(ByteLength(TextOf(front)), ByteLength(TextOf(ps)), Features(last))]
  }

  function Export(ps: seq<Inline>): AtText {
    AtText(TextOf(ps), FacetsOf(ps))
  }

  function TextPiece(text: Str): seq<Inline> {
    if text == [] then [] else [Inline(text, [])]
  }

  function InlinePieces(nodes: seq<Inline>): seq<Inline> {
    if nodes == [] then []
    else
      var last := nodes[|nodes| - 1];
      InlinePieces(nodes[..|nodes| - 1]) + if last.text == [] then [] else [last]
  }

  /** Join pieces of several lines, skipping empty lines, with a line break between them. */
  function JoinPieces(lines: seq<seq<Inline>>): seq<Inline> {
    if lines == [] then []
    else
      var front, last := JoinPieces(lines[..|lines| - 1]), lines[|lines| - 1];
      if last == [] then front else if front == [] then last else front + [Inline([NEWLINE], [])] + last
  }

  function ItemPieces(items: seq<Block>): (r: seq<seq<Inline>>)
    ensures |r| == |items|
  {
    seq(|items|, i requires 0 <= i < |items| => InlinePieces(AsListItem(items[i]).children))
  }

  function BlockPieces(b: Block): seq<Inline> {
    match b
    case Paragraph(children) => InlinePieces(children)
    case Blockquote(children) => InlinePieces(children)
    case ListItem(children) => InlinePieces(children)
    case CodeBlock(text, _) => TextPiece(text)
    case List(_, items) => JoinPieces(ItemPieces(items))
    case LineBreak => TextPiece([NEWLINE])
    case Attachment(_, _, alt, title) => TextPiece(AttachmentText(alt, title))
    case UnknownBlock(_) => []
  }

  function DocumentPieces(blocks: seq<Block>): seq<Inline> {
    JoinPieces(seq(|blocks|, i requires 0 <= i < |blocks| => BlockPieces(blocks[i])))
  }

  ghost predicate NoEmptyPiece(ps: seq<Inline>) {
    forall i :: 0 <= i < |ps| ==> ps[i].text != []
  }

  lemma EmptyText(ps: seq<Inline>)
    requires NoEmptyPiece(ps)
    ensures TextOf(ps) == [] <==> ps == []
  {}

  function FacetAt(byteStart: nat, byteEnd: nat, features: seq<Feature>): seq<Facet> {
    if features == [] then [] else [Facet(byteStart, byteEnd, features)]
  }

  lemma PushPiece(ps: seq<Inline>, p: Inline)
    ensures TextOf(ps + [p]) == TextOf(ps) + p.text
    ensures FacetsOf(ps + [p]) == FacetsOf(ps) + FacetAt(ByteLength(TextOf(ps)), ByteLength(TextOf(ps) + p.text), Features(p))
  {
    assert (ps + [p])[..|ps|] == ps;
  }

  lemma ShiftPushed(facets: seq<Facet>, byteStart: nat, byteEnd: nat, features: seq<Feature>, offset: nat)
    ensures ShiftFacets(facets + FacetAt(byteStart, byteEnd, features), offset)
         == ShiftFacets(facets, offset) + FacetAt(byteStart + offset, byteEnd + offset, features)
  {}

  lemma LengthAfterLineBreak(base: Str, more: Str)
    requires base != [] ==> base[|base| - 1] == NEWLINE
    ensures ByteLength(base + more) == ByteLength(base) + ByteLength(more)
  {
    ByteLengthConcat(base, more);
  }

  /** Facets of a concatenation, when the first part ends in a line break: those of the second part shift by whole bytes. */
  lemma {:induction false} FacetsAppend(a: seq<Inline>, b: seq<Inline>)
    requires TextOf(a) != [] ==> TextOf(a)[|TextOf(a)| - 1] == NEWLINE
    ensures FacetsOf(a + b) == FacetsOf(a) + ShiftFacets(FacetsOf(b), ByteLength(TextOf(a)))
  {
    NoPieces();
    hide TextOf, FacetsOf, ByteLength;
    if b == [] {
      assert a + b == a;
    } else {
      var front, last := b[..|b| - 1], b[|b| - 1];
      FacetsAppend(a, front);
      FacetsAppendOne(a, front, last);
      assert a + b == a + front + [last] && b == front + [last];
    }
  }

  lemma NoPieces()
    ensures TextOf([]) == [] && FacetsOf([]) == []
  {}

  /** Code blocks, attachments and line breaks carry no facet. */
  lemma PlainSaysNothing(text: Str)
    ensures Features(Inline(text, [])) == []
  {}

  lemma FacetsAppendOne(a: seq<Inline>, b: seq<Inline>, p: Inline)
    requires TextOf(a) != [] ==> TextOf(a)[|TextOf(a)| - 1] == NEWLINE
    requires FacetsOf(a + b) == FacetsOf(a) + ShiftFacets(FacetsOf(b), ByteLength(TextOf(a)))
    ensures FacetsOf(a + b + [p]) == FacetsOf(a) + ShiftFacets(FacetsOf(b + [p]), ByteLength(TextOf(a)))
  {
    hide *;
    var base, before := TextOf(a), TextOf(b);
    TextOfConcat(a, b);
    PushPiece(b, p);
    PushPiece(a + b, p);
    LengthAfterLineBreak(base, before);
    LengthAfterLineBreak(base, before + p.text);
    assert base + before + p.text == base + (before + p.text);
    ShiftPushed(FacetsOf(b), ByteLength(before), ByteLength(before + p.text), Features(p), ByteLength(base));
  }

  lemma {:induction false} InlinePiecesExport(nodes: seq<Inline>)
    ensures InlineToAtProto(nodes) == Export(InlinePieces(nodes)) && NoEmptyPiece(InlinePieces(nodes))
  {
    NoPieces();
    hide Features, TextOf, FacetsOf, ByteLength;
    if nodes == [] {
    } else {
      var front, last := nodes[..|nodes| - 1], nodes[|nodes| - 1];
      InlinePiecesExport(front);
      PushPiece(InlinePieces(front), last);
      if last.text == [] {
        assert InlinePieces(nodes) == InlinePieces(front);
      } else {
        assert InlinePieces(nodes) == InlinePieces(front) + [last];
      }
    }
  }

  /** Joining two non-empty lines: a line break in between, and the second line's facets shift past it. */
  lemma JoinedLines(a: seq<Inline>, b: seq<Inline>)
    ensures TextOf(a + [Inline([NEWLINE], [])] + b) == TextOf(a) + [NEWLINE] + TextOf(b)
    ensures FacetsOf(a + [Inline([NEWLINE], [])] + b)
         == FacetsOf(a) + ShiftFacets(FacetsOf(b), ByteLength(TextOf(a) + [NEWLINE]))
  {
    hide *;
    PlainSaysNothing([NEWLINE]);
    var base := a + [Inline([NEWLINE], [])];
    PushPiece(a, Inline([NEWLINE], []));
    NoFacet(ByteLength(TextOf(a)), ByteLength(TextOf(a) + [NEWLINE]));
    TextOfConcat(base, b);
    FacetsAppend(base, b);
  }

  lemma NoFacet(byteStart: nat, byteEnd: nat)
    ensures FacetAt(byteStart, byteEnd, []) == []
  {}

  lemma AppendPartExport(a: seq<Inline>, b: seq<Inline>)
    requires NoEmptyPiece(a) && NoEmptyPiece(b)
    ensures AppendPart(Export(a), Export(b))
         == Export(if b == [] then a else if a == [] then b else a + [Inline([NEWLINE], [])] + b)
  {
    EmptyText(a);
    EmptyText(b);
    NoPieces();
    JoinedLines(a, b);
    hide TextOf, FacetsOf;
    if a == [] { assert ShiftFacets(FacetsOf(b), 0) == FacetsOf(b); }
  }

  lemma {:induction false} JoinPiecesExport(parts: seq<AtText>, lines: seq<seq<Inline>>)
    requires |parts| == |lines|
    requires forall i :: 0 <= i < |lines| ==> parts[i] == Export(lines[i]) && NoEmptyPiece(lines[i])
    ensures JoinParts(parts) == Export(JoinPieces(lines)) && NoEmptyPiece(JoinPieces(lines))
  {
    NoPieces();
    hide TextOf, FacetsOf, ByteLength;
    if lines == [] {
    } else {
      JoinPiecesExport(parts[..|parts| - 1], lines[..|lines| - 1]);
      AppendPartExport(JoinPieces(lines[..|lines| - 1]), lines[|lines| - 1]);
    }
  }

  lemma BlockPiecesExport(b: Block)
    ensures BlockToAtProto(b) == Export(BlockPieces(b)) && NoEmptyPiece(BlockPieces(b))
  {
    match b {
      case Paragraph(children) => InlinePiecesExport(children);
      case Blockquote(children) => InlinePiecesExport(children);
      case ListItem(children) => InlinePiecesExport(children);
      case List(_, items) =>
        forall i | 0 <= i < |items|
          ensures ItemsToAtProto(items)[i] == Export(ItemPieces(items)[i]) && NoEmptyPiece(ItemPieces(items)[i])
        {
          InlinePiecesExport(AsListItem(items[i]).children);
        }
        JoinPiecesExport(ItemsToAtProto(items), ItemPieces(items));
      case CodeBlock(text, _) => TextPieceExport(text);
      case LineBreak => TextPieceExport([NEWLINE]);
      case Attachment(_, _, alt, title) => TextPieceExport(AttachmentText(alt, title));
      case UnknownBlock(_) =>
    }
  }

  lemma TextPieceExport(text: Str)
    ensures AtText(text, []) == Export(TextPiece(text))
  {
    NoPieces();
    PlainSaysNothing(text);
    hide TextOf, FacetsOf, ByteLength, Features;
    PushPiece([], Inline(text, []));
    assert [] + [Inline(text, [])] == [Inline(text, [])] && [] + text == text;
  }

  /**
   For every document and any strings, nested joins and shifts come to this: the text is the
   concatenation of its pieces, and every facet starts and ends at the byte offset where the node that produced it starts and ends.
   */
  lemma ExportIsPieces(blocks: seq<Block>)
    requires IsRichTextDocument(blocks)
    ensures RichTextToAtProto(blocks) == Export(DocumentPieces(blocks)) && NoEmptyPiece(DocumentPieces(blocks))
  {
    var lines := seq(|blocks|, i requires 0 <= i < |blocks| => BlockPieces(blocks[i]));
    forall i | 0 <= i < |blocks| ensures BlocksToAtProto(blocks)[i] == Export(lines[i]) && NoEmptyPiece(lines[i]) {
      BlockPiecesExport(blocks[i]);
    }
    JoinPiecesExport(BlocksToAtProto(blocks), lines);
  }

  // ---------------------------------------------------------------- facets are ordered and in range

  ghost predicate FacetsInOrder(facets: seq<Facet>, length: nat) {
    && (forall i :: 0 <= i < |facets| ==> facets[i].byteStart < facets[i].byteEnd <= length && facets[i].features != [])
    && (forall i, j :: 0 <= i < j < |facets| ==> facets[i].byteEnd <= facets[j].byteStart)
  }

  lemma {:induction false} FacetsOfInOrder(ps: seq<Inline>)
    requires NoEmptyPiece(ps)
    ensures FacetsInOrder(FacetsOf(ps), ByteLength(TextOf(ps)))
  {
    hide Features;
    if ps == [] {
    } else {
      FacetsOfInOrder(ps[..|ps| - 1]);
      ByteLengthGrows(TextOf(ps[..|ps| - 1]), ps[|ps| - 1].text);
    }
  }

  /** Facets of every document are non-empty, strictly ordered, disjoint and inside the text, whatever the strings are. */
  lemma FacetsAreOrderedAndInRange(blocks: seq<Block>)
    ensures var r := RichTextToAtProto(blocks); FacetsInOrder(r.facets, ByteLength(r.text))
  {
    if IsRichTextDocument(blocks) {
      ExportIsPieces(blocks);
      FacetsOfInOrder(DocumentPieces(blocks));
    }
  }

  // ---------------------------------------------------------------- facets cover exactly their node

  function Annotated(ps: seq<Inline>): seq<Inline> {
    if ps == [] then []
    else Annotated(ps[..|ps| - 1]) + if Features(ps[|ps| - 1]) == [] then [] else [ps[|ps| - 1]]
  }

  /** No two neighbouring pieces meet in the middle of a character. */
  ghost predicate NoSplitCharacter(ps: seq<Inline>) {
    forall i :: 0 < i < |ps| ==> !JoinsHalves(ps[i - 1].text, ps[i].text)
  }

  /** One facet per node, in order, each cutting the node's own bytes out of the text. */
  ghost predicate Cover(facets: seq<Facet>, nodes: seq<Inline>, bytes: seq<Byte>) {
    && |facets| == |nodes|
    && forall i :: 0 <= i < |nodes| ==>
         && facets[i].byteStart <= facets[i].byteEnd <= |bytes|
         && facets[i].features == Features(nodes[i])
         && bytes[facets[i].byteStart..facets[i].byteEnd] == Utf8(nodes[i].text)
  }

  lemma CoverPush(facets: seq<Facet>, nodes: seq<Inline>, bytes: seq<Byte>, p: Inline)
    requires Cover(facets, nodes, bytes)
    ensures Cover(facets + FacetAt(|bytes|, |bytes| + |Utf8(p.text)|, Features(p)),
                  nodes + (if Features(p) == [] then [] else [p]), bytes + Utf8(p.text))
  {
    hide Utf8;
    var more := bytes + Utf8(p.text);
    forall i | 0 <= i < |nodes|
      ensures more[facets[i].byteStart..facets[i].byteEnd] == bytes[facets[i].byteStart..facets[i].byteEnd]
    {}
    assert more[|bytes|..|more|] == Utf8(p.text);
  }

  lemma NothingCovered()
    ensures Cover(FacetsOf([]), Annotated([]), Utf8(TextOf([])))
  {}

  lemma AnnotatedPush(ps: seq<Inline>, p: Inline)
    ensures Annotated(ps + [p]) == Annotated(ps) + if Features(p) == [] then [] else [p]
  {
    assert (ps + [p])[..|ps|] == ps;
  }

  lemma {:induction false} FacetsCoverNodes(ps: seq<Inline>)
    requires NoEmptyPiece(ps) && NoSplitCharacter(ps)
    ensures Cover(FacetsOf(ps), Annotated(ps), Utf8(TextOf(ps)))
  {
    NothingCovered();
    hide TextOf, FacetsOf, ByteLength, Utf8, Annotated, Cover;
    if ps != [] {
      var front, last := ps[..|ps| - 1], ps[|ps| - 1];
      FacetsCoverNodes(front);
      if front != [] {
        LastUnit(front);
        assert !JoinsHalves(ps[|ps| - 2].text, last.text);
      } else {
        NoPieces();
        assert front == [];
      }
      Utf8Concat(TextOf(front), last.text);
      assert ps == front + [last];
      PushPiece(front, last);
      AnnotatedPush(front, last);
      CoverPush(FacetsOf(front), Annotated(front), Utf8(TextOf(front)), last);
      ByteLengthIsUtf8Length(TextOf(front));
      ByteLengthIsUtf8Length(TextOf(front) + last.text);
    } else {
      NoPieces();
    }
  }

  lemma LastUnit(ps: seq<Inline>)
    requires ps != [] && NoEmptyPiece(ps)
    ensures TextOf(ps) != [] && TextOf(ps)[|TextOf(ps)| - 1] == ps[|ps| - 1].text[|ps[|ps| - 1].text| - 1]
  {}

  ghost predicate WellFormedInline(nodes: seq<Inline>) {
    forall i :: 0 <= i < |nodes| ==> WellFormed(nodes[i].text)
  }

  /** Every inline node of the document is well-formed UTF-16; code blocks and attachments may be anything. */
  ghost predicate WellFormedNodes(blocks: seq<Block>) {
    forall i :: 0 <= i < |blocks| ==>
      match blocks[i]
      case Paragraph(children) => WellFormedInline(children)
      case Blockquote(children) => WellFormedInline(children)
      case ListItem(children) => WellFormedInline(children)
      case List(_, items) => forall j :: 0 <= j < |items| ==> WellFormedInline(AsListItem(items[j]).children)
      case _ => true
  }

  lemma {:induction false} InlineNeverSplits(nodes: seq<Inline>)
    requires WellFormedInline(nodes)
    ensures NoSplitCharacter(InlinePieces(nodes))
    ensures forall i :: 0 <= i < |InlinePieces(nodes)| ==> WellFormed(InlinePieces(nodes)[i].text)
  {
    if nodes == [] {
    } else {
      InlineNeverSplits(nodes[..|nodes| - 1]);
      var front := InlinePieces(nodes[..|nodes| - 1]);
      if front != [] { WellFormedNeverJoins(front[|front| - 1].text, nodes[|nodes| - 1].text); }
    }
  }

  lemma {:induction false} JoinNeverSplits(lines: seq<seq<Inline>>)
    requires forall i :: 0 <= i < |lines| ==> NoSplitCharacter(lines[i])
    ensures NoSplitCharacter(JoinPieces(lines))
  {
    if lines == [] {
    } else {
      JoinNeverSplits(lines[..|lines| - 1]);
    }
  }

  /**
   With well-formed nodes, the bytes of the exported text between a facet's offsets are exactly
   the UTF-8 encoding of the annotated node it came from, through list nesting and block joins.
   */
  lemma FacetsCoverExactly(blocks: seq<Block>)
    requires IsRichTextDocument(blocks) && WellFormedNodes(blocks)
    ensures Cover(RichTextToAtProto(blocks).facets, Annotated(DocumentPieces(blocks)), Utf8(RichTextToAtProto(blocks).text))
  {
    var lines := seq(|blocks|, i requires 0 <= i < |blocks| => BlockPieces(blocks[i]));
    forall i | 0 <= i < |blocks| ensures NoSplitCharacter(lines[i]) {
      match blocks[i] {
        case Paragraph(children) => InlineNeverSplits(children);
        case Blockquote(children) => InlineNeverSplits(children);
        case ListItem(children) => InlineNeverSplits(children);
        case List(_, items) =>
          forall j | 0 <= j < |items| ensures NoSplitCharacter(ItemPieces(items)[j]) {
            InlineNeverSplits(AsListItem(items[j]).children);
          }
          JoinNeverSplits(ItemPieces(items));
        case _ =>
      }
    }
    JoinNeverSplits(lines);
    ExportIsPieces(blocks);
    FacetsCoverNodes(DocumentPieces(blocks));
  }

  // ---------------------------------------------------------------- the text is the plain text

  lemma {:induction false} InlineText(nodes: seq<Inline>)
    ensures InlineToAtProto(nodes).text == TextOf(nodes)
  {
    if nodes == [] {
    } else {
      InlineText(nodes[..|nodes| - 1]);
    }
  }

  lemma {:induction false} JoinText(parts: seq<AtText>, texts: seq<Str>)
    requires |parts| == |texts| && forall i :: 0 <= i < |parts| ==> parts[i].text == texts[i]
    ensures JoinParts(parts).text == JoinLines(texts)
  {
    if parts == [] {
    } else {
      JoinText(parts[..|parts| - 1], texts[..|texts| - 1]);
    }
  }

  /** The exported text is the plain-text export, for every document, valid or not. */
  lemma TextIsPlainText(blocks: seq<Block>)
    ensures RichTextToAtProto(blocks).text == RichTextToPlainText(blocks)
  {
    if IsRichTextDocument(blocks) {
      forall i | 0 <= i < |blocks| ensures BlockToAtProto(blocks[i]).text == BlockToPlainText(blocks[i]) {
        match blocks[i] {
          case Paragraph(children) => InlineText(children);
          case Blockquote(children) => InlineText(children);
          case ListItem(children) => InlineText(children);
          case List(_, items) =>
            assert ValidBlock(blocks[i]);
            forall j | 0 <= j < |items| ensures ItemToAtProto(items[j]).text == BlockToPlainText(items[j]) {
              InlineText(items[j].children);
            }
            JoinText(ItemsToAtProto(items), BlockTexts(items));
          case _ =>
        }
      }
      JoinText(BlocksToAtProto(blocks), BlockTexts(blocks));
    }
  }

  // ---------------------------------------------------------------- the code that builds it

  /** The result object that the export appends to. */
  class AtProtoText {
    var text: Str
    var facets: seq<Facet>

    constructor ()
      ensures View() == EMPTY
    {
      text, facets := [], [];
    }

    ghost function View(): AtText
      reads this
    {
      AtText(text, facets)
    }

    method AppendInlineNode(node: Inline)
      modifies this
      ensures View() == AppendInline(old(View()), node)
    {
      if node.text == [] {
        return;
      }
      var byteStart := ByteLength(text);
      text := text + node.text;
      var byteEnd := ByteLength(text);
      var features := Features(node);
      if |features| == 0 {
        return;
      }
      facets := facets + [Facet(byteStart, byteEnd, features)];
    }

    method AppendTextPart(part: AtText)
      modifies this
      ensures View() == AppendPart(old(View()), part)
    {
      if |part.text| == 0 {
        return;
      }
      if |text| > 0 {
        text := text + [NEWLINE];
      }
      var byteOffset := ByteLength(text);
      text := text + part.text;
      facets := facets + ShiftFacets(part.facets, byteOffset);
    }
  }

  method InlineNodesToAtProtoText(nodes: seq<Inline>) returns (result: AtProtoText)
    ensures fresh(result) && result.View() == InlineToAtProto(nodes)
  {
    result := new AtProtoText();
    for i := 0 to |nodes|
      invariant fresh(result) && result.View() == InlineToAtProto(nodes[..i])
    {
      assert nodes[..i + 1][..i] == nodes[..i];
      result.AppendInlineNode(nodes[i]);
    }
    assert nodes[..|nodes|] == nodes;
  }

  method JoinAtProtoTextParts(parts: seq<AtText>) returns (result: AtProtoText)
    ensures fresh(result) && result.View() == JoinParts(parts)
  {
    result := new AtProtoText();
    for i := 0 to |parts|
      invariant fresh(result) && result.View() == JoinParts(parts[..i])
    {
      assert parts[..i + 1][..i] == parts[..i];
      result.AppendTextPart(parts[i]);
    }
    assert parts[..|parts|] == parts;
  }
}
