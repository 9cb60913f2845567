/** Farcaster export: mentions become byte positions in the text, links become at most two embeds. */
module Farcaster {
  import opened Wrappers
  import opened JsStrings
  import opened RichText
  import opened RichTextPlain

  const MAX_EMBEDS := 2
  const MAX_EMBED_BYTES := 256
  const MAX_MENTIONS := 10
  const MAX_SAFE_INTEGER := 9007199254740991

  datatype Cast = Cast(text: Str, embeds: seq<Str>, mentions: seq<nat>, positions: seq<nat>)

  const EMPTY := Cast([], [], [], [])

  // ---------------------------------------------------------------- what a node carries

  predicate IsDigits(s: Str) { forall i :: 0 <= i < |s| ==> IsDigit(s[i]) }

  function DigitsValue(s: Str): nat
    requires IsDigits(s)
  {
    if s == [] then 0 else DigitsValue(s[..|s| - 1]) * 10 + (s[|s| - 1] - 48)
  }

  function ParseFid(id: MarkId): Option<nat> {
    match id
    case NoId => None
    case NumberId(n) => if 0 < n <= MAX_SAFE_INTEGER then Some(n) else None
    case TextId(s) =>
      if s != [] && IsDigits(s) && s[0] != 48 && DigitsValue(s) <= MAX_SAFE_INTEGER then Some(DigitsValue(s)) else None
  }

  /** The fid of the first mention mark. */
  function MentionFid(marks: seq<Mark>): Option<nat> {
    if marks == [] then None
    else if marks[0].kind.Mention? then ParseFid(marks[0].id)
    else MentionFid(marks[1..])
  }

  predicate EligibleUrl(url: Str) {
    url != [] && ByteLength(url) <= MAX_EMBED_BYTES
  }

  function LinkUrls(marks: seq<Mark>): seq<Str> {
    if marks == [] then []
    else
      var url := SanitizeAbsoluteHref(OrEmpty(marks[0].href));
      (if marks[0].kind.Link? && EligibleUrl(url) then [url] else []) + LinkUrls(marks[1..])
  }

  function NodeFid(node: Inline): Option<nat> { MentionFid(NormalizeMarks(node.marks)) }

  function NodeUrls(node: Inline): seq<Str> { LinkUrls(NormalizeMarks(node.marks)) }

  // ---------------------------------------------------------------- the export

  function AddEmbed(embeds: seq<Str>, url: Str): seq<Str> {
    if url in embeds || |embeds| >= MAX_EMBEDS then embeds else embeds + [url]
  }

  function AddEmbeds(embeds: seq<Str>, urls: seq<Str>): seq<Str> {
    if urls == [] then embeds else AddEmbed(AddEmbeds(embeds, urls[..|urls| - 1]), urls[|urls| - 1])
  }

  /** A node may become a mention: it names a fid, the document has room, and no mention sits at this position of the block. */
  predicate CanMention(r: Cast, fid: Option<nat>, count: nat) {
    fid.Some? && count < MAX_MENTIONS && ByteLength(r.text) !in r.positions
  }

  /** The result together with the mention counter shared by the whole document. */
  function AppendInline(r: Cast, node: Inline, count: nat): (Cast, nat) {
    var embedded := r.(embeds := AddEmbeds(r.embeds, NodeUrls(node)));
    if node.text == [] then (embedded, count)
    else if CanMention(r, NodeFid(node), count) then
      (embedded.(mentions := r.mentions + [NodeFid(node).value], positions := r.positions + [ByteLength(r.text)]), count + 1)
    else (embedded.(text := r.text + node.text), count)
  }

  function InlineCast(nodes: seq<Inline>, count: nat): (Cast, nat) {
    if nodes == [] then (EMPTY, count)
    else
      var (r, n) := InlineCast(nodes[..|nodes| - 1], count);
      AppendInline(r, nodes[|nodes| - 1], n)
  }

  predicate HasContent(r: Cast) {
    |r.text| > 0 || |r.embeds| > 0 || |r.mentions| > 0
  }

  function Shift(positions: seq<nat>, offset: nat): (r: seq<nat>)
    ensures |r| == |positions|
    ensures forall i :: 0 <= i < |positions| ==> r[i] == positions[i] + offset
  {
    seq(|positions|, i requires 0 <= i < |positions| => positions[i] + offset)
  }

  function AppendPart(r: Cast, part: Cast): Cast {
    if !HasContent(part) then r
    else
      var base := if HasContent(r) then r.text + [NEWLINE] else r.text;
      Cast(base + part.text, AddEmbeds(r.embeds, part.embeds), r.mentions + part.mentions,
           r.positions + Shift(part.positions, ByteLength(base)))
  }

  function ItemsCast(items: seq<Block>, count: nat): (Cast, nat) {
    if items == [] then (EMPTY, count)
    else
      var (r, n) := ItemsCast(items[..|items| - 1], count);
      var (part, m) := InlineCast(AsListItem(items[|items| - 1]).children, n);
      (AppendPart(r, part), m)
  }

  function BlockCast(b: Block, count: nat): (Cast, nat) {
    match b
    case Paragraph(children) => InlineCast(children, count)
    case Blockquote(children) => InlineCast(children, count)
    case ListItem(children) => InlineCast(children, count)
    case CodeBlock(text, _) => (EMPTY.(text := text), count)
    case List(_, items) => ItemsCast(items, count)
    case LineBreak => (EMPTY.(text := [NEWLINE]), count)
    case Attachment(_, _, alt, title) => (EMPTY.(text := AttachmentText(alt, title)), count)
    case UnknownBlock(_) => (EMPTY, count)
  }

  function BlocksCast(blocks: seq<Block>, count: nat): (Cast, nat) {
    if blocks == [] then (EMPTY, count)
    else
      var (r, n) := BlocksCast(blocks[..|blocks| - 1], count);
      var (part, m) := BlockCast(blocks[|blocks| - 1], n);
      (AppendPart(r, part), m)
  }

  function RichTextToFarcaster(blocks: seq<Block>): Cast {
    if !IsRichTextDocument(blocks) then EMPTY else BlocksCast(blocks, 0).0
  }

  // ---------------------------------------------------------------- reference: pieces and urls, no offsets, no caps

  datatype Piece = Words(text: Str) | At(fid: nat)

  /** What a block contributes: its pieces in order and every eligible link url, repeats included. */
  datatype Line = Line(pieces: seq<Piece>, urls: seq<Str>)

  function PieceText(p: Piece): Str {
    if p.Words? then p.text else []
  }

  function Concat(ps: seq<Piece>): Str {
    if ps == [] then [] else Concat(ps[..|ps| - 1]) + PieceText(ps[|ps| - 1])
  }

  function Fids(ps: seq<Piece>): seq<nat> {
    if ps == [] then [] else Fids(ps[..|ps| - 1]) + if ps[|ps| - 1].At? then [ps[|ps| - 1].fid] else []
  }

  /** Where the mentions sit: the byte length of everything written before them. */
  function Positions(ps: seq<Piece>): seq<nat> {
    if ps == [] then []
    else Positions(ps[..|ps| - 1]) + if ps[|ps| - 1].At? then [ByteLength(Concat(ps[..|ps| - 1]))] else []
  }

  /** Each url once, at its first occurrence. */
  function Distinct(urls: seq<Str>): seq<Str> {
    if urls == [] then []
    else Distinct(urls[..|urls| - 1]) + if urls[|urls| - 1] in urls[..|urls| - 1] then [] else [urls[|urls| - 1]]
  }

  function FirstTwo(urls: seq<Str>): seq<Str> {
    if |Distinct(urls)| <= 2 then Distinct(urls) else Distinct(urls)[..2]
  }

  function Render(line: Line): Cast {
    Cast(Concat(line.pieces), FirstTwo(line.urls), Fids(line.pieces), Positions(line.pieces))
  }

  /** A mention is emitted unless the document is full or the piece before it in the block is a mention too. */
  function AppendToLine(line: Line, node: Inline, n: nat): (Line, nat) {
    var urls := line.urls + NodeUrls(node);
    if node.text == [] then (Line(line.pieces, urls), n)
    else if NodeFid(node).Some? && n < 10 && !(line.pieces != [] && line.pieces[|line.pieces| - 1].At?)
    then (Line(line.pieces + [At(NodeFid(node).value)], urls), n + 1)
    else (Line(line.pieces + [Words(node.text)], urls), n)
  }

  function InlineLine(nodes: seq<Inline>, count: nat): (Line, nat) {
    if nodes == [] then (Line([], []), count)
    else
      var (line, n) := InlineLine(nodes[..|nodes| - 1], count);
      AppendToLine(line, nodes[|nodes| - 1], n)
  }

  predicate HasLine(line: Line) {
    line.pieces != [] || line.urls != []
  }

  function JoinLine(a: Line, b: Line): Line {
    if !HasLine(b) then a
    else Line(a.pieces + (if HasLine(a) then [Words([NEWLINE])] else []) + b.pieces, a.urls + b.urls)
  }

  function ItemsLine(items: seq<Block>, count: nat): (Line, nat) {
    if items == [] then (Line([], []), count)
    else
      var (r, n) := ItemsLine(items[..|items| - 1], count);
      var (part, m) := InlineLine(AsListItem(items[|items| - 1]).children, n);
      (JoinLine(r, part), m)
  }

  function TextLine(text: Str): Line {
    Line(if text == [] then [] else [Words(text)], [])
  }

  function BlockLine(b: Block, count: nat): (Line, nat) {
    match b
    case Paragraph(children) => InlineLine(children, count)
    case Blockquote(children) => InlineLine(children, count)
    case ListItem(children) => InlineLine(children, count)
    case CodeBlock(text, _) => (TextLine(text), count)
    case List(_, items) => ItemsLine(items, count)
    case LineBreak => (TextLine([NEWLINE]), count)
    case Attachment(_, _, alt, title) => (TextLine(AttachmentText(alt, title)), count)
    case UnknownBlock(_) => (Line([], []), count)
  }

  function BlocksLine(blocks: seq<Block>, count: nat): (Line, nat) {
    if blocks == [] then (Line([], []), count)
    else
      var (r, n) := BlocksLine(blocks[..|blocks| - 1], count);
      var (part, m) := BlockLine(blocks[|blocks| - 1], n);
      (JoinLine(r, part), m)
  }

  // ---------------------------------------------------------------- embeds: capping early equals capping late

  ghost predicate NoRepeats(urls: seq<Str>) {
    forall i, j :: 0 <= i < j < |urls| ==> urls[i] != urls[j]
  }

  lemma {:induction false} DistinctIsDistinct(urls: seq<Str>)
    ensures NoRepeats(Distinct(urls))
    ensures forall u :: u in Distinct(urls) <==> u in urls
  {
    if urls == [] {
    } else {
      var front, last := urls[..|urls| - 1], urls[|urls| - 1];
      DistinctIsDistinct(front);
      assert urls == front + [last];
      DistinctPush(front, last);
      hide Distinct;
    }
  }

  lemma DistinctPush(urls: seq<Str>, u: Str)
    ensures Distinct(urls + [u]) == Distinct(urls) + if u in urls then [] else [u]
  {
    assert (urls + [u])[..|urls|] == urls;
  }

  lemma AddEmbedsPush(embeds: seq<Str>, urls: seq<Str>, u: Str)
    ensures AddEmbeds(embeds, urls + [u]) == AddEmbed(AddEmbeds(embeds, urls), u)
  {
    assert (urls + [u])[..|urls|] == urls;
  }

  lemma FirstTwoPush(urls: seq<Str>, u: Str)
    ensures FirstTwo(urls + [u]) == AddEmbed(FirstTwo(urls), u)
  {
    DistinctIsDistinct(urls);
    DistinctPush(urls, u);
    hide Distinct;
  }

  lemma NothingAdded(embeds: seq<Str>)
    ensures AddEmbeds(embeds, []) == embeds && FirstTwo([]) == []
  {}

  /** Adding urls one by one under the cap gives the first two distinct ones of everything seen. */
  lemma {:induction false} AddEmbedsIsFirstTwo(before: seq<Str>, urls: seq<Str>)
    ensures AddEmbeds(FirstTwo(before), urls) == FirstTwo(before + urls)
  {
    NothingAdded(FirstTwo(before));
    hide AddEmbeds, FirstTwo, AddEmbed;
    if urls == [] {
      assert before + urls == before;
    } else {
      var front, last := urls[..|urls| - 1], urls[|urls| - 1];
      AddEmbedsIsFirstTwo(before, front);
      AddEmbedsPush(FirstTwo(before), front, last);
      FirstTwoPush(before + front, last);
      assert urls == front + [last] && before + urls == before + front + [last];
    }
  }

  /** Capping a part first loses nothing: its two first urls decide as much as all of them. */
  lemma {:induction false} CappedPartSuffices(before: seq<Str>, urls: seq<Str>)
    ensures AddEmbeds(FirstTwo(before), FirstTwo(urls)) == FirstTwo(before + urls)
  {
    NothingAdded(FirstTwo(before));
    if urls == [] {
      assert before + urls == before;
    } else {
      var front, last := urls[..|urls| - 1], urls[|urls| - 1];
      CappedPartSuffices(before, front);
      assert urls == front + [last] && before + urls == before + front + [last];
      FirstTwoPush(front, last);
      FirstTwoPush(before + front, last);
      AddEmbedsPush(FirstTwo(before), FirstTwo(front), last);
      CapKeepsMembers(before, front, last);
    }
  }

  lemma CapKeepsMembers(before: seq<Str>, front: seq<Str>, last: Str)
    ensures last in FirstTwo(front) || |FirstTwo(front)| >= MAX_EMBEDS
            ==> AddEmbed(FirstTwo(before + front), last) == FirstTwo(before + front)
  {
    DistinctIsDistinct(front);
    DistinctIsDistinct(before + front);
    var all := Distinct(before + front);
    if |FirstTwo(front)| >= MAX_EMBEDS {
      var x, y := Distinct(front)[0], Distinct(front)[1];
      assert x in Distinct(front) && y in Distinct(front);
      assert x in all && y in all;
    }
    hide Distinct;
  }

  lemma {:induction false} FirstTwoEmpty(urls: seq<Str>)
    ensures FirstTwo(urls) == [] <==> urls == []
  {
    DistinctIsDistinct(urls);
    if urls == [] {
    } else {
      assert urls[0] in Distinct(urls);
    }
  }

  // ---------------------------------------------------------------- positions

  ghost predicate NoEmptyWords(ps: seq<Piece>) {
    forall i :: 0 <= i < |ps| ==> PieceText(ps[i]) != [] || ps[i].At?
  }

  lemma PushPiece(ps: seq<Piece>, p: Piece)
    ensures Concat(ps + [p]) == Concat(ps) + PieceText(p)
    ensures Fids(ps + [p]) == Fids(ps) + if p.At? then [p.fid] else []
    ensures Positions(ps + [p]) == Positions(ps) + if p.At? then [ByteLength(Concat(ps))] else []
  {
    assert (ps + [p])[..|ps|] == ps;
  }

  lemma NoPieces()
    ensures Concat([]) == [] && Fids([]) == [] && Positions([]) == []
  {}

  /** Positions of a line never exceed its byte length, and reach it only right behind a trailing mention. */
  lemma {:induction false} PositionsInRange(ps: seq<Piece>)
    requires NoEmptyWords(ps)
    ensures forall i :: 0 <= i < |Positions(ps)| ==> Positions(ps)[i] <= ByteLength(Concat(ps))
    ensures ByteLength(Concat(ps)) in Positions(ps) <==> ps != [] && ps[|ps| - 1].At?
    ensures |Positions(ps)| == |Fids(ps)|
  {
    NoPieces();
    hide Concat, Positions, Fids, ByteLength;
    if ps == [] {
    } else {
      var front, last := ps[..|ps| - 1], ps[|ps| - 1];
      PositionsInRange(front);
      assert ps == front + [last];
      PushPiece(front, last);
      if last.Words? {
        ByteLengthGrows(Concat(front), last.text);
      } else {
        assert Concat(ps) == Concat(front);
      }
    }
  }

  lemma AppendRenders(line: Line, node: Inline, n: nat)
    requires NoEmptyWords(line.pieces)
    ensures AppendInline(Render(line), node, n) == (Render(AppendToLine(line, node, n).0), AppendToLine(line, node, n).1)
    ensures NoEmptyWords(AppendToLine(line, node, n).0.pieces)
  {
    hide Concat, Positions, Fids, ByteLength, FirstTwo, AddEmbeds, NodeUrls, NodeFid, Render;
    var urls := line.urls + NodeUrls(node);
    RenderRoom(line, NodeUrls(node));
    RenderPush(line, urls, Words(node.text));
    if NodeFid(node).Some? { RenderPush(line, urls, At(NodeFid(node).value)); }
    assert NoEmptyWords(AppendToLine(line, node, n).0.pieces);
  }

  lemma RenderRoom(line: Line, more: seq<Str>)
    requires NoEmptyWords(line.pieces)
    ensures ByteLength(Render(line).text) in Render(line).positions <==> line.pieces != [] && line.pieces[|line.pieces| - 1].At?
    ensures AddEmbeds(Render(line).embeds, more) == FirstTwo(line.urls + more)
    ensures Render(Line(line.pieces, line.urls + more)) == Render(line).(embeds := FirstTwo(line.urls + more))
  {
    PositionsInRange(line.pieces);
    AddEmbedsIsFirstTwo(line.urls, more);
    hide Concat, Positions, Fids, ByteLength, FirstTwo, AddEmbeds;
  }

  ghost function WithPiece(r: Cast, p: Piece): Cast {
    if p.Words? then r.(text := r.text + p.text)
    else r.(mentions := r.mentions + [p.fid], positions := r.positions + [ByteLength(r.text)])
  }

  lemma RenderPush(line: Line, urls: seq<Str>, p: Piece)
    ensures Render(Line(line.pieces + [p], urls)) == WithPiece(Render(line), p).(embeds := FirstTwo(urls))
  {
    PushPiece(line.pieces, p);
    hide Concat, Positions, Fids, ByteLength, FirstTwo;
    assert Concat(line.pieces) + [] == Concat(line.pieces);
  }

  lemma NothingRenders()
    ensures Render(Line([], [])) == EMPTY
  {}

  /** The loop over one inline list writes exactly the rendering of its line. */
  lemma {:induction false} InlineRenders(nodes: seq<Inline>, count: nat)
    ensures InlineCast(nodes, count) == (Render(InlineLine(nodes, count).0), InlineLine(nodes, count).1)
    ensures NoEmptyWords(InlineLine(nodes, count).0.pieces)
  {
    NothingRenders();
    hide Render, AppendInline, AppendToLine;
    if nodes == [] {
    } else {
      InlineRenders(nodes[..|nodes| - 1], count);
      var (line, n) := InlineLine(nodes[..|nodes| - 1], count);
      AppendRenders(line, nodes[|nodes| - 1], n);
    }
  }

  lemma {:induction false} PositionsAppend(a: seq<Piece>, b: seq<Piece>)
    requires Concat(a) != [] ==> Concat(a)[|Concat(a)| - 1] == NEWLINE
    ensures Concat(a + b) == Concat(a) + Concat(b)
    ensures Fids(a + b) == Fids(a) + Fids(b)
    ensures Positions(a + b) == Positions(a) + Shift(Positions(b), ByteLength(Concat(a)))
  {
    NoPieces();
    hide Concat, Positions, Fids, ByteLength;
    if b == [] {
      assert a + b == a;
    } else {
      var front, last := b[..|b| - 1], b[|b| - 1];
      PositionsAppend(a, front);
      assert a + b == a + front + [last] && b == front + [last];
      PushPiece(a + front, last);
      PushPiece(front, last);
      ByteLengthConcat(Concat(a), Concat(front));
    }
  }

  lemma ContentIffLine(line: Line)
    requires NoEmptyWords(line.pieces)
    ensures HasContent(Render(line)) <==> HasLine(line)
  {
    FirstTwoEmpty(line.urls);
    NoPieces();
    if line.pieces != [] {
      PushPiece(line.pieces[..|line.pieces| - 1], line.pieces[|line.pieces| - 1]);
      assert line.pieces == line.pieces[..|line.pieces| - 1] + [line.pieces[|line.pieces| - 1]];
    }
    hide Concat, Positions, Fids, FirstTwo;
  }

  lemma JoinKeepsWords(a: Line, b: Line)
    requires NoEmptyWords(a.pieces) && NoEmptyWords(b.pieces)
    ensures NoEmptyWords(JoinLine(a, b).pieces)
  {}

  lemma JoinRenders(a: Line, b: Line)
    requires NoEmptyWords(a.pieces) && NoEmptyWords(b.pieces)
    ensures AppendPart(Render(a), Render(b)) == Render(JoinLine(a, b)) && NoEmptyWords(JoinLine(a, b).pieces)
  {
    JoinKeepsWords(a, b);
    ContentIffLine(b);
    if HasLine(b) { JoinWithLine(a, b); }
    hide Render, NoEmptyWords, HasContent, HasLine;
  }

  lemma JoinWithLine(a: Line, b: Line)
    requires NoEmptyWords(a.pieces) && NoEmptyWords(b.pieces) && HasLine(b)
    ensures AppendPart(Render(a), Render(b)) == Render(JoinLine(a, b))
  {
    ContentIffLine(a);
    ContentIffLine(b);
    CappedPartSuffices(a.urls, b.urls);
    hide Render, Concat, Fids, Positions, FirstTwo, AddEmbeds, ByteLength, HasContent, AppendPart, JoinLine, NoEmptyWords;
    var base := a.pieces + if HasLine(a) then [Words([NEWLINE])] else [];
    BaseOfJoin(a.pieces, base, HasLine(a));
    PositionsAppend(base, b.pieces);
    JoinedParts(a, b, base);
  }

  lemma BaseOfJoin(pieces: seq<Piece>, base: seq<Piece>, separated: bool)
    requires base == pieces + if separated then [Words([NEWLINE])] else []
    requires !separated ==> pieces == []
    ensures Concat(base) == Concat(pieces) + if separated then [NEWLINE] else []
    ensures Fids(base) == Fids(pieces) && Positions(base) == Positions(pieces)
  {
    PushPiece(pieces, Words([NEWLINE]));
    NoPieces();
    hide Concat, Fids, Positions;
    if !separated { assert base == pieces; }
  }

  lemma JoinedParts(a: Line, b: Line, base: seq<Piece>)
    requires HasLine(b) && base == a.pieces + if HasLine(a) then [Words([NEWLINE])] else []
    requires HasContent(Render(a)) == HasLine(a) && HasContent(Render(b))
    requires Concat(base) == Concat(a.pieces) + if HasLine(a) then [NEWLINE] else []
    requires Fids(base) == Fids(a.pieces) && Positions(base) == Positions(a.pieces)
    requires Concat(base + b.pieces) == Concat(base) + Concat(b.pieces)
    requires Fids(base + b.pieces) == Fids(base) + Fids(b.pieces)
    requires Positions(base + b.pieces) == Positions(base) + Shift(Positions(b.pieces), ByteLength(Concat(base)))
    requires AddEmbeds(FirstTwo(a.urls), FirstTwo(b.urls)) == FirstTwo(a.urls + b.urls)
    ensures AppendPart(Render(a), Render(b)) == Render(JoinLine(a, b))
  {
    hide Concat, Fids, Positions, FirstTwo, AddEmbeds, ByteLength, HasContent;
  }

  lemma {:induction false} ItemsRender(items: seq<Block>, count: nat)
    ensures ItemsCast(items, count) == (Render(ItemsLine(items, count).0), ItemsLine(items, count).1)
    ensures NoEmptyWords(ItemsLine(items, count).0.pieces)
  {
    NoPieces();
    NothingAdded([]);
    if items == [] {
    } else {
      var front, last := items[..|items| - 1], items[|items| - 1];
      ItemsRender(front, count);
      var (r, n) := ItemsLine(front, count);
      InlineRenders(AsListItem(last).children, n);
      JoinRenders(r, InlineLine(AsListItem(last).children, n).0);
      hide Render, JoinLine, AppendPart, InlineLine, InlineCast;
    }
  }

  lemma BlockRenders(b: Block, count: nat)
    ensures BlockCast(b, count) == (Render(BlockLine(b, count).0), BlockLine(b, count).1)
    ensures NoEmptyWords(BlockLine(b, count).0.pieces)
  {
    NoPieces();
    NothingAdded([]);
    match b {
      case Paragraph(children) => InlineRenders(children, count);
      case Blockquote(children) => InlineRenders(children, count);
      case ListItem(children) => InlineRenders(children, count);
      case List(_, items) => ItemsRender(items, count);
      case CodeBlock(text, _) => TextRenders(text);
      case LineBreak => TextRenders([NEWLINE]);
      case Attachment(_, _, alt, title) => TextRenders(AttachmentText(alt, title));
      case UnknownBlock(_) =>
    }
  }

  lemma TextRenders(text: Str)
    ensures Render(TextLine(text)) == EMPTY.(text := text)
  {
    NoPieces();
    NothingAdded([]);
    PushPiece([], Words(text));
    assert [] + [Words(text)] == [Words(text)] && [] + text == text;
  }

  lemma {:induction false} BlocksRender(blocks: seq<Block>, count: nat)
    ensures BlocksCast(blocks, count) == (Render(BlocksLine(blocks, count).0), BlocksLine(blocks, count).1)
    ensures NoEmptyWords(BlocksLine(blocks, count).0.pieces)
  {
    NoPieces();
    NothingAdded([]);
    if blocks == [] {
    } else {
      var front, last := blocks[..|blocks| - 1], blocks[|blocks| - 1];
      BlocksRender(front, count);
      var (r, n) := BlocksLine(front, count);
      BlockRenders(last, n);
      JoinRenders(r, BlockLine(last, n).0);
      hide Render, JoinLine, AppendPart, BlockLine, BlockCast;
    }
  }

  /**
   An invalid document gives the empty cast. For every valid one the text is its pieces in order, mentions sit at the byte length of what precedes
   them, and the embeds are the first two distinct eligible link urls of the flattened document,
   although the code caps and de-duplicates per inline list, per list and per document.
   */
  lemma {:induction false} CastIsRendering(blocks: seq<Block>)
    ensures RichTextToFarcaster(blocks) == if IsRichTextDocument(blocks) then Render(BlocksLine(blocks, 0).0) else EMPTY
  {
    BlocksRender(blocks, 0);
  }

  // ---------------------------------------------------------------- the urls of the flattened document

  function InlineUrls(nodes: seq<Inline>): seq<Str> {
    if nodes == [] then [] else InlineUrls(nodes[..|nodes| - 1]) + NodeUrls(nodes[|nodes| - 1])
  }

  function ItemUrls(items: seq<Block>): seq<Str> {
    if items == [] then [] else ItemUrls(items[..|items| - 1]) + InlineUrls(AsListItem(items[|items| - 1]).children)
  }

  function BlockUrls(b: Block): seq<Str> {
    match b
    case Paragraph(children) => InlineUrls(children)
    case Blockquote(children) => InlineUrls(children)
    case ListItem(children) => InlineUrls(children)
    case List(_, items) => ItemUrls(items)
    case _ => []
  }

  /** Every eligible link url of the document, in reading order, mentions and repetitions regardless. */
  function DocumentUrls(blocks: seq<Block>): seq<Str> {
    if blocks == [] then [] else DocumentUrls(blocks[..|blocks| - 1]) + BlockUrls(blocks[|blocks| - 1])
  }

  lemma {:induction false} InlineLineUrls(nodes: seq<Inline>, count: nat)
    ensures InlineLine(nodes, count).0.urls == InlineUrls(nodes)
  {
    hide NodeUrls, NodeFid;
    if nodes == [] {
    } else {
      InlineLineUrls(nodes[..|nodes| - 1], count);
    }
  }

  lemma JoinLineUrls(a: Line, b: Line)
    ensures JoinLine(a, b).urls == a.urls + b.urls
  {}

  lemma {:induction false} ItemsLineUrls(items: seq<Block>, count: nat)
    ensures ItemsLine(items, count).0.urls == ItemUrls(items)
  {
    hide InlineLine, JoinLine, InlineUrls;
    if items == [] {
    } else {
      var front, last := items[..|items| - 1], AsListItem(items[|items| - 1]).children;
      ItemsLineUrls(front, count);
      var (r, n) := ItemsLine(front, count);
      InlineLineUrls(last, n);
      JoinLineUrls(r, InlineLine(last, n).0);
    }
  }

  lemma BlockLineUrls(b: Block, count: nat)
    ensures BlockLine(b, count).0.urls == BlockUrls(b)
  {
    hide InlineLine, ItemsLine, InlineUrls, ItemUrls;
    match b {
      case Paragraph(children) => InlineLineUrls(children, count);
      case Blockquote(children) => InlineLineUrls(children, count);
      case ListItem(children) => InlineLineUrls(children, count);
      case List(_, items) => ItemsLineUrls(items, count);
      case _ =>
    }
  }

  lemma {:induction false} BlocksLineUrls(blocks: seq<Block>, count: nat)
    ensures BlocksLine(blocks, count).0.urls == DocumentUrls(blocks)
  {
    hide BlockLine, JoinLine, BlockUrls;
    if blocks == [] {
    } else {
      var front, last := blocks[..|blocks| - 1], blocks[|blocks| - 1];
      BlocksLineUrls(front, count);
      var (r, n) := BlocksLine(front, count);
      BlockLineUrls(last, n);
      JoinLineUrls(r, BlockLine(last, n).0);
    }
  }

  /** The embeds of every valid document are the first two distinct eligible link urls of the flattened document, in order. */
  lemma {:induction false} EmbedsAreFirstTwo(blocks: seq<Block>)
    requires IsRichTextDocument(blocks)
    ensures RichTextToFarcaster(blocks).embeds == FirstTwo(DocumentUrls(blocks))
  {
    CastIsRendering(blocks);
    BlocksLineUrls(blocks, 0);
    hide RichTextToFarcaster, BlocksLine, DocumentUrls, FirstTwo, IsRichTextDocument;
  }

  // ---------------------------------------------------------------- the shared counter and the order of positions

  ghost predicate Increasing(xs: seq<nat>) {
    forall i, j :: 0 <= i < j < |xs| ==> xs[i] < xs[j]
  }

  ghost predicate CastOk(r: Cast) {
    && |r.mentions| == |r.positions| && Increasing(r.positions)
    && forall i :: 0 <= i < |r.positions| ==> r.positions[i] <= ByteLength(r.text)
  }

  /** A part built from counter `before` to counter `after`: the counter counts exactly the mentions kept. */
  ghost predicate Counted(before: nat, part: Cast, after: nat) {
    CastOk(part) && after == before + |part.mentions| && (before <= 10 ==> after <= 10)
  }

  lemma {:induction false} InlineCounted(nodes: seq<Inline>, count: nat)
    ensures Counted(count, InlineCast(nodes, count).0, InlineCast(nodes, count).1)
  {
    if nodes == [] {
    } else {
      InlineCounted(nodes[..|nodes| - 1], count);
      var (r, n) := InlineCast(nodes[..|nodes| - 1], count);
      AppendInlineCounted(r, nodes[|nodes| - 1], n);
      hide AppendInline, CastOk;
    }
  }

  lemma AppendInlineCounted(r: Cast, node: Inline, n: nat)
    requires CastOk(r)
    ensures var (q, m) := AppendInline(r, node, n);
            CastOk(q) && m + |r.mentions| == n + |q.mentions| && (n <= 10 ==> m <= 10)
  {
    if node.text != [] { ByteLengthGrows(r.text, node.text); }
    hide ByteLength, NodeUrls, NodeFid, AddEmbeds;
  }

  lemma AppendPartCounted(r: Cast, part: Cast)
    requires CastOk(r) && CastOk(part)
    ensures CastOk(AppendPart(r, part)) && |AppendPart(r, part).mentions| == |r.mentions| + |part.mentions|
  {
    var base := if HasContent(r) then r.text + [NEWLINE] else r.text;
    ByteLengthConcat(base, part.text);
    ByteLengthGrows(r.text, [NEWLINE]);
    hide ByteLength, AddEmbeds;
  }

  lemma {:induction false} ItemsCounted(items: seq<Block>, count: nat)
    ensures Counted(count, ItemsCast(items, count).0, ItemsCast(items, count).1)
  {
    if items == [] {
    } else {
      ItemsCounted(items[..|items| - 1], count);
      var (r, n) := ItemsCast(items[..|items| - 1], count);
      InlineCounted(AsListItem(items[|items| - 1]).children, n);
      AppendPartCounted(r, InlineCast(AsListItem(items[|items| - 1]).children, n).0);
      hide AppendPart, CastOk, InlineCast;
    }
  }

  lemma BlockCounted(b: Block, count: nat)
    ensures Counted(count, BlockCast(b, count).0, BlockCast(b, count).1)
  {
    match b {
      case Paragraph(children) => InlineCounted(children, count);
      case Blockquote(children) => InlineCounted(children, count);
      case ListItem(children) => InlineCounted(children, count);
      case List(_, items) => ItemsCounted(items, count);
      case _ =>
    }
  }

  lemma {:induction false} BlocksCounted(blocks: seq<Block>, count: nat)
    ensures Counted(count, BlocksCast(blocks, count).0, BlocksCast(blocks, count).1)
  {
    if blocks == [] {
    } else {
      BlocksCounted(blocks[..|blocks| - 1], count);
      var (r, n) := BlocksCast(blocks[..|blocks| - 1], count);
      BlockCounted(blocks[|blocks| - 1], n);
      AppendPartCounted(r, BlockCast(blocks[|blocks| - 1], n).0);
      hide AppendPart, CastOk, BlockCast;
    }
  }

  /**
   For every document: as many positions as mentions, at most ten over the whole document, positions
   strictly increasing and inside the text, and the shared counter equals the mentions emitted, although a repeated
   position is only looked for inside one block.
   */
  lemma MentionsAreConsistent(blocks: seq<Block>)
    ensures CastOk(RichTextToFarcaster(blocks))
    ensures |RichTextToFarcaster(blocks).mentions| <= 10
    ensures BlocksCast(blocks, 0).1 == |BlocksCast(blocks, 0).0.mentions|
  {
    BlocksCounted(blocks, 0);
  }

  // ---------------------------------------------------------------- the code that builds it

  /** The cast under construction and the counter object handed down to every block. */
  class ExportContext {
    var mentionCount: nat

    constructor ()
      ensures mentionCount == 0
    {
      mentionCount := 0;
    }
  }

  class CastBuilder {
    var text: Str
    var embeds: seq<Str>
    var mentions: seq<nat>
    var positions: seq<nat>

    constructor ()
      ensures View() == EMPTY
    {
      text, embeds, mentions, positions := [], [], [], [];
    }

    ghost function View(): Cast
      reads this
    {
      Cast(text, embeds, mentions, positions)
    }

    method AppendEmbed(url: Str)
      modifies this`embeds
      ensures embeds == AddEmbed(old(embeds), url)
    {
      if url in embeds || |embeds| >= MAX_EMBEDS {
        return;
      }
      embeds := embeds + [url];
    }

    method AppendEmbeds(urls: seq<Str>)
      modifies this`embeds
      ensures embeds == AddEmbeds(old(embeds), urls)
    {
      for i := 0 to |urls|
        invariant embeds == AddEmbeds(old(embeds), urls[..i])
      {
        AddEmbedsPush(old(embeds), urls[..i], urls[i]);
        assert urls[..i + 1] == urls[..i] + [urls[i]];
        AppendEmbed(urls[i]);
      }
      assert urls[..|urls|] == urls;
    }

    method AppendInlineNode(node: Inline, context: ExportContext)
      modifies this, context
      ensures (View(), context.mentionCount) == AppendInline(old(View()), node, old(context.mentionCount))
    {
      var marks := NormalizeMarks(node.marks);
      AppendEmbeds(LinkUrls(marks));
      if node.text == [] {
        return;
      }
      var fid := MentionFid(marks);
      if fid.Some? && context.mentionCount < MAX_MENTIONS && ByteLength(text) !in positions {
        mentions := mentions + [fid.value];
        positions := positions + [ByteLength(text)];
        context.mentionCount := context.mentionCount + 1;
        return;
      }
      text := text + node.text;
    }

    method AppendCastPart(part: Cast)
      modifies this
      ensures View() == AppendPart(old(View()), part)
    {
      if !HasContent(part) {
        return;
      }
      if |text| > 0 || |embeds| > 0 || |mentions| > 0 {
        text := text + [NEWLINE];
      }
      var byteOffset := ByteLength(text);
      text := text + part.text;
      mentions := mentions + part.mentions;
      positions := positions + Shift(part.positions, byteOffset);
      AppendEmbeds(part.embeds);
    }
  }

  method InlineNodesToFarcasterCast(nodes: seq<Inline>, context: ExportContext) returns (result: CastBuilder)
    modifies context
    ensures fresh(result) && (result.View(), context.mentionCount) == InlineCast(nodes, old(context.mentionCount))
  {
    result := new CastBuilder();
    for i := 0 to |nodes|
      invariant fresh(result) && (result.View(), context.mentionCount) == InlineCast(nodes[..i], old(context.mentionCount))
    {
      assert nodes[..i + 1][..i] == nodes[..i];
      result.AppendInlineNode(nodes[i], context);
    }
    assert nodes[..|nodes|] == nodes;
  }
}
