/** Plain-text export of a rich-text document, and the joining of lines that every text export shares. */
module RichTextPlain {
  import opened Wrappers
  import opened JsStrings
  import opened RichText

  /** Keep the non-empty texts and join them with line breaks. */
  function JoinLines(texts: seq<Str>): Str {
    if texts == [] then []
    else
      var front, last := JoinLines(texts[..|texts| - 1]), texts[|texts| - 1];
      if last == [] then front else if front == [] then last else front + [NEWLINE] + last
  }

  /** `alt || title || ''` */
  function AttachmentText(alt: Option<Str>, title: Option<Str>): Str {
    if OrEmpty(alt) != [] then OrEmpty(alt) else OrEmpty(title)
  }

  function BlockToPlainText(b: Block): Str {
    match b
    case Paragraph(children) => TextOf(children)
    case Blockquote(children) => TextOf(children)
    case ListItem(children) => TextOf(children)
    case CodeBlock(text, _) => text
    case List(_, items) => JoinLines(BlockTexts(items))
    case LineBreak => [NEWLINE]
    case Attachment(_, _, alt, title) => AttachmentText(alt, title)
    case UnknownBlock(_) => []
  }

  function BlockTexts(blocks: seq<Block>): (r: seq<Str>)
    ensures |r| == |blocks|
    ensures forall i :: 0 <= i < |blocks| ==> r[i] == BlockToPlainText(blocks[i])
  {
    if blocks == [] then [] else BlockTexts(blocks[..|blocks| - 1]) + [BlockToPlainText(blocks[|blocks| - 1])]
  }

  function RichTextToPlainText(blocks: seq<Block>): Str {
    if !IsRichTextDocument(blocks) then [] else JoinLines(BlockTexts(blocks))
  }

  lemma OneLine(text: Str)
    ensures JoinLines([text]) == text
  {
    assert [text][..0] == [];
  }

  /** An attachment on its own exports its alt text, or its title when there is no alt text. */
  lemma AttachmentSays(storageId: Str, mimeType: Option<Str>, alt: Option<Str>, title: Option<Str>)
    requires storageId != []
    ensures RichTextToPlainText([Attachment(storageId, mimeType, alt, title)]) ==
              if alt.Some? && alt.value != [] then alt.value else if title.Some? then title.value else []
  {
    var b := Attachment(storageId, mimeType, alt, title);
    assert BlockTexts([b]) == [AttachmentText(alt, title)];
    OneLine(AttachmentText(alt, title));
  }

  /** Export code reads a list entry as a list item whatever its type says. */
  function AsListItem(b: Block): Block {
    if b.Paragraph? || b.Blockquote? || b.ListItem? then ListItem(b.children) else ListItem([])
  }
}
