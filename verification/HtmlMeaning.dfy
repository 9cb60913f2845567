/** What single tags and attributes mean to the sanitizer, the printer and the parser, with the names written out. */
module HtmlMeaning {
  import opened Wrappers
  import opened JsStrings
  import opened RichText
  import opened HtmlRichText
  import H = Html

  // ---------------------------------------------------------------- what the sanitizer keeps of a link

  predicate IsTarget(value: Str) {
    value == U("_blank") || value == U("_parent") || value == U("_self") || value == U("_top")
  }

  /** A word of a rel that is kept: small ASCII letters, digits, hyphen and underscore. */
  predicate PlainWord(word: Str) {
    word != [] && forall i :: 0 <= i < |word| ==> 97 <= word[i] <= 122 || 48 <= word[i] <= 57 || word[i] in {45, 95}
  }

  /** A class name that is kept: a letter or underscore, then letters, digits, underscores and hyphens, 64 in all at most. */
  predicate ClassName(word: Str) {
    && 1 <= |word| <= 64 && (97 <= word[0] <= 122 || 65 <= word[0] <= 90 || word[0] == 95)
    && forall i :: 0 < i < |word| ==>
         97 <= word[i] <= 122 || 65 <= word[i] <= 90 || 48 <= word[i] <= 57 || word[i] in {45, 95}
  }

  lemma {:induction false} KeepWordsAre(words: seq<Str>, keep: Str -> bool, w: Str)
    ensures w in H.KeepWords(words, keep) <==> w in words && keep(w)
  {
    if words == [] {
    } else {
      KeepWordsAre(words[1..], keep, w);
    }
  }

  /** The sanitized rel consists of the words of the given one that are plain in lower case. */
  lemma RelWordsAre(value: Str, w: Str)
    ensures w in H.Words(H.SanitizeRel(value)) <==> PlainWord(w) && exists v :: v in H.Words(value) && Lower(v) == w
  {
    var low := H.LowerWords(H.Words(value));
    var kept := H.KeepWords(low, H.RelToken);
    KeepWordsAre(low, H.RelToken, w);
    forall i | 0 <= i < |kept| ensures H.SolidWord(kept[i]) {
      assert H.RelToken(kept[i]);
    }
    H.WordsOfJoin(kept);
    hide H.Words, H.JoinWords, H.KeepWords, Lower;
    if w in low { var i :| 0 <= i < |low| && low[i] == w; assert H.Words(value)[i] in H.Words(value); }
  }

  /** The sanitized class consists of at most 16 of the class names given, in their order. */
  lemma ClassNamesAre(value: Str)
    ensures var kept := H.KeepWords(H.Words(value), ClassName);
            H.Words(H.SanitizeClass(value)) == if |kept| <= 16 then kept else kept[..16]
  {
    var kept := H.KeepWords(H.Words(value), H.ClassToken);
    SameKept(H.Words(value), H.ClassToken, ClassName);
    forall i | 0 <= i < |H.Take(kept, 16)| ensures H.SolidWord(H.Take(kept, 16)[i]) {
      assert H.ClassToken(kept[i]);
    }
    H.WordsOfJoin(H.Take(kept, 16));
    hide H.Words, H.JoinWords, H.KeepWords;
  }

  lemma {:induction false} SameKept(words: seq<Str>, p: Str -> bool, q: Str -> bool)
    requires forall w :: p(w) == q(w)
    ensures H.KeepWords(words, p) == H.KeepWords(words, q)
  {
    if words == [] {
    } else {
      SameKept(words[1..], p, q);
    }
  }

  predicate HasBlankTarget(attrs: H.Attrs) {
    H.Target in attrs && Lower(Trim(attrs[H.Target])) == U("_blank")
  }

  /**
   What is left of one attribute of a link in a post: the href that sanitizeHref keeps, the title as it is, one of
   four targets trimmed and in lower case, the plain words of rel, and a forced rel beside a blank target.
   */
  function LinkAttribute(attrs: H.Attrs, name: H.AttrName): Option<Str> {
    if name.Rel? && HasBlankTarget(attrs) then Some(U("noopener noreferrer"))
    else if name !in attrs then None
    else
      match name
      case Href => H.NonEmpty(SanitizeHref(attrs[name]))
      case Title => Some(attrs[name])
      case Target => if IsTarget(Lower(Trim(attrs[name]))) then Some(Lower(Trim(attrs[name]))) else None
      case Rel => H.NonEmpty(H.SanitizeRel(attrs[name]))
      case _ => None
  }

  function Lookup(attrs: H.Attrs, name: H.AttrName): Option<Str> {
    if name in attrs then Some(attrs[name]) else None
  }

  lemma TargetsAre(value: Str)
    ensures H.AllowedTarget(value) <==> IsTarget(value)
    ensures !IsTarget([]) && IsTarget(U("_blank"))
    ensures H.BLANK == U("_blank") && H.REL_BLANK == U("noopener noreferrer")
  {
    assert U("_blank") != [] && U("_parent") != [] && U("_self") != [] && U("_top") != [];
  }

  lemma LinkAttributesAre(attrs: H.Attrs, name: H.AttrName)
    ensures Lookup(H.SanitizeAttrs(H.TextOnly, H.A, attrs), name) == LinkAttribute(attrs, name)
  {
    if H.Target in attrs { TargetsAre(Lower(Trim(attrs[H.Target]))); }
    hide SanitizeHref, H.SanitizeRel, Lower, Trim, IsTarget, H.AllowedTarget, U;
  }

  /** Every other element of a post loses all its attributes. */
  lemma OtherAttributesGo(tag: H.Tag, attrs: H.Attrs)
    requires !tag.A?
    ensures H.SanitizeAttrs(H.TextOnly, tag, attrs) == map[]
  {}

  /** In a layout the class names stay on every element, and an image keeps its source, and 512 units of alt and title. */
  lemma LayoutAttributesAre(src: Str -> Str, tag: H.Tag, attrs: H.Attrs)
    requires !tag.A?
    ensures var r := H.SanitizeAttrs(H.Layout(src), tag, attrs);
            && (H.Class in attrs ==> Lookup(r, H.Class) == Some(H.SanitizeClass(attrs[H.Class])))
            && (tag.Img? && H.Src in attrs ==> Lookup(r, H.Src) == H.NonEmpty(src(attrs[H.Src])))
            && (tag.Img? ==> forall name :: name in attrs && (name == H.Alt || name == H.Title) ==>
                  Lookup(r, name) == Some(if |attrs[name]| <= 512 then attrs[name] else attrs[name][..512]))
            && (forall name :: name in r ==>
                  name in attrs && (name.Class? || (tag.Img? && (name.Src? || name.Alt? || name.Title?))))
  {
    hide H.SanitizeClass;
  }

  // ---------------------------------------------------------------- which elements stay

  /** Removed with everything in them. */
  const GONE: set<string> := {
    "script", "style", "iframe", "object", "embed", "form", "input", "button", "select", "textarea", "link", "meta", "base", "svg", "math"
  }

  /** What a post may contain; a layout may have divisions and images besides. */
  predicate Stays(tag: H.Tag, layout: bool) {
    match tag
    case A => true case B => true case Blockquote => true case Br => true case Code => true case Em => true
    case I => true case Li => true case Ol => true case P => true case Pre => true case S => true case Span => true
    case Strong => true case Underline => true case Ul => true
    case Div => layout case Img => layout case OtherTag(_) => false
  }

  /**
   An element stays, with its sanitized attributes and content; goes with its content; or leaves its content in
   its place. An image without a source that the policy accepts goes.
   */
  lemma ElementBecomes(policy: H.Policy, tag: H.Tag, attrs: H.Attrs, children: seq<H.Node>)
    ensures var inner, kept := H.SanitizeAll(policy, children), H.SanitizeAttrs(policy, tag, attrs);
            H.Sanitize(policy, H.Element(tag, attrs, children)) ==
              if Stays(tag, policy.Layout?) then
                if tag.Img? && (Lookup(kept, H.Src) == None || Lookup(kept, H.Src) == Some([])) then []
                else [H.Element(tag, kept, inner)]
              else if tag.OtherTag? && tag.name in GONE then []
              else inner
  {
    assert GONE == H.BLOCKED;
    hide H.SanitizeAttrs, H.SanitizeAll;
  }

  // ---------------------------------------------------------------- what reads as text

  /** The text of a tree with a line feed for every br. */
  function ReadText(node: H.Node): Str
    decreases node, 1
  {
    match node
    case Text(data) => data
    case Element(tag, _, children) => if tag.Br? then [10] else ReadTexts(children)
    case _ => []
  }

  function ReadTexts(nodes: seq<H.Node>): Str
    decreases nodes, 0
  {
    if nodes == [] then [] else ReadText(nodes[0]) + ReadTexts(nodes[1..])
  }

  lemma OneText(node: Inline)
    ensures TextOf([node]) == node.text
  {
    assert [node][..0] == [];
  }

  lemma {:induction false} ParseKeepsText(node: H.Node, marks: seq<Mark>)
    ensures TextOf(ParseInline(node, marks)) == ReadText(node)
    decreases node, 1
  {
    hide TextOf, NormalizeMarks, TagToMark;
    assert TextOf([]) == [] by { NothingHasNoText(); }
    match node {
      case Text(data) => OneText(Inline(data, NormalizeMarks(marks)));
      case Element(tag, attrs, children) =>
        OneText(Inline([NEWLINE], NormalizeMarks(marks)));
        var mark := TagToMark(tag, attrs);
        ParseAllKeepsText(children, if mark.Some? then marks + [mark.value] else marks);
      case _ =>
    }
  }

  lemma {:induction false} ParseAllKeepsText(nodes: seq<H.Node>, marks: seq<Mark>)
    ensures TextOf(ParseInlines(nodes, marks)) == ReadTexts(nodes)
    decreases nodes, 0
  {
    hide TextOf, ParseInline, ReadText;
    NothingHasNoText();
    if nodes == [] {
    } else {
      ParseKeepsText(nodes[0], marks);
      ParseAllKeepsText(nodes[1..], marks);
      TextOfConcat(ParseInline(nodes[0], marks), ParseInlines(nodes[1..], marks));
    }
  }

  lemma NothingHasNoText()
    ensures TextOf([]) == []
  {}

  /** Importing running text keeps all of it, in order, with a line feed for every br, whatever the tags. */
  lemma ImportKeepsText(nodes: seq<H.Node>)
    ensures TextOf(ParseChildren(nodes)) == ReadTexts(nodes)
  {
    ParseAllKeepsText(nodes, []);
    NormalizeInlineIsNormal(ParseInlines(nodes, []));
  }

  /** The text of a pre, whatever elements it is in; a br gives none. */
  function PreText(nodes: seq<H.Node>): Str {
    if nodes == [] then []
    else
      var last := nodes[|nodes| - 1];
      PreText(nodes[..|nodes| - 1]) + if last.Text? then last.data else if last.Element? then PreText(last.children) else []
  }

  /** The items of a list: one for each li directly in it; nothing else in the list is read. */
  function ListItems(nodes: seq<H.Node>): seq<Block> {
    if nodes == [] then []
    else
      var last := nodes[|nodes| - 1];
      ListItems(nodes[..|nodes| - 1]) + if last.Element? && last.tag.Li? then [ListItem(ParseChildren(last.children))] else []
  }

  lemma {:induction false} TextContentsLast(nodes: seq<H.Node>, last: H.Node)
    ensures TextContents(nodes + [last]) == TextContents(nodes) + TextContent(last)
  {
    hide TextContent;
    if nodes == [] {
      assert [] + [last] == [last];
    } else {
      TextContentsLast(nodes[1..], last);
      assert (nodes + [last])[1..] == nodes[1..] + [last];
    }
  }

  lemma {:induction false} PreTextIs(nodes: seq<H.Node>)
    ensures TextContents(nodes) == PreText(nodes)
  {
    if nodes == [] {
    } else {
      var last := nodes[|nodes| - 1];
      PreTextIs(nodes[..|nodes| - 1]);
      if last.Element? { PreTextIs(last.children); }
      TextContentsLast(nodes[..|nodes| - 1], last);
      assert nodes == nodes[..|nodes| - 1] + [last];
    }
  }

  lemma {:induction false} ItemsLast(nodes: seq<H.Node>, last: H.Node)
    ensures ParseItems(nodes + [last]) ==
            ParseItems(nodes) + if last.Element? && last.tag.Li? then [ListItem(ParseChildren(last.children))] else []
  {
    hide ParseChildren;
    if nodes == [] {
      assert [] + [last] == [last];
    } else {
      ItemsLast(nodes[1..], last);
      assert (nodes + [last])[1..] == nodes[1..] + [last];
    }
  }

  lemma {:induction false} ListItemsAre(nodes: seq<H.Node>)
    ensures ParseItems(nodes) == ListItems(nodes)
  {
    hide ParseChildren;
    if nodes == [] {
    } else {
      ListItemsAre(nodes[..|nodes| - 1]);
      ItemsLast(nodes[..|nodes| - 1], nodes[|nodes| - 1]);
      assert nodes == nodes[..|nodes| - 1] + [nodes[|nodes| - 1]];
    }
  }

  /** Which elements are blocks of their own and what becomes of their content; every other one is running text. */
  lemma BlockReadsAs(tag: H.Tag, attrs: H.Attrs, nodes: seq<H.Node>)
    ensures ParseBlock(H.Element(tag, attrs, nodes)) ==
              match tag
              case P => Some(Paragraph(ParseChildren(nodes)))
              case Blockquote => Some(Blockquote(ParseChildren(nodes)))
              case Pre => Some(CodeBlock(PreText(nodes), None))
              case Ul => Some(List(false, ListItems(nodes)))
              case Ol => Some(List(true, ListItems(nodes)))
              case Br => Some(LineBreak)
              case _ => None
  {
    PreTextIs(nodes);
    ListItemsAre(nodes);
    hide ParseChildren, PreText, ListItems, ParseItems, TextContents;
  }

  // ---------------------------------------------------------------- what a tag reads as, and a mark prints as

  /** The marks that text inside this element of running text has. */
  function ReadsAsMarks(tag: H.Tag, attrs: H.Attrs): seq<Mark> {
    match tag
    case Strong => [PlainMark(Strong)]
    case B => [PlainMark(Strong)]
    case Em => [PlainMark(Em)]
    case I => [PlainMark(Em)]
    case Code => [PlainMark(Code)]
    case S => [PlainMark(Strike)]
    case A =>
      if H.Href !in attrs || SanitizeAbsoluteHref(attrs[H.Href]) == [] then []
      else [PlainMark(Link).(href := Some(SanitizeAbsoluteHref(attrs[H.Href])),
                             title := if H.Title in attrs && attrs[H.Title] != [] then Some(attrs[H.Title]) else None)]
    case _ => []
  }

  predicate InRunningText(tag: H.Tag) {
    !(tag.P? || tag.Blockquote? || tag.Pre? || tag.Ul? || tag.Ol? || tag.Br?)
  }

  /** Text in one element: a paragraph whose only node has the marks of that element; b reads as strong and i as em. */
  lemma TextReadsAs(tag: H.Tag, attrs: H.Attrs, text: Str)
    requires InRunningText(tag) && text != []
    ensures ParseBlocks([H.Element(tag, attrs, [H.Text(text)])]) == [Paragraph([Inline(text, ReadsAsMarks(tag, attrs))])]
  {
    var node, inner := H.Element(tag, attrs, [H.Text(text)]), Inline(text, ReadsAsMarks(tag, attrs));
    TagReadsAs(tag, attrs, text);
    hide ReadsAsMarks, NormalizeMarks, ParseInline;
    assert [node][1..] == [];
    assert CollectBlocks([node], []) == CollectBlocks([], [] + ParseInline(node, []));
    OneNode(inner);
  }

  lemma OneNode(node: Inline)
    requires node.text != [] && NormalizeMarks(node.marks) == node.marks
    ensures NormalizeBlocks(CollectBlocks([], [node])) == [Paragraph([node])]
  {
    assert [node][..0] == [];
    hide NormalizeMarks;
    assert NormalizeInline([node]) == [node];
    assert [Paragraph([node])][..0] == [];
  }

  lemma TagReadsAs(tag: H.Tag, attrs: H.Attrs, text: Str)
    requires InRunningText(tag)
    ensures var marks := ReadsAsMarks(tag, attrs);
            ParseInline(H.Element(tag, attrs, [H.Text(text)]), []) == [Inline(text, marks)] && NormalizeMarks(marks) == marks
  {
    var nodes, marks := [H.Text(text)], ReadsAsMarks(tag, attrs);
    ReadMarksAreNormal(tag, attrs);
    NormalOne(marks);
    TagMarkIs(tag, attrs);
    hide NormalizeMarks, ReadsAsMarks, TagToMark;
    assert nodes[1..] == [];
    assert ParseInlines(nodes, marks) == ParseInline(nodes[0], marks) + ParseInlines([], marks);
    assert [] + marks == marks;
  }

  lemma TagMarkIs(tag: H.Tag, attrs: H.Attrs)
    requires InRunningText(tag)
    ensures ReadsAsMarks(tag, attrs) == if TagToMark(tag, attrs).Some? then [TagToMark(tag, attrs).value] else []
  {
    NothingIsAbsolute();
    hide SanitizeAbsoluteHref;
  }

  lemma ReadMarksAreNormal(tag: H.Tag, attrs: H.Attrs)
    ensures |ReadsAsMarks(tag, attrs)| <= 1 && EachNormal(ReadsAsMarks(tag, attrs))
  {
    hide SanitizeAbsoluteHref, SanitizeHref;
    var marks := ReadsAsMarks(tag, attrs);
    if tag.A? && marks != [] {
      SanitizeHrefIsProjection(attrs[H.Href]);
      assert NormalizeMark(marks[0]) == Some(marks[0]);
    } else {
      assert marks != [] ==> !LinkLike(marks[0].kind) && NormalizeMark(marks[0]) == Some(marks[0]);
    }
    hide NormalizeMark, ReadsAsMarks;
  }

  lemma NothingIsAbsolute()
    ensures SanitizeAbsoluteHref([]) == []
  {
    TrimTrims([]);
  }

  lemma NormalOne(marks: seq<Mark>)
    requires |marks| <= 1 && EachNormal(marks)
    ensures NormalizeMarks(marks) == marks
  {
    NormalizeEachOfNormal(marks);
    SortOfSorted(marks);
  }

  /** What stands around a text with one mark; a mention or hashtag with a safe href prints as a link, a spoiler as nothing. */
  lemma MarkPrintsAs(text: Str, m: Mark)
    requires text != [] && NormalizeMark(m) == Some(m)
    ensures var inner := [H.Text(text)];
            PrintInline(Inline(text, [m])) ==
              match m.kind
              case Strong => [H.Element(H.Strong, map[], inner)]
              case Em => [H.Element(H.Em, map[], inner)]
              case Code => [H.Element(H.Code, map[], inner)]
              case Strike => [H.Element(H.S, map[], inner)]
              case Spoiler => inner
              case UnknownMark(_) => inner
              case _ =>
                if m.href.Some? && m.href.value != [] then [H.Element(H.A, LinkAttrs(m.href.value, OrEmpty(m.title)), inner)] else inner
  {
    NormalOne([m]);
    SanitizeHrefIsProjection(OrEmpty(m.href));
    NothingIsAbsolute();
    hide NormalizeMarks, SanitizeAbsoluteHref, LinkAttrs;
    assert [m][..0] == [];
    assert Wrap(TextNodes(text), [m]) == WrapOne(Wrap(TextNodes(text), []), m);
  }
}
