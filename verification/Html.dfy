/**
 The HTML sanitizer of app/htmlSafety.ts over a parsed tree. Tag and attribute names appear in the
 lower-case form the HTML parser gives them.
 */
module Html {
  import opened Wrappers
  import opened JsStrings

  datatype Tag =
    | A | B | Blockquote | Br | Code | Em | I | Li | Ol | P | Pre | S | Span | Strong | Underline | Ul
    | Div | Img
    | OtherTag(name: string)

  datatype AttrName = Href | Rel | Target | Title | Class | Src | Alt | OtherAttr(name: string)

  type Attrs = map<AttrName, Str>

  /** `Raw` is a node of type script or style, `Directive` any other node that is neither text, comment nor tag. */
  datatype Node =
    | Text(data: Str)
    | Comment(data: Str)
    | Raw(data: Str)
    | Directive(data: Str)
    | Element(tag: Tag, attrs: Attrs, children: seq<Node>)

  /** The layout policy keeps images whose source the opaque function `src` accepts (the empty result refuses). */
  datatype Policy = TextOnly | Layout(src: Str -> Str)

  const BLOCKED: set<string> := {
    "base", "button", "embed", "form", "iframe", "input", "link", "math", "meta", "object", "script",
    "select", "style", "svg", "textarea"
  }

  predicate Blocked(tag: Tag) {
    tag.OtherTag? && tag.name in BLOCKED
  }

  predicate AllowedTag(policy: Policy, tag: Tag) {
    !tag.OtherTag? && (policy.Layout? || (tag != Div && tag != Img))
  }

  // ---------------------------------------------------------------- words of an attribute value

  function WordLength(s: Str): (n: nat)
    ensures n <= |s|
    ensures forall i :: 0 <= i < n ==> !IsSpace(s[i])
    ensures n < |s| ==> IsSpace(s[n])
  {
    if s == [] || IsSpace(s[0]) then 0 else 1 + WordLength(s[1..])
  }

  /** split(/\s+/) without its empty strings. */
  function Words(s: Str): seq<Str>
    decreases |s|
  {
    if s == [] then []
    else if IsSpace(s[0]) then Words(s[1..])
    else [s[..WordLength(s)]] + Words(s[WordLength(s)..])
  }

  const SPACE: CodeUnit := 32

  function JoinWords(words: seq<Str>): Str {
    if words == [] then []
    else if |words| == 1 then words[0]
    else words[0] + [SPACE] + JoinWords(words[1..])
  }

  ghost predicate SolidWord(w: Str) {
    w != [] && forall i :: 0 <= i < |w| ==> !IsSpace(w[i])
  }

  lemma {:induction false} WordLengthOf(w: Str, rest: Str)
    requires SolidWord(w) && (rest == [] || IsSpace(rest[0]))
    ensures WordLength(w + rest) == |w|
  {
    var s := w + rest;
    assert forall i :: 0 <= i < |w| ==> !IsSpace(s[i]);
    assert rest != [] ==> IsSpace(s[|w|]);
  }

  lemma {:induction false} WordsOfJoin(words: seq<Str>)
    requires forall i :: 0 <= i < |words| ==> SolidWord(words[i])
    ensures Words(JoinWords(words)) == words
  {
    if words == [] {
    } else {
      var w := words[0];
      var rest := if |words| == 1 then [] else [SPACE] + JoinWords(words[1..]);
      assert JoinWords(words) == w + rest;
      WordLengthOf(w, rest);
      assert (w + rest)[..|w|] == w && (w + rest)[|w|..] == rest;
      if |words| > 1 {
        assert rest[1..] == JoinWords(words[1..]);
        WordsOfJoin(words[1..]);
      }
    }
  }

  function KeepWords(words: seq<Str>, keep: Str -> bool): (r: seq<Str>)
    ensures forall i :: 0 <= i < |r| ==> keep(r[i]) && r[i] in words
  {
    if words == [] then [] else (if keep(words[0]) then [words[0]] else []) + KeepWords(words[1..], keep)
  }

  lemma {:induction false} KeepAllWords(words: seq<Str>, keep: Str -> bool)
    requires forall i :: 0 <= i < |words| ==> keep(words[i])
    ensures KeepWords(words, keep) == words
  {
    if words == [] {
    } else {
      KeepAllWords(words[1..], keep);
    }
  }

  function LowerWords(words: seq<Str>): (r: seq<Str>)
    ensures |r| == |words|
    ensures forall i :: 0 <= i < |words| ==> r[i] == Lower(words[i])
  {
    seq(|words|, i requires 0 <= i < |words| => Lower(words[i]))
  }

  // ---------------------------------------------------------------- attribute values

  /** /^[a-z0-9_-]+$/ */
  predicate RelToken(w: Str) {
    w != [] && forall i :: 0 <= i < |w| ==> 97 <= w[i] <= 122 || IsDigit(w[i]) || w[i] == 95 || w[i] == 45
  }

  function SanitizeRel(value: Str): Str {
    JoinWords(KeepWords(LowerWords(Words(value)), RelToken))
  }

  predicate AllowedTarget(t: Str) {
    t == BLANK || t == U("_parent") || t == U("_self") || t == U("_top")
  }

  function SanitizeTarget(value: Str): Str {
    var t := Lower(Trim(value));
    if AllowedTarget(t) then t else []
  }

  /** /^[a-zA-Z_][a-zA-Z0-9_-]{0,63}$/ */
  predicate ClassToken(w: Str) {
    && 1 <= |w| <= 64 && (IsLetter(w[0]) || w[0] == 95)
    && forall i :: 0 < i < |w| ==> IsLetter(w[i]) || IsDigit(w[i]) || w[i] == 95 || w[i] == 45
  }

  function Take<T>(s: seq<T>, n: nat): seq<T> {
    if |s| <= n then s else s[..n]
  }

  function SanitizeClass(value: Str): Str {
    JoinWords(Take(KeepWords(Words(value), ClassToken), 16))
  }

  function NonEmpty(value: Str): Option<Str> {
    if value == [] then None else Some(value)
  }

  const BLANK: Str := U("_blank")
  const REL_BLANK: Str := U("noopener noreferrer")

  /** What sanitizeHtmlAttribute leaves of one attribute. */
  function SanitizeAttribute(policy: Policy, tag: Tag, name: AttrName, value: Str): Option<Str> {
    if name.OtherAttr? then None
    else if policy.Layout? && name.Class? then Some(SanitizeClass(value))
    else if policy.Layout? && tag.Img? && name.Src? then NonEmpty(policy.src(value))
    else if policy.Layout? && tag.Img? && (name.Alt? || name.Title?) then Some(Take(value, 512))
    else if !tag.A? then None
    else
      match name
      case Href => NonEmpty(SanitizeHref(value))
      case Target => NonEmpty(SanitizeTarget(value))
      case Rel => NonEmpty(SanitizeRel(value))
      case Title => Some(value)
      case _ => None
  }

  function KeptAttrs(policy: Policy, tag: Tag, attrs: Attrs): Attrs {
    map name | name in attrs && SanitizeAttribute(policy, tag, name, attrs[name]).Some?
      :: SanitizeAttribute(policy, tag, name, attrs[name]).value
  }

  function ForceRel(tag: Tag, attrs: Attrs): Attrs {
    if tag.A? && Target in attrs && attrs[Target] == BLANK then attrs[Rel := REL_BLANK] else attrs
  }

  function SanitizeAttrs(policy: Policy, tag: Tag, attrs: Attrs): Attrs {
    ForceRel(tag, KeptAttrs(policy, tag, attrs))
  }

  // ---------------------------------------------------------------- the tree

  function Sanitize(policy: Policy, node: Node): seq<Node>
    decreases node, 1
  {
    match node
    case Text(_) => [node]
    case Directive(_) => [node]
    case Comment(_) => []
    case Raw(_) => []
    case Element(tag, attrs, children) =>
      if Blocked(tag) then []
      else
        var kept := SanitizeAll(policy, children);
        if !AllowedTag(policy, tag) then kept
        else
          var clean := SanitizeAttrs(policy, tag, attrs);
          if tag.Img? && (Src !in clean || clean[Src] == []) then [] else [Element(tag, clean, kept)]
  }

  function SanitizeAll(policy: Policy, nodes: seq<Node>): seq<Node>
    decreases nodes, 0
  {
    if nodes == [] then [] else Sanitize(policy, nodes[0]) + SanitizeAll(policy, nodes[1..])
  }

  // ---------------------------------------------------------------- sanitized trees

  /** Only allowed tags and attributes, values in their final form, no comment, script or style. */
  ghost predicate Clean(policy: Policy, node: Node)
    decreases node, 1
  {
    match node
    case Text(_) => true
    case Directive(_) => true
    case Comment(_) => false
    case Raw(_) => false
    case Element(tag, attrs, children) =>
      && AllowedTag(policy, tag) && SanitizeAttrs(policy, tag, attrs) == attrs
      && (tag.Img? ==> Src in attrs && attrs[Src] != [])
      && AllClean(policy, children)
  }

  ghost predicate AllClean(policy: Policy, nodes: seq<Node>)
    decreases nodes, 0
  {
    nodes == [] || (Clean(policy, nodes[0]) && AllClean(policy, nodes[1..]))
  }

  /** The opaque image source function is stable on what it accepts. */
  ghost predicate Stable(policy: Policy) {
    policy.Layout? ==> forall v :: policy.src(policy.src(v)) == policy.src(v)
  }

  lemma {:induction false} SanitizeTargetIsProjection(value: Str)
    ensures SanitizeTarget(SanitizeTarget(value)) == SanitizeTarget(value)
  {
    var t := SanitizeTarget(value);
    if t != [] {
      assert Lower(t) == t;
      assert Trimmed(t);
      TrimTrims(t);
    } else {
      TrimTrims([]);
    }
  }

  lemma SanitizeRelIsProjection(value: Str)
    ensures SanitizeRel(SanitizeRel(value)) == SanitizeRel(value)
  {
    var words := KeepWords(LowerWords(Words(value)), RelToken);
    RelWordsAreFixed(words);
  }

  lemma RelWordsAreFixed(words: seq<Str>)
    requires forall i :: 0 <= i < |words| ==> RelToken(words[i])
    ensures SanitizeRel(JoinWords(words)) == JoinWords(words)
  {
    forall i | 0 <= i < |words| ensures SolidWord(words[i]) && Lower(words[i]) == words[i] {
      assert RelToken(words[i]);
    }
    WordsOfJoin(words);
    assert LowerWords(words) == words;
    KeepAllWords(words, RelToken);
  }

  lemma RelBlankIsFixed()
    ensures SanitizeRel(REL_BLANK) == REL_BLANK && REL_BLANK != []
  {
    var words := [U("noopener"), U("noreferrer")];
    assert words[1..] == [U("noreferrer")];
    assert JoinWords(words) == U("noopener") + [SPACE] + U("noreferrer");
    assert REL_BLANK == U("noopener") + [SPACE] + U("noreferrer");
    RelWordsAreFixed(words);
  }

  lemma {:induction false} SanitizeClassIsProjection(value: Str)
    ensures SanitizeClass(SanitizeClass(value)) == SanitizeClass(value)
  {
    var words := Take(KeepWords(Words(value), ClassToken), 16);
    forall i | 0 <= i < |words| ensures SolidWord(words[i]) && ClassToken(words[i]) {
      assert words[i] in KeepWords(Words(value), ClassToken);
    }
    WordsOfJoin(words);
    KeepAllWords(words, ClassToken);
  }

  lemma {:induction false} SanitizeAttributeIsProjection(policy: Policy, tag: Tag, name: AttrName, value: Str)
    requires Stable(policy)
    ensures var r := SanitizeAttribute(policy, tag, name, value);
            r.Some? ==> SanitizeAttribute(policy, tag, name, r.value) == r
  {
    SanitizeHrefIsProjection(value);
    SanitizeTargetIsProjection(value);
    SanitizeRelIsProjection(value);
    SanitizeClassIsProjection(value);
    hide SanitizeHref, SanitizeTarget, SanitizeRel, SanitizeClass;
  }

  /** Each attribute left is the sanitized form of its old value, or the forced rel. */
  lemma AttrsLeft(policy: Policy, tag: Tag, attrs: Attrs, name: AttrName)
    requires name in SanitizeAttrs(policy, tag, attrs)
    ensures var v := SanitizeAttrs(policy, tag, attrs)[name];
            || (name in attrs && SanitizeAttribute(policy, tag, name, attrs[name]) == Some(v))
            || (tag.A? && name.Rel? && v == REL_BLANK)
  {
    hide SanitizeAttribute, U;
  }

  lemma KeptAttrsFixed(policy: Policy, tag: Tag, attrs: Attrs)
    requires forall name :: name in attrs ==> SanitizeAttribute(policy, tag, name, attrs[name]) == Some(attrs[name])
    ensures KeptAttrs(policy, tag, attrs) == attrs
  {
    hide SanitizeAttribute;
  }

  lemma ForceRelTwice(tag: Tag, attrs: Attrs)
    ensures ForceRel(tag, ForceRel(tag, attrs)) == ForceRel(tag, attrs)
  {
    hide U;
  }

  lemma SanitizeAttrsIsProjection(policy: Policy, tag: Tag, attrs: Attrs)
    requires Stable(policy)
    ensures SanitizeAttrs(policy, tag, SanitizeAttrs(policy, tag, attrs)) == SanitizeAttrs(policy, tag, attrs)
  {
    ForceRelTwice(tag, KeptAttrs(policy, tag, attrs));
    hide SanitizeAttribute, KeptAttrs, ForceRel, Stable, U;
    var once := SanitizeAttrs(policy, tag, attrs);
    forall name | name in once ensures SanitizeAttribute(policy, tag, name, once[name]) == Some(once[name]) {
      AttrsLeft(policy, tag, attrs, name);
      if name in attrs { SanitizeAttributeIsProjection(policy, tag, name, attrs[name]); }
      RelStays(policy);
    }
    KeptAttrsFixed(policy, tag, once);
  }

  lemma RelStays(policy: Policy)
    ensures SanitizeAttribute(policy, A, Rel, REL_BLANK) == Some(REL_BLANK)
  {
    RelBlankIsFixed();
    hide SanitizeRel;
  }

  lemma {:induction false} AllCleanConcat(policy: Policy, a: seq<Node>, b: seq<Node>)
    requires AllClean(policy, a) && AllClean(policy, b)
    ensures AllClean(policy, a + b)
  {
    if a == [] {
      assert a + b == b;
    } else {
      assert (a + b)[0] == a[0] && (a + b)[1..] == a[1..] + b;
      AllCleanConcat(policy, a[1..], b);
    }
  }

  /** Whatever the tree, the sanitized tree is clean. */
  lemma {:induction false} SanitizeCleans(policy: Policy, node: Node)
    requires Stable(policy)
    ensures AllClean(policy, Sanitize(policy, node))
    decreases node, 1
  {
    match node {
      case Element(tag, attrs, children) =>
        SanitizeAllCleans(policy, children);
        SanitizeAttrsIsProjection(policy, tag, attrs);
        hide SanitizeAttrs;
      case _ =>
    }
  }

  lemma {:induction false} SanitizeAllCleans(policy: Policy, nodes: seq<Node>)
    requires Stable(policy)
    ensures AllClean(policy, SanitizeAll(policy, nodes))
    decreases nodes, 0
  {
    if nodes == [] {
    } else {
      SanitizeCleans(policy, nodes[0]);
      SanitizeAllCleans(policy, nodes[1..]);
      AllCleanConcat(policy, Sanitize(policy, nodes[0]), SanitizeAll(policy, nodes[1..]));
    }
  }

  /** A clean tree is left exactly as it is. */
  lemma {:induction false} CleanIsFixed(policy: Policy, node: Node)
    requires Clean(policy, node)
    ensures Sanitize(policy, node) == [node]
    decreases node, 1
  {
    match node {
      case Element(tag, attrs, children) => AllCleanIsFixed(policy, children);
      case _ =>
    }
  }

  lemma {:induction false} AllCleanIsFixed(policy: Policy, nodes: seq<Node>)
    requires AllClean(policy, nodes)
    ensures SanitizeAll(policy, nodes) == nodes
    decreases nodes, 0
  {
    if nodes == [] {
    } else {
      CleanIsFixed(policy, nodes[0]);
      AllCleanIsFixed(policy, nodes[1..]);
    }
  }

  lemma SanitizeIsIdempotent(policy: Policy, nodes: seq<Node>)
    requires Stable(policy)
    ensures SanitizeAll(policy, SanitizeAll(policy, nodes)) == SanitizeAll(policy, nodes)
  {
    SanitizeAllCleans(policy, nodes);
    AllCleanIsFixed(policy, SanitizeAll(policy, nodes));
  }

  ghost predicate SafeAttribute(name: AttrName, value: Str) {
    match name
    case Href => value != [] && Trimmed(value) && SafeHref(value)
    case Target => AllowedTarget(value)
    case Rel => value != []
    case Title => true
    case _ => false
  }

  lemma FixedAttributeIsSafe(tag: Tag, name: AttrName, value: Str)
    requires SanitizeAttribute(TextOnly, tag, name, value) == Some(value)
    ensures tag.A? && SafeAttribute(name, value)
  {
    TrimTrims(value);
    hide SafeHref, AllowedTarget, SanitizeRel;
  }

  /**
   What a clean tag means for posts and messages: attributes only on a link, only href, rel, target and
   title, a trimmed safe href, a listed target, and on a blank target the forced rel.
   */
  lemma CleanAttributesAreSafe(attrs: Attrs, tag: Tag)
    requires SanitizeAttrs(TextOnly, tag, attrs) == attrs
    ensures attrs.Keys != {} ==> tag.A?
    ensures forall name :: name in attrs ==> SafeAttribute(name, attrs[name])
    ensures Target in attrs && attrs[Target] == BLANK ==> Rel in attrs && attrs[Rel] == REL_BLANK
  {
    BlankForcesRel(attrs, tag);
    RelStays(TextOnly);
    hide SafeAttribute, SanitizeAttribute, KeptAttrs, ForceRel, U;
    forall name | name in attrs ensures tag.A? && SafeAttribute(name, attrs[name]) {
      AttrsLeft(TextOnly, tag, attrs, name);
      FixedAttributeIsSafe(tag, name, attrs[name]);
    }
  }

  lemma BlankForcesRel(attrs: Attrs, tag: Tag)
    requires SanitizeAttrs(TextOnly, tag, attrs) == attrs
    ensures Target in attrs && attrs[Target] == BLANK ==> Rel in attrs && attrs[Rel] == REL_BLANK
  {
    hide U;
    if Target in attrs { AttrsLeft(TextOnly, tag, attrs, Target); }
  }

  // ---------------------------------------------------------------- text is kept

  /** The text a reader sees: everything outside blocked elements, scripts, styles and comments. */
  function VisibleText(node: Node): Str
    decreases node, 1
  {
    match node
    case Text(data) => data
    case Element(tag, _, children) => if Blocked(tag) then [] else VisibleTextAll(children)
    case _ => []
  }

  function VisibleTextAll(nodes: seq<Node>): Str
    decreases nodes, 0
  {
    if nodes == [] then [] else VisibleText(nodes[0]) + VisibleTextAll(nodes[1..])
  }

  /** Images are void elements: the parser never gives them children. */
  ghost predicate VoidImages(node: Node)
    decreases node, 1
  {
    node.Element? ==> (node.tag.Img? ==> node.children == []) && VoidImagesAll(node.children)
  }

  ghost predicate VoidImagesAll(nodes: seq<Node>)
    decreases nodes, 0
  {
    nodes == [] || (VoidImages(nodes[0]) && VoidImagesAll(nodes[1..]))
  }

  lemma {:induction false} VisibleTextConcat(a: seq<Node>, b: seq<Node>)
    ensures VisibleTextAll(a + b) == VisibleTextAll(a) + VisibleTextAll(b)
  {
    if a == [] {
      assert a + b == b;
    } else {
      assert (a + b)[0] == a[0] && (a + b)[1..] == a[1..] + b;
      VisibleTextConcat(a[1..], b);
    }
  }

  lemma VisibleTextOne(node: Node)
    ensures VisibleTextAll([node]) == VisibleText(node)
  {
    assert [node][1..] == [];
  }

  /** Sanitizing keeps, in order, exactly the visible text. */
  lemma {:induction false} SanitizeKeepsText(policy: Policy, node: Node)
    requires policy.TextOnly? || VoidImages(node)
    ensures VisibleTextAll(Sanitize(policy, node)) == VisibleText(node)
    decreases node, 1
  {
    match node {
      case Element(tag, attrs, children) =>
        if !Blocked(tag) {
          SanitizeAllKeepsText(policy, children);
          var kept := SanitizeAll(policy, children);
          VisibleTextOne(Element(tag, SanitizeAttrs(policy, tag, attrs), kept));
          hide SanitizeAttrs;
        }
      case _ => VisibleTextOne(node);
    }
  }

  lemma {:induction false} SanitizeAllKeepsText(policy: Policy, nodes: seq<Node>)
    requires policy.TextOnly? || VoidImagesAll(nodes)
    ensures VisibleTextAll(SanitizeAll(policy, nodes)) == VisibleTextAll(nodes)
    decreases nodes, 0
  {
    if nodes == [] {
    } else {
      SanitizeKeepsText(policy, nodes[0]);
      SanitizeAllKeepsText(policy, nodes[1..]);
      VisibleTextConcat(Sanitize(policy, nodes[0]), SanitizeAll(policy, nodes[1..]));
    }
  }

  // ---------------------------------------------------------------- escaping

  function ReplaceAll(s: Str, u: CodeUnit, rep: Str): Str {
    if s == [] then [] else (if s[0] == u then rep else [s[0]]) + ReplaceAll(s[1..], u, rep)
  }

  const AMP := U("&amp;")
  const LT := U("&lt;")
  const GT := U("&gt;")
  const QUOT := U("&quot;")
  const APOS := U("&#39;")

  function EscapeHtml(value: Str): Str {
    ReplaceAll(ReplaceAll(ReplaceAll(value, 38, AMP), 60, LT), 62, GT)
  }

  function EscapeHtmlAttribute(value: Str): Str {
    ReplaceAll(ReplaceAll(EscapeHtml(value), 34, QUOT), 39, APOS)
  }

  function EscapeUnit(u: CodeUnit): Str {
    if u == 38 then AMP else if u == 60 then LT else if u == 62 then GT
    else if u == 34 then QUOT else if u == 39 then APOS else [u]
  }

  function EscapeEach(s: Str): Str {
    if s == [] then [] else EscapeUnit(s[0]) + EscapeEach(s[1..])
  }

  /** Resolve the five character references the escaping produces. */
  function Decode(s: Str): Str
    decreases |s|
  {
    if s == [] then []
    else if StartsWith(s, AMP) then [38] + Decode(s[5..])
    else if StartsWith(s, LT) then [60] + Decode(s[4..])
    else if StartsWith(s, GT) then [62] + Decode(s[4..])
    else if StartsWith(s, QUOT) then [34] + Decode(s[6..])
    else if StartsWith(s, APOS) then [39] + Decode(s[5..])
    else [s[0]] + Decode(s[1..])
  }

  lemma {:induction false} ReplaceConcat(a: Str, b: Str, u: CodeUnit, rep: Str)
    ensures ReplaceAll(a + b, u, rep) == ReplaceAll(a, u, rep) + ReplaceAll(b, u, rep)
  {
    if a == [] {
      assert a + b == b;
    } else {
      assert (a + b)[0] == a[0] && (a + b)[1..] == a[1..] + b;
      ReplaceConcat(a[1..], b, u, rep);
    }
  }

  lemma {:induction false} ReplaceAbsent(s: Str, u: CodeUnit, rep: Str)
    requires u !in s
    ensures ReplaceAll(s, u, rep) == s
  {
    if s == [] {
    } else {
      ReplaceAbsent(s[1..], u, rep);
    }
  }

  lemma Entities()
    ensures AMP == [38, 97, 109, 112, 59] && LT == [38, 108, 116, 59] && GT == [38, 103, 116, 59]
    ensures QUOT == [38, 113, 117, 111, 116, 59] && APOS == [38, 35, 51, 57, 59]
  {}

  lemma ReplaceUnit(u: CodeUnit, from: CodeUnit, rep: Str)
    ensures ReplaceAll([u], from, rep) == if u == from then rep else [u]
  {
    assert [u][1..] == [];
  }

  /** A reference written by one replacement is not touched by a later one. */
  lemma ReferencesStay(e: Str)
    requires e == AMP || e == LT || e == GT || e == QUOT
    ensures (e == AMP || e == LT || e == GT) ==> ReplaceAll(e, 34, QUOT) == e
    ensures (e == AMP || e == LT) ==> ReplaceAll(e, 62, GT) == e
    ensures e == AMP ==> ReplaceAll(e, 60, LT) == e
    ensures ReplaceAll(e, 39, APOS) == e
  {
    Entities();
    hide ReplaceAll, U;
    if e == AMP { ReplaceAbsent(e, 60, LT); }
    if e == AMP || e == LT { ReplaceAbsent(e, 62, GT); }
    if e != QUOT { ReplaceAbsent(e, 34, QUOT); }
    ReplaceAbsent(e, 39, APOS);
  }

  lemma EscapeOne(u: CodeUnit)
    ensures EscapeHtmlAttribute([u]) == EscapeUnit(u)
  {
    hide ReplaceAll, U;
    ReplaceUnit(u, 38, AMP);
    ReplaceUnit(u, 60, LT);
    ReplaceUnit(u, 62, GT);
    ReplaceUnit(u, 34, QUOT);
    ReplaceUnit(u, 39, APOS);
    ReferencesStay(AMP);
    ReferencesStay(LT);
    ReferencesStay(GT);
    ReferencesStay(QUOT);
  }

  lemma EscapeConcat(a: Str, b: Str)
    ensures EscapeHtmlAttribute(a + b) == EscapeHtmlAttribute(a) + EscapeHtmlAttribute(b)
  {
    hide ReplaceAll, U;
    ReplaceConcat(a, b, 38, AMP);
    var a1, b1 := ReplaceAll(a, 38, AMP), ReplaceAll(b, 38, AMP);
    ReplaceConcat(a1, b1, 60, LT);
    var a2, b2 := ReplaceAll(a1, 60, LT), ReplaceAll(b1, 60, LT);
    ReplaceConcat(a2, b2, 62, GT);
    var a3, b3 := ReplaceAll(a2, 62, GT), ReplaceAll(b2, 62, GT);
    ReplaceConcat(a3, b3, 34, QUOT);
    ReplaceConcat(ReplaceAll(a3, 34, QUOT), ReplaceAll(b3, 34, QUOT), 39, APOS);
  }

  /** Five replacements one after the other are one pass over the characters: no replacement rewrites an earlier one's output. */
  lemma {:induction false} EscapeIsOnePass(value: Str)
    ensures EscapeHtmlAttribute(value) == EscapeEach(value)
  {
    if value == [] {
    } else {
      assert value == [value[0]] + value[1..];
      EscapeOne(value[0]);
      EscapeConcat([value[0]], value[1..]);
      EscapeIsOnePass(value[1..]);
    }
  }

  lemma StartsWithOwn(p: Str, rest: Str)
    ensures StartsWith(p + rest, p) && (p + rest)[|p|..] == rest
  {
    assert (p + rest)[..|p|] == p;
  }

  lemma StartsWithOther(s: Str, p: Str, i: nat)
    requires i < |s| && i < |p| && s[i] != p[i]
    ensures !StartsWith(s, p)
  {
    assert |p| <= |s| ==> s[..|p|][i] == s[i];
  }

  lemma DecodeUnit(u: CodeUnit, rest: Str)
    ensures Decode(EscapeUnit(u) + rest) == [u] + Decode(rest)
  {
    Entities();
    hide StartsWith, U;
    var e := EscapeUnit(u);
    var s := e + rest;
    StartsWithOwn(e, rest);
    assert s[0] == e[0];
    if |e| == 1 {
      StartsWithOther(s, AMP, 0);
      StartsWithOther(s, LT, 0);
      StartsWithOther(s, GT, 0);
      StartsWithOther(s, QUOT, 0);
      StartsWithOther(s, APOS, 0);
    } else {
      assert s[1] == e[1];
      if e != AMP { StartsWithOther(s, AMP, 1); }
      if e != LT { StartsWithOther(s, LT, 1); }
      if e != GT { StartsWithOther(s, GT, 1); }
      if e != QUOT { StartsWithOther(s, QUOT, 1); }
    }
  }

  lemma {:induction false} DecodeOfEscape(s: Str)
    ensures Decode(EscapeEach(s)) == s
  {
    if s == [] {
    } else {
      DecodeUnit(s[0], EscapeEach(s[1..]));
      DecodeOfEscape(s[1..]);
    }
  }

  predicate Delimiter(u: CodeUnit) {
    u == 60 || u == 62 || u == 34 || u == 39
  }

  lemma {:induction false} EscapeHasNoDelimiter(s: Str)
    ensures forall i :: 0 <= i < |EscapeEach(s)| ==> !Delimiter(EscapeEach(s)[i])
  {
    if s == [] {
    } else {
      EscapeHasNoDelimiter(s[1..]);
    }
  }

  /** The escaped value holds no raw delimiter, so it cannot end its attribute, and it reads back as it was. */
  lemma EscapeRoundTrip(value: Str)
    ensures Decode(EscapeHtmlAttribute(value)) == value
    ensures forall i :: 0 <= i < |EscapeHtmlAttribute(value)| ==> !Delimiter(EscapeHtmlAttribute(value)[i])
  {
    EscapeIsOnePass(value);
    DecodeOfEscape(value);
    EscapeHasNoDelimiter(value);
  }

  // ---------------------------------------------------------------- editing one element in place

  /** A DOM element whose attribute record is edited in place. */
  class ElementNode {
    const tag: Tag
    var attribs: Attrs

    constructor (tag: Tag, attribs: Attrs)
      ensures this.tag == tag && this.attribs == attribs
    {
      this.tag := tag;
      this.attribs := attribs;
    }

    method Attr(name: AttrName, value: Str)
      modifies this
      ensures attribs == old(attribs)[name := value]
    {
      attribs := attribs[name := value];
    }

    method RemoveAttr(name: AttrName)
      modifies this
      ensures attribs == old(attribs) - {name}
    {
      attribs := attribs - {name};
    }

    method SetOrRemove(name: AttrName, value: Str)
      modifies this
      ensures attribs == if value == [] then old(attribs) - {name} else old(attribs)[name := value]
    {
      if value == [] { RemoveAttr(name); } else { Attr(name, value); }
    }

    method SanitizeHtmlAttribute(policy: Policy, name: AttrName, value: Str)
      requires name in attribs && attribs[name] == value
      modifies this
      ensures match SanitizeAttribute(policy, tag, name, value)
              case None => attribs == old(attribs) - {name}
              case Some(v) => attribs == old(attribs)[name := v]
    {
      hide SanitizeHref, SanitizeTarget, SanitizeRel, SanitizeClass;
      if name.OtherAttr? {
        RemoveAttr(name);
      } else if policy.Layout? && name.Class? {
        Attr(name, SanitizeClass(value));
      } else if policy.Layout? && tag.Img? && name.Src? {
        SetOrRemove(name, policy.src(value));
      } else if policy.Layout? && tag.Img? && (name.Alt? || name.Title?) {
        Attr(name, Take(value, 512));
      } else if !tag.A? || name !in {Href, Rel, Target, Title} {
        RemoveAttr(name);
      } else if name.Href? {
        SetOrRemove(name, SanitizeHref(value));
      } else if name.Target? {
        SetOrRemove(name, SanitizeTarget(value));
      } else if name.Rel? {
        SetOrRemove(name, SanitizeRel(value));
      }
    }

    /** The keys are visited in any order; the copy taken first is what every value is read from. */
    method SanitizeHtmlAttributes(policy: Policy)
      modifies this
      ensures attribs == SanitizeAttrs(policy, tag, old(attribs))
    {
      hide SanitizeAttribute, U;
      var attributes := attribs;
      var pending := attributes.Keys;
      while pending != {}
        invariant pending <= attributes.Keys
        invariant forall name :: name in attribs <==>
          name in attributes && (name in pending || SanitizeAttribute(policy, tag, name, attributes[name]).Some?)
        invariant forall name :: name in attribs ==>
          if name in pending then attribs[name] == attributes[name]
          else Some(attribs[name]) == SanitizeAttribute(policy, tag, name, attributes[name])
        decreases pending
      {
        var name :| name in pending;
        SanitizeHtmlAttribute(policy, name, attributes[name]);
        pending := pending - {name};
      }
      assert attribs == KeptAttrs(policy, tag, attributes);
      if tag.A? && Target in attribs && attribs[Target] == BLANK {
        Attr(Rel, REL_BLANK);
      }
    }
  }
}
