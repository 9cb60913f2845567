/** What normalizeHtml (app/htmlSafety.ts) does to the text of a sanitized tree, and what an HTML parser reads from it. */
module NormalizeHtml {
  import opened JsStrings
  import H = Html

  type Node = H.Node

  // ---------------------------------------------------------------- break tags inside attribute values

  /** `<br/>`, and the other spellings that the pattern of normalizeHtml replaces by it: `<br>`, `</br>` and `</br/>`. */
  const BREAK: Str := [60, 98, 114, 47, 62]
  const OPEN_BREAK: Str := [60, 98, 114, 62]
  const CLOSE_BREAK: Str := [60, 47, 98, 114, 62]
  const SLASHED_BREAK: Str := [60, 47, 98, 114, 47, 62]

  /** The length of the pattern's match at the start of `s`, 0 for none. */
  function BreakLength(s: Str): (n: nat)
    ensures n <= |s|
  {
    if OPEN_BREAK <= s then 4
    else if BREAK <= s || CLOSE_BREAK <= s then 5
    else if SLASHED_BREAK <= s then 6
    else 0
  }

  function TidyBreaks(s: Str): Str
    decreases |s|
  {
    if s == [] then []
    else if BreakLength(s) > 0 then BREAK + TidyBreaks(s[BreakLength(s)..])
    else [s[0]] + TidyBreaks(s[1..])
  }

  predicate OtherBreak(s: Str) {
    OPEN_BREAK <= s || CLOSE_BREAK <= s || SLASHED_BREAK <= s
  }

  /** Only the spelling `<br/>` occurs. */
  predicate Tidy(s: Str) {
    forall i :: 0 <= i <= |s| ==> !OtherBreak(s[i..])
  }

  lemma TidyRest(s: Str, k: nat)
    requires Tidy(s) && k <= |s|
    ensures Tidy(s[k..])
  {
    hide OtherBreak;
    forall i | 0 <= i <= |s[k..]| ensures !OtherBreak(s[k..][i..]) {
      assert s[k..][i..] == s[k + i..];
    }
  }

  lemma PrefixRest(s: Str, t: Str, i: nat)
    requires t <= s && i <= |t|
    ensures OtherBreak(t[i..]) ==> OtherBreak(s[i..])
  {
    assert t[i..] <= s[i..];
  }

  lemma TidyPrefix(s: Str, t: Str)
    requires Tidy(s) && t <= s
    ensures Tidy(t)
  {
    hide OtherBreak;
    forall i | 0 <= i <= |t| ensures !OtherBreak(t[i..]) {
      PrefixRest(s, t, i);
      assert !OtherBreak(s[i..]);
    }
  }

  lemma TidyCons(s: Str)
    requires s != [] && !OtherBreak(s) && Tidy(s[1..])
    ensures Tidy(s)
  {
    hide OtherBreak;
    forall i | 0 <= i <= |s| ensures !OtherBreak(s[i..]) {
      if i == 0 {
        assert s[0..] == s;
      } else {
        assert s[1..][i - 1..] == s[i..];
        assert !OtherBreak(s[1..][i - 1..]);
      }
    }
  }

  lemma TidyAfterBreak(s: Str)
    requires Tidy(s)
    ensures Tidy(BREAK + s)
  {
    var t := BREAK + s;
    assert t[0] == 60 && t[1] == 98 && t[2] == 114 && t[3] == 47 && t[4] == 62;
    NotOther(t[4..]);
    NotOther(t[3..]);
    NotOther(t[2..]);
    NotOther(t[1..]);
    NotOther(t);
    hide Tidy, OtherBreak;
    assert t[5..] == s;
    assert t[4..][1..] == t[5..] && t[3..][1..] == t[4..] && t[2..][1..] == t[3..] && t[1..][1..] == t[2..];
    TidyCons(t[4..]);
    TidyCons(t[3..]);
    TidyCons(t[2..]);
    TidyCons(t[1..]);
    TidyCons(t);
  }

  lemma OtherStart(s: Str)
    requires OtherBreak(s)
    ensures |s| > 3 && s[0] == 60 && !(s[1] == 98 && s[3] == 47)
  {
    assert OPEN_BREAK <= s ==> s[0] == OPEN_BREAK[0] && s[3] == OPEN_BREAK[3];
    assert CLOSE_BREAK <= s ==> s[0] == CLOSE_BREAK[0] && s[1] == CLOSE_BREAK[1];
    assert SLASHED_BREAK <= s ==> s[0] == SLASHED_BREAK[0] && s[1] == SLASHED_BREAK[1];
  }

  lemma NotOther(s: Str)
    requires s != [] && (s[0] == 60 ==> |s| > 3 && s[1] == 98 && s[3] == 47)
    ensures !OtherBreak(s)
  {
    if OtherBreak(s) { OtherStart(s); }
  }

  lemma ReplacedStart(s: Str)
    requires s != [] && BreakLength(s) > 0
    ensures TidyBreaks(s) != [] && TidyBreaks(s)[0] == 60
  {}

  /** Replaced text starts with `<`, so text without one is original. */
  lemma {:induction false} PlainPrefix(s: Str, k: nat)
    requires k <= |TidyBreaks(s)| && forall i :: 0 <= i < k ==> TidyBreaks(s)[i] != 60
    ensures k <= |s| && s[..k] == TidyBreaks(s)[..k]
  {
    if k == 0 {
    } else {
      assert TidyBreaks(s)[0] != 60;
      PlainStart(s);
      var t, rest := TidyBreaks(s), TidyBreaks(s[1..]);
      hide TidyBreaks;
      assert forall i :: 0 <= i < k - 1 ==> rest[i] == t[i + 1];
      PlainPrefix(s[1..], k - 1);
      PrefixCons(s[0], s[1..], rest, k - 1);
      assert s == [s[0]] + s[1..];
    }
  }

  lemma PlainStart(s: Str)
    requires TidyBreaks(s) != [] && TidyBreaks(s)[0] != 60
    ensures s != [] && TidyBreaks(s) == [s[0]] + TidyBreaks(s[1..])
  {
    if BreakLength(s) > 0 { ReplacedStart(s); }
  }

  lemma PrefixCons(u: CodeUnit, s: Str, t: Str, k: nat)
    requires k <= |s| && k <= |t| && s[..k] == t[..k]
    ensures ([u] + s)[..k + 1] == ([u] + t)[..k + 1]
  {
    assert ([u] + s)[..k + 1] == [u] + s[..k];
    assert ([u] + t)[..k + 1] == [u] + t[..k];
  }

  lemma NoNewBreak(s: Str)
    requires s != [] && BreakLength(s) == 0
    ensures BreakLength([s[0]] + TidyBreaks(s[1..])) == 0
  {
    var t := [s[0]] + TidyBreaks(s[1..]);
    var n := BreakLength(t);
    if n > 0 {
      assert forall i :: 0 <= i < n - 1 ==> TidyBreaks(s[1..])[i] == t[i + 1];
      PlainPrefix(s[1..], n - 1);
      SameStart(s, t, n);
    }
  }

  lemma SameStart(s: Str, t: Str, n: nat)
    requires 0 < n <= |t| && n <= |s| && s[0] == t[0] && s[1..][..n - 1] == t[1..][..n - 1]
    requires BreakLength(t) == n
    ensures BreakLength(s) > 0
  {
    assert forall i :: 0 < i < n ==> s[i] == s[1..][..n - 1][i - 1] == t[i];
  }

  /** Every value is tidy once it has been through the replacement, and a tidy value is left as it is. */
  lemma {:induction false} TidyBreaksTidies(s: Str)
    ensures Tidy(TidyBreaks(s))
    ensures Tidy(s) <==> TidyBreaks(s) == s
    decreases |s|
  {
    if s == [] {
    } else if BreakLength(s) > 0 {
      var n := BreakLength(s);
      TidyBreaksTidies(s[n..]);
      TidyAfterBreak(TidyBreaks(s[n..]));
      if Tidy(s) {
        assert s[0..] == s && !OtherBreak(s[0..]);
        TidyRest(s, n);
        assert s == s[..n] + s[n..];
      }
    } else {
      TidyBreaksTidies(s[1..]);
      NoNewBreak(s);
      var t := [s[0]] + TidyBreaks(s[1..]);
      assert t[1..] == TidyBreaks(s[1..]);
      TidyCons(t);
      if Tidy(s) { TidyRest(s, 1); }
    }
  }

  // ---------------------------------------------------------------- the tree with its break tags rewritten

  function TidyAttrs(attrs: H.Attrs): H.Attrs {
    map name | name in attrs :: TidyBreaks(attrs[name])
  }

  /** The replacement on the tree: text is escaped in the string, so only attribute values can hold such tags. */
  function TidyNode(node: Node): Node
    decreases node, 1
  {
    if node.Element? then H.Element(node.tag, TidyAttrs(node.attrs), TidyNodes(node.children)) else node
  }

  function TidyNodes(nodes: seq<Node>): (r: seq<Node>)
    ensures |r| == |nodes|
    decreases nodes, 0
  {
    if nodes == [] then [] else [TidyNode(nodes[0])] + TidyNodes(nodes[1..])
  }

  ghost predicate TidyTags(node: Node)
    decreases node
  {
    node.Element? ==> (forall name :: name in node.attrs ==> Tidy(node.attrs[name]))
                      && forall c :: c in node.children ==> TidyTags(c)
  }

  ghost predicate AllTidy(nodes: seq<Node>) {
    forall n :: n in nodes ==> TidyTags(n)
  }

  lemma TidyAttrsAreTidy(attrs: H.Attrs)
    ensures forall name :: name in TidyAttrs(attrs) ==> Tidy(TidyAttrs(attrs)[name])
    ensures (forall name :: name in attrs ==> Tidy(attrs[name])) ==> TidyAttrs(attrs) == attrs
  {
    forall name | name in attrs
      ensures Tidy(TidyBreaks(attrs[name])) && (Tidy(attrs[name]) ==> TidyBreaks(attrs[name]) == attrs[name])
    {
      TidyBreaksTidies(attrs[name]);
    }
    hide Tidy, TidyBreaks;
  }

  lemma {:induction false} TidyNodeIsTidy(node: Node)
    ensures TidyTags(TidyNode(node))
    ensures TidyTags(node) ==> TidyNode(node) == node
    decreases node, 1
  {
    hide Tidy, TidyAttrs;
    if node.Element? {
      TidyAttrsAreTidy(node.attrs);
      TidyNodesAreTidy(node.children);
      assert AllTidy(TidyNodes(node.children));
    }
  }

  lemma {:induction false} TidyNodesAreTidy(nodes: seq<Node>)
    ensures AllTidy(TidyNodes(nodes))
    ensures AllTidy(nodes) ==> TidyNodes(nodes) == nodes
    decreases nodes, 0
  {
    hide TidyTags;
    if nodes == [] {
    } else {
      TidyNodeIsTidy(nodes[0]);
      TidyNodesAreTidy(nodes[1..]);
      assert AllTidy(nodes) ==> AllTidy(nodes[1..]);
    }
  }

  // ---------------------------------------------------------------- stripping the ends

  function Leading<T>(s: seq<T>, p: T -> bool): (n: nat)
    ensures n <= |s|
  {
    if s != [] && p(s[0]) then 1 + Leading(s[1..], p) else 0
  }

  function Trailing<T>(s: seq<T>, p: T -> bool): (n: nat)
    ensures n <= |s|
  {
    if s != [] && p(s[|s| - 1]) then 1 + Trailing(s[..|s| - 1], p) else 0
  }

  /** What normalizeHtml does with `p` a line break: drop those in front and those behind. */
  function Strip<T>(s: seq<T>, p: T -> bool): seq<T> {
    s[Leading(s, p)..Last(s, p)]
  }

  /** The end of what is kept. */
  function Last<T>(s: seq<T>, p: T -> bool): (n: nat)
    ensures Leading(s, p) <= n <= |s|
  {
    |s| - Trailing(s[Leading(s, p)..], p)
  }

  predicate IsBreak(node: Node) {
    node.Element? && node.tag.Br?
  }

  lemma StripShortens<T>(s: seq<T>, p: T -> bool)
    ensures |Strip(s, p)| <= |s| && (|Strip(s, p)| == |s| ==> Strip(s, p) == s)
  {}

  lemma {:induction false} TrailingStops<T>(s: seq<T>, p: T -> bool)
    requires s != [] && !p(s[0])
    ensures Trailing(s, p) < |s|
  {
    if p(s[|s| - 1]) { TrailingStops(s[..|s| - 1], p); }
  }

  lemma StripKeepsHead<T>(s: seq<T>, p: T -> bool)
    requires s != [] && !p(s[0])
    ensures Strip(s, p) != [] && Strip(s, p)[0] == s[0]
  {
    TrailingStops(s, p);
    assert s[0..] == s;
  }

  ghost predicate Alike<S, T>(s: seq<S>, p: S -> bool, t: seq<T>, q: T -> bool) {
    |s| == |t| && forall i :: 0 <= i < |s| ==> p(s[i]) == q(t[i])
  }

  lemma {:induction false} LeadingAlike<S, T>(s: seq<S>, p: S -> bool, t: seq<T>, q: T -> bool)
    requires Alike(s, p, t, q)
    ensures Leading(s, p) == Leading(t, q)
  {
    if s != [] && p(s[0]) { LeadingAlike(s[1..], p, t[1..], q); }
  }

  lemma {:induction false} TrailingAlike<S, T>(s: seq<S>, p: S -> bool, t: seq<T>, q: T -> bool)
    requires Alike(s, p, t, q)
    ensures Trailing(s, p) == Trailing(t, q)
  {
    if s != [] && p(s[|s| - 1]) { TrailingAlike(s[..|s| - 1], p, t[..|t| - 1], q); }
  }

  lemma {:induction false} LeadingIsAll<T>(s: seq<T>, p: T -> bool)
    ensures Leading(s, p) < |s| ==> !p(s[Leading(s, p)])
  {
    if s != [] && p(s[0]) { LeadingIsAll(s[1..], p); }
  }

  lemma {:induction false} TrailingIsAll<T>(s: seq<T>, p: T -> bool)
    ensures Trailing(s, p) < |s| ==> !p(s[|s| - 1 - Trailing(s, p)])
  {
    if s != [] && p(s[|s| - 1]) { TrailingIsAll(s[..|s| - 1], p); }
  }

  /** Nothing to strip at either end. */
  ghost predicate Stripped<T>(s: seq<T>, p: T -> bool) {
    s == [] || (!p(s[0]) && !p(s[|s| - 1]))
  }

  lemma NothingToDrop<T>(s: seq<T>, p: T -> bool)
    ensures s == [] || !p(s[0]) ==> Leading(s, p) == 0
    ensures s == [] || !p(s[|s| - 1]) ==> Trailing(s, p) == 0
  {}

  lemma StripStrips<T>(s: seq<T>, p: T -> bool)
    ensures Stripped(Strip(s, p), p)
    ensures Stripped(s, p) <==> Strip(s, p) == s
  {
    hide Leading, Trailing;
    var lo, hi := Leading(s, p), Last(s, p);
    var rest := s[lo..];
    LeadingIsAll(s, p);
    TrailingIsAll(rest, p);
    if lo < hi {
      assert Strip(s, p)[0] == s[lo];
      assert Strip(s, p)[hi - lo - 1] == s[hi - 1] == rest[|rest| - 1 - Trailing(rest, p)];
    }
    NothingToDrop(s, p);
    if Stripped(s, p) { assert s[0..] == s; }
  }

  lemma LastAlike<S, T>(s: seq<S>, p: S -> bool, t: seq<T>, q: T -> bool)
    requires Alike(s, p, t, q)
    ensures Leading(s, p) == Leading(t, q) && Last(s, p) == Last(t, q)
  {
    LeadingAlike(s, p, t, q);
    TrailingAlike(s[Leading(s, p)..], p, t[Leading(s, p)..], q);
  }

  // ---------------------------------------------------------------- reading the text again

  /**
   normalizeHtml serializes in XML mode, where an element without children is written self-closed. An HTML
   parser ignores that slash on a quote or a list and leaves the element open to the end of its parent
   (HTML Standard, section 13.2.6.4.7).
   */
  predicate StaysOpen(node: Node) {
    node.Element? && (node.tag.Blockquote? || node.tag.Ul? || node.tag.Ol?) && node.children == []
  }

  /** A paragraph is left open too, but every other block closes it. */
  predicate OpenParagraph(node: Node) {
    node.Element? && node.tag.P? && node.children == []
  }

  predicate InParagraph(node: Node) {
    node.Element? ==>
      !(node.tag.P? || node.tag.Blockquote? || node.tag.Ul? || node.tag.Ol? || node.tag.Li? || node.tag.Pre? || node.tag.Div?)
  }

  /** The siblings from `node` on, when `rest` is read behind it: what is left open takes them, or the first of them, in. */
  function Precede(node: Node, children: seq<Node>, rest: seq<Node>): (r: seq<Node>)
    ensures 0 < |r| <= |rest| + 1
  {
    if !node.Element? then [node] + rest
    else if StaysOpen(node) then [node.(children := rest)]
    else if OpenParagraph(node) then
      var k := Leading(rest, InParagraph);
      [node.(children := rest[..k])] + rest[k..]
    else [node.(children := children)] + rest
  }

  /** The tree an HTML parser makes of that text, for trees whose marks and code elements all have children. */
  function Reread(nodes: seq<Node>): (r: seq<Node>)
    ensures |r| <= |nodes|
    decreases nodes
  {
    if nodes == [] then []
    else Precede(nodes[0], if nodes[0].Element? then Reread(nodes[0].children) else [], Reread(nodes[1..]))
  }

  /** Nothing is open for a following sibling to fall into. */
  ghost predicate Closed(nodes: seq<Node>)
    decreases nodes
  {
    || nodes == []
    || (&& (StaysOpen(nodes[0]) ==> |nodes| == 1)
        && (OpenParagraph(nodes[0]) && |nodes| > 1 ==> !InParagraph(nodes[1]))
        && (nodes[0].Element? ==> Closed(nodes[0].children))
        && Closed(nodes[1..]))
  }

  lemma HeadStays(nodes: seq<Node>)
    requires nodes != []
    ensures var r := Reread(nodes);
            r != [] && InParagraph(r[0]) == InParagraph(nodes[0]) && IsBreak(r[0]) == IsBreak(nodes[0])
  {}

  lemma {:induction false} ClosedParts(nodes: seq<Node>, k: nat)
    requires Closed(nodes) && k <= |nodes|
    ensures Closed(nodes[..k]) && Closed(nodes[k..])
  {
    if k == 0 {
    } else {
      ClosedParts(nodes[1..], k - 1);
      assert nodes[..k][1..] == nodes[1..][..k - 1] && nodes[k..] == nodes[1..][k - 1..];
    }
  }

  lemma ClosedCons(node: Node, rest: seq<Node>)
    requires Closed(rest) && (StaysOpen(node) ==> rest == []) && (node.Element? ==> Closed(node.children))
    requires OpenParagraph(node) && rest != [] ==> !InParagraph(rest[0])
    ensures Closed([node] + rest)
  {
    assert ([node] + rest)[1..] == rest;
  }

  lemma {:induction false} RereadCloses(nodes: seq<Node>)
    ensures Closed(Reread(nodes))
    decreases nodes
  {
    hide Closed;
    NothingIsClosed();
    if nodes == [] {
    } else {
      var node, rest := nodes[0], Reread(nodes[1..]);
      var r := Reread(nodes);
      RereadCloses(nodes[1..]);
      if StaysOpen(node) {
        ClosedCons(r[0], []);
        assert r == [r[0]] + [];
      } else if OpenParagraph(node) {
        var k := Leading(rest, InParagraph);
        LeadingIsAll(rest, InParagraph);
        ClosedParts(rest, k);
        ClosedCons(r[0], rest[k..]);
      } else {
        if node.Element? {
          RereadCloses(node.children);
          if node.children != [] { HeadStays(node.children); }
        }
        ClosedCons(r[0], rest);
      }
    }
  }

  lemma NothingIsClosed()
    ensures Closed([])
  {}

  lemma {:induction false} ClosedIsFixed(nodes: seq<Node>)
    requires Closed(nodes)
    ensures Reread(nodes) == nodes
    decreases nodes
  {
    if nodes == [] {
    } else {
      ClosedIsFixed(nodes[1..]);
      if nodes[0].Element? { ClosedIsFixed(nodes[0].children); }
    }
  }

  lemma PrecedeEnd(node: Node, children: seq<Node>, rest: seq<Node>)
    requires rest != []
    ensures var r := Precede(node, children, rest);
            if |r| == 1 then !IsBreak(r[0]) else r[|r| - 1] == rest[|rest| - 1]
  {
    hide Leading;
  }

  lemma {:induction false} RereadKeepsEnds(nodes: seq<Node>)
    requires nodes != [] && !IsBreak(nodes[|nodes| - 1])
    ensures var r := Reread(nodes); r != [] && !IsBreak(r[|r| - 1])
    decreases nodes
  {
    HeadStays(nodes);
    hide IsBreak, Precede;
    if |nodes| == 1 {
    } else {
      RereadKeepsEnds(nodes[1..]);
      PrecedeEnd(nodes[0], if nodes[0].Element? then Reread(nodes[0].children) else [], Reread(nodes[1..]));
    }
  }

  lemma {:induction false} RereadKeepsTidy(nodes: seq<Node>)
    requires AllTidy(nodes)
    ensures AllTidy(Reread(nodes))
    decreases nodes
  {
    hide Tidy;
    if nodes == [] {
    } else {
      assert TidyTags(nodes[0]);
      assert AllTidy(nodes[1..]);
      RereadKeepsTidy(nodes[1..]);
      if nodes[0].Element? { RereadKeepsTidy(nodes[0].children); }
      assert TidyTags(Reread(nodes)[0]);
    }
  }

  lemma {:induction false} CleanParts(nodes: seq<Node>, k: nat)
    requires H.AllClean(H.TextOnly, nodes) && k <= |nodes|
    ensures H.AllClean(H.TextOnly, nodes[..k]) && H.AllClean(H.TextOnly, nodes[k..])
  {
    hide H.Clean;
    if k == 0 {
    } else {
      CleanParts(nodes[1..], k - 1);
      assert nodes[..k][1..] == nodes[1..][..k - 1] && nodes[k..] == nodes[1..][k - 1..];
    }
  }

  lemma CleanCons(node: Node, rest: seq<Node>)
    requires H.Clean(H.TextOnly, node) && H.AllClean(H.TextOnly, rest)
    ensures H.AllClean(H.TextOnly, [node] + rest)
  {
    assert ([node] + rest)[1..] == rest;
  }

  lemma {:induction false} RereadKeepsClean(nodes: seq<Node>)
    requires H.AllClean(H.TextOnly, nodes)
    ensures H.AllClean(H.TextOnly, Reread(nodes))
    decreases nodes
  {
    hide H.SanitizeAttrs;
    if nodes == [] {
    } else {
      var r, rest := Reread(nodes), Reread(nodes[1..]);
      RereadKeepsClean(nodes[1..]);
      if StaysOpen(nodes[0]) {
        CleanCons(r[0], []);
        assert r == [r[0]] + [];
      } else if OpenParagraph(nodes[0]) {
        var k := Leading(rest, InParagraph);
        CleanParts(rest, k);
        CleanCons(r[0], rest[k..]);
      } else {
        if nodes[0].Element? { RereadKeepsClean(nodes[0].children); }
        CleanCons(r[0], rest);
      }
    }
  }

  // ---------------------------------------------------------------- no text is lost

  lemma {:induction false} TidyKeepsText(nodes: seq<Node>)
    ensures H.VisibleTextAll(TidyNodes(nodes)) == H.VisibleTextAll(nodes)
  {
    if nodes == [] {
    } else {
      if nodes[0].Element? { TidyKeepsText(nodes[0].children); }
      TidyKeepsText(nodes[1..]);
      H.VisibleTextOne(TidyNode(nodes[0]));
      assert H.VisibleText(TidyNode(nodes[0])) == H.VisibleText(nodes[0]);
      H.VisibleTextConcat([TidyNode(nodes[0])], TidyNodes(nodes[1..]));
    }
  }

  ghost predicate VoidBreaks(nodes: seq<Node>) {
    forall node :: node in nodes && IsBreak(node) ==> node.children == []
  }

  lemma {:induction false} LeadingKeepsText(nodes: seq<Node>)
    requires VoidBreaks(nodes)
    ensures H.VisibleTextAll(nodes[Leading(nodes, IsBreak)..]) == H.VisibleTextAll(nodes)
  {
    if nodes != [] && IsBreak(nodes[0]) {
      LeadingKeepsText(nodes[1..]);
      assert nodes[0] in nodes && H.VisibleText(nodes[0]) == [];
      assert nodes[Leading(nodes, IsBreak)..] == nodes[1..][Leading(nodes[1..], IsBreak)..];
    } else {
      assert nodes[0..] == nodes;
    }
  }

  lemma {:induction false} TrailingKeepsText(nodes: seq<Node>)
    requires VoidBreaks(nodes)
    ensures H.VisibleTextAll(nodes[..|nodes| - Trailing(nodes, IsBreak)]) == H.VisibleTextAll(nodes)
  {
    if nodes != [] && IsBreak(nodes[|nodes| - 1]) {
      var front, last := nodes[..|nodes| - 1], nodes[|nodes| - 1];
      TrailingKeepsText(front);
      H.VisibleTextConcat(front, [last]);
      H.VisibleTextOne(last);
      assert nodes == front + [last];
      assert nodes[..|nodes| - Trailing(nodes, IsBreak)] == front[..|front| - Trailing(front, IsBreak)];
    } else {
      assert nodes[..|nodes|] == nodes;
    }
  }

  lemma StripKeepsText(nodes: seq<Node>)
    requires VoidBreaks(nodes)
    ensures H.VisibleTextAll(Strip(nodes, IsBreak)) == H.VisibleTextAll(nodes)
  {
    var rest := nodes[Leading(nodes, IsBreak)..];
    LeadingKeepsText(nodes);
    TrailingKeepsText(rest);
    assert Strip(nodes, IsBreak) == rest[..|rest| - Trailing(rest, IsBreak)];
  }

  lemma PrecedeKeepsText(node: Node, children: seq<Node>, rest: seq<Node>)
    requires node.Element? ==> H.VisibleTextAll(children) == H.VisibleTextAll(node.children)
    ensures H.VisibleTextAll(Precede(node, children, rest)) == H.VisibleText(node) + H.VisibleTextAll(rest)
  {
    if node.Element? && StaysOpen(node) {
      H.VisibleTextOne(node.(children := rest));
    } else if node.Element? && OpenParagraph(node) {
      var k := Leading(rest, InParagraph);
      H.VisibleTextOne(node.(children := rest[..k]));
      H.VisibleTextConcat([node.(children := rest[..k])], rest[k..]);
      H.VisibleTextConcat(rest[..k], rest[k..]);
      assert rest == rest[..k] + rest[k..];
    } else {
      var first := if node.Element? then node.(children := children) else node;
      H.VisibleTextOne(first);
      H.VisibleTextConcat([first], rest);
    }
  }

  /** Whatever is left open, the parser reads all text again, in order. */
  lemma {:induction false} RereadKeepsText(nodes: seq<Node>)
    ensures H.VisibleTextAll(Reread(nodes)) == H.VisibleTextAll(nodes)
    decreases nodes
  {
    if nodes == [] {
    } else {
      RereadKeepsText(nodes[1..]);
      if nodes[0].Element? { RereadKeepsText(nodes[0].children); }
      PrecedeKeepsText(nodes[0], if nodes[0].Element? then Reread(nodes[0].children) else [], Reread(nodes[1..]));
    }
  }

  // ---------------------------------------------------------------- the whole round

  /** sanitizeHtml for posts and messages, from the tree it is given to the tree an HTML parser makes of its result. */
  function SanitizeHtml(nodes: seq<Node>): seq<Node> {
    Reread(Strip(TidyNodes(H.SanitizeAll(H.TextOnly, nodes)), IsBreak))
  }

  lemma StripIsTidy(nodes: seq<Node>)
    requires AllTidy(nodes)
    ensures AllTidy(Strip(nodes, IsBreak))
  {
    hide TidyTags;
  }

  lemma ResultIsTidy(nodes: seq<Node>)
    ensures AllTidy(SanitizeHtml(nodes))
  {
    var tidied := TidyNodes(H.SanitizeAll(H.TextOnly, nodes));
    TidyNodesAreTidy(H.SanitizeAll(H.TextOnly, nodes));
    StripIsTidy(tidied);
    RereadKeepsTidy(Strip(tidied, IsBreak));
    hide Reread, Strip, TidyNodes, AllTidy;
  }

  /** Sanitizing what an HTML parser made of a clean, tidy and stripped tree changes nothing any more. */
  lemma RereadIsFixed(nodes: seq<Node>)
    requires H.AllClean(H.TextOnly, nodes) && AllTidy(nodes) && Stripped(nodes, IsBreak)
    ensures SanitizeHtml(nodes) == Reread(nodes) && SanitizeHtml(Reread(nodes)) == Reread(nodes)
  {
    var r := Reread(nodes);
    RereadKeepsClean(nodes);
    RereadKeepsTidy(nodes);
    RereadCloses(nodes);
    if nodes != [] {
      HeadStays(nodes);
      RereadKeepsEnds(nodes);
    }
    CleanTidyStripped(nodes);
    CleanTidyStripped(r);
    ClosedIsFixed(r);
  }

  lemma CleanTidyStripped(nodes: seq<Node>)
    requires H.AllClean(H.TextOnly, nodes) && AllTidy(nodes) && Stripped(nodes, IsBreak)
    ensures SanitizeHtml(nodes) == Reread(nodes)
  {
    H.AllCleanIsFixed(H.TextOnly, nodes);
    TidyNodesAreTidy(nodes);
    StripStrips(nodes, IsBreak);
    hide H.AllClean, Reread, Strip, Stripped, TidyNodes, AllTidy, H.SanitizeAll;
  }
}
