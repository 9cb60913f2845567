/** What the facets of the AT Protocol export say, over the marks of the document. */
module AtProtoFacets {
  import opened Wrappers
  import opened JsStrings
  import opened RichText
  import opened AtProto

  // ---------------------------------------------------------------- what a facet says

  /** did:method:identifier, letter by letter. */
  predicate DidOf(did: Str, name: Str, id: Str) {
    && did == [100, 105, 100, 58] + name + [58] + id && name != [] && id != []
    && (forall i :: 0 <= i < |name| ==> 97 <= name[i] <= 122 || 48 <= name[i] <= 57)
    && (forall i :: 0 <= i < |id| ==>
          97 <= id[i] <= 122 || 65 <= id[i] <= 90 || 48 <= id[i] <= 57 || id[i] in {37, 45, 46, 58, 95})
  }

  predicate AllSpace(s: Str) {
    forall i :: 0 <= i < |s| ==> IsSpace(s[i])
  }

  /** `value` is the tag with white space around it and at most one # in front: 1 to 640 units, none of them white space. */
  predicate TagOf(value: Str, before: Str, mark: Str, tag: Str, after: Str) {
    && value == before + mark + tag + after && AllSpace(before) && AllSpace(after)
    && 1 <= |tag| <= 640 && (forall i :: 0 <= i < |tag| ==> !IsSpace(tag[i]))
    && (mark == [35] || (mark == [] && tag[0] != 35))
  }

  /** What a mark of a node says on the AT Protocol. */
  ghost predicate Says(node: Inline, m: Mark, f: Feature) {
    match f
    case LinkFeature(uri) => m.kind.Link? && m.href == Some(uri) && SafeAbsolute(uri)
    case MentionFeature(did) => m.kind.Mention? && m.id == TextId(did) && exists name, id :: DidOf(did, name, id)
    case TagFeature(tag) =>
      m.kind.Hashtag? && var value := if m.name.Some? && m.name.value != [] then m.name.value else node.text;
                         exists before, mark, after :: TagOf(value, before, mark, tag, after)
  }

  ghost predicate Mute(node: Inline, m: Mark) {
    forall f :: !Says(node, m, f)
  }

  /** The features are exactly what the marks say, in mark order; a mute mark says nothing. */
  ghost predicate SaysInOrder(node: Inline, marks: seq<Mark>, features: seq<Feature>) {
    if marks == [] then features == []
    else if Mute(node, marks[0]) then SaysInOrder(node, marks[1..], features)
    else features != [] && Says(node, marks[0], features[0]) && SaysInOrder(node, marks[1..], features[1..])
  }

  lemma {:induction false} MethodUnitsOf(name: Str, rest: Str)
    requires forall i :: 0 <= i < |name| ==> IsMethodUnit(name[i])
    requires rest != [] && !IsMethodUnit(rest[0])
    ensures MethodUnits(name + rest) == |name|
  {
    if name == [] {
      assert name + rest == rest;
    } else {
      assert (name + rest)[1..] == name[1..] + rest;
      MethodUnitsOf(name[1..], rest);
    }
  }

  lemma {:induction false} MethodUnitsAre(s: Str)
    ensures forall i :: 0 <= i < MethodUnits(s) ==> IsMethodUnit(s[i])
  {
    if s != [] && IsMethodUnit(s[0]) { MethodUnitsAre(s[1..]); }
  }

  lemma DidHasParts(did: Str)
    requires IsDid(did)
    ensures exists name, id :: DidOf(did, name, id)
  {
    assert U("did:") == [100, 105, 100, 58];
    var n := MethodUnits(did[4..]);
    MethodUnitsAre(did[4..]);
    var name, id := did[4..4 + n], did[4 + n + 1..];
    assert did == did[..4] + name + [58] + id;
    forall i | 0 <= i < |id|
      ensures 97 <= id[i] <= 122 || 65 <= id[i] <= 90 || 48 <= id[i] <= 57 || id[i] in {37, 45, 46, 58, 95}
    {
      assert IsIdentifierUnit(did[4 + n + 1 + i]);
    }
    assert forall i :: 0 <= i < |name| ==> name[i] == did[4..][i];
    hide U, MethodUnits;
    assert DidOf(did, name, id);
  }

  lemma PartsMakeDid(did: Str, name: Str, id: Str)
    requires DidOf(did, name, id)
    ensures IsDid(did)
  {
    assert U("did:") == [100, 105, 100, 58];
    hide U;
    assert did[4..] == name + ([58] + id);
    MethodUnitsOf(name, [58] + id);
    hide MethodUnits;
    assert did[..4] == [100, 105, 100, 58];
  }

  lemma DidIff(did: Str)
    ensures IsDid(did) <==> exists name, id :: DidOf(did, name, id)
  {
    if IsDid(did) { DidHasParts(did); }
    forall name, id | DidOf(did, name, id) ensures IsDid(did) { PartsMakeDid(did, name, id); }
    hide IsDid, DidOf;
  }

  lemma {:induction false} TrimParts(s: Str) returns (before: Str, after: Str)
    ensures s == before + Trim(s) + after && AllSpace(before) && AllSpace(after)
  {
    before := TrimStartPart(s);
    after := TrimEndPart(TrimStart(s));
  }

  lemma {:induction false} TrimStartPart(s: Str) returns (before: Str)
    ensures s == before + TrimStart(s) && AllSpace(before)
  {
    if s != [] && IsSpace(s[0]) {
      var more := TrimStartPart(s[1..]);
      before := [s[0]] + more;
    } else {
      before := [];
    }
  }

  lemma {:induction false} TrimEndPart(s: Str) returns (after: Str)
    ensures s == TrimEnd(s) + after && AllSpace(after)
  {
    if s != [] && IsSpace(s[|s| - 1]) {
      var more := TrimEndPart(s[..|s| - 1]);
      after := more + [s[|s| - 1]];
    } else {
      after := [];
    }
  }

  lemma {:induction false} TrimStartOf(before: Str, s: Str)
    requires AllSpace(before) && s != [] && !IsSpace(s[0])
    ensures TrimStart(before + s) == s
  {
    if before == [] {
      assert before + s == s;
    } else {
      assert (before + s)[1..] == before[1..] + s;
      TrimStartOf(before[1..], s);
    }
  }

  lemma {:induction false} TrimEndOf(s: Str, after: Str)
    requires AllSpace(after) && s != [] && !IsSpace(s[|s| - 1])
    ensures TrimEnd(s + after) == s
  {
    if after == [] {
      assert s + after == s;
    } else {
      assert (s + after)[..|s + after| - 1] == s + after[..|after| - 1];
      TrimEndOf(s, after[..|after| - 1]);
    }
  }

  lemma TrimOf(before: Str, s: Str, after: Str)
    requires AllSpace(before) && AllSpace(after) && s != [] && !IsSpace(s[0]) && !IsSpace(s[|s| - 1])
    ensures Trim(before + s + after) == s
  {
    assert before + s + after == before + (s + after);
    TrimStartOf(before, s + after);
    TrimEndOf(s, after);
  }

  lemma HasTag(value: Str, before: Str, after: Str, tag: Str)
    requires TagName(value) == tag && tag != []
    requires value == before + Trim(value) + after && AllSpace(before) && AllSpace(after)
    ensures exists mark :: TagOf(value, before, mark, tag, after)
  {
    hide IsSpace, Trim;
    var trimmed := Trim(value);
    var mark := if trimmed[0] == 35 then [35] else [];
    assert trimmed == mark + tag;
    assert value == before + mark + tag + after;
    assert !HasSpace(tag);
    assert TagOf(value, before, mark, tag, after);
  }

  lemma PartsMakeTag(value: Str, before: Str, mark: Str, tag: Str, after: Str)
    requires TagOf(value, before, mark, tag, after)
    ensures TagName(value) == tag
  {
    TrimOf(before, mark + tag, after);
    hide IsSpace, Trim;
    assert value == before + (mark + tag) + after;
    assert (mark + tag)[|mark|..] == tag;
  }

  lemma TagIff(value: Str, tag: Str)
    ensures TagName(value) == tag && tag != [] <==> exists before, mark, after :: TagOf(value, before, mark, tag, after)
  {
    hide TagName, TagOf, IsSpace, Trim;
    if TagName(value) == tag && tag != [] {
      var before, after := TrimParts(value);
      HasTag(value, before, after, tag);
    }
    forall before, mark, after | TagOf(value, before, mark, tag, after) ensures TagName(value) == tag && tag != [] {
      PartsMakeTag(value, before, mark, tag, after);
      TagIsThere(value, before, mark, tag, after);
    }
  }

  lemma TagIsThere(value: Str, before: Str, mark: Str, tag: Str, after: Str)
    requires TagOf(value, before, mark, tag, after)
    ensures tag != []
  {}

  lemma LinkSays(node: Inline, m: Mark, f: Feature)
    requires m.kind.Link? && NormalizeMark(m) == Some(m)
    ensures FeatureOf(node, m) == Some(f) <==> Says(node, m, f)
  {
    AbsoluteHrefIff(OrEmpty(m.href));
    hide SanitizeAbsoluteHref, SafeAbsolute, Trim, IsDid, TagName, TagOf, DidOf;
    TrimTrims(m.href.value);
    SafeIsTrimmed(OrEmpty(m.href));
  }

  lemma SafeIsTrimmed(href: Str)
    ensures SafeAbsolute(Trim(href)) ==> Trim(href) != []
    ensures SafeAbsolute(href) ==> Trim(href) == href
  {
    TrimTrims(href);
    hide KeptScheme, Trim;
  }

  lemma MentionSays(node: Inline, m: Mark, f: Feature)
    requires m.kind.Mention?
    ensures FeatureOf(node, m) == Some(f) <==> Says(node, m, f)
  {
    if m.id.TextId? { DidIff(m.id.text); }
    hide IsDid, DidOf, SanitizeAbsoluteHref, TagName, TagOf;
  }

  lemma TagSays(node: Inline, m: Mark, f: Feature)
    requires m.kind.Hashtag?
    ensures FeatureOf(node, m) == Some(f) <==> Says(node, m, f)
  {
    if f.TagFeature? { TagIff(if OrEmpty(m.name) != [] then OrEmpty(m.name) else node.text, f.tag); }
    hide IsDid, DidOf, SanitizeAbsoluteHref, TagName, TagOf;
  }

  lemma FeatureSays(node: Inline, m: Mark, f: Feature)
    requires NormalizeMark(m) == Some(m)
    ensures FeatureOf(node, m) == Some(f) <==> Says(node, m, f)
  {
    if m.kind.Link? {
      LinkSays(node, m, f);
    } else if m.kind.Mention? {
      MentionSays(node, m, f);
    } else if m.kind.Hashtag? {
      TagSays(node, m, f);
    }
    hide NormalizeMark, DidOf, TagOf, SanitizeAbsoluteHref, TagName, IsDid, SafeAbsolute;
  }

  lemma MuteIff(node: Inline, m: Mark)
    requires NormalizeMark(m) == Some(m)
    ensures FeatureOf(node, m) == None <==> Mute(node, m)
  {
    hide NormalizeMark, FeatureOf, Says;
    forall f ensures FeatureOf(node, m) == Some(f) <==> Says(node, m, f) { FeatureSays(node, m, f); }
  }

  lemma {:induction false} FeaturesSay(node: Inline, marks: seq<Mark>)
    requires EachNormal(marks)
    ensures SaysInOrder(node, marks, FeaturesOf(node, marks))
  {
    hide FeatureOf, Says, Mute, NormalizeMark;
    if marks == [] {
    } else {
      FeaturesSay(node, marks[1..]);
      MuteIff(node, marks[0]);
      var f := FeatureOf(node, marks[0]);
      if f.Some? { FeatureSays(node, marks[0], f.value); }
      var rest := FeaturesOf(node, marks[1..]);
      assert FeaturesOf(node, marks) == if f.Some? then [f.value] + rest else rest;
      assert f.Some? ==> FeaturesOf(node, marks)[1..] == rest;
    }
  }

  lemma {:induction false} SaysIff(node: Inline, marks: seq<Mark>, features: seq<Feature>)
    requires SaysInOrder(node, marks, features)
    ensures features != [] <==> exists i :: 0 <= i < |marks| && !Mute(node, marks[i])
  {
    hide Says, Mute;
    if marks == [] {
    } else if Mute(node, marks[0]) {
      SaysIff(node, marks[1..], features);
      assert forall i :: 0 < i < |marks| ==> marks[i] == marks[1..][i - 1];
      assert forall i :: 0 <= i < |marks| - 1 ==> marks[1..][i] == marks[i + 1];
    }
  }

  // ---------------------------------------------------------------- every facet of a document

  /** The facet lies exactly over piece `i` and says what the marks of that piece say. */
  ghost predicate IsFacetOf(ps: seq<Inline>, i: nat, f: Facet) {
    && i < |ps| && f.byteStart == ByteLength(TextOf(ps[..i])) && f.byteEnd == ByteLength(TextOf(ps[..i + 1]))
    && SaysInOrder(ps[i], NormalizeMarks(ps[i].marks), f.features)
  }

  /** Some mark of the node is a safe link, a mention of a DID or a hashtag with a tag. */
  ghost predicate Speaks(node: Inline) {
    exists i :: 0 <= i < |NormalizeMarks(node.marks)| && !Mute(node, NormalizeMarks(node.marks)[i])
  }

  lemma FeaturesIffSpeaks(node: Inline)
    ensures Features(node) != [] <==> Speaks(node)
    ensures SaysInOrder(node, NormalizeMarks(node.marks), Features(node))
  {
    NormalizeMarksIsProjection(node.marks);
    FeaturesSay(node, NormalizeMarks(node.marks));
    SaysIff(node, NormalizeMarks(node.marks), Features(node));
    hide FeaturesOf, Mute, NormalizeMarks, EachNormal, Sorted, SaysInOrder;
  }

  /** The place and the features piece `i` should have. */
  ghost function FacetFor(ps: seq<Inline>, i: nat): Facet
    requires i < |ps|
  {
    Facet(ByteLength(TextOf(ps[..i])), ByteLength(TextOf(ps[..i + 1])), Features(ps[i]))
  }

  lemma {:induction false} FacetsAre(ps: seq<Inline>, f: Facet)
    ensures f in FacetsOf(ps) <==> exists i :: 0 <= i < |ps| && Features(ps[i]) != [] && f == FacetFor(ps, i)
  {
    hide Features, TextOf, ByteLength;
    if ps == [] {
    } else {
      var front, last := ps[..|ps| - 1], |ps| - 1;
      FacetsAre(front, f);
      assert ps[..|ps|] == ps;
      forall i | 0 <= i < last ensures FacetFor(ps, i) == FacetFor(front, i) {
        assert ps[..i] == front[..i] && ps[..i + 1] == front[..i + 1];
      }
    }
  }

  /**
   What the export says, over the marks of the document: a non-empty node has a facet exactly when one of its
   normalized marks is a safe absolute link, a mention of a DID or a hashtag with a tag; the facet covers the
   node, and its features are what these marks say, in mark order. There is no other facet.
   */
  lemma FacetsSayTheirMarks(blocks: seq<Block>)
    requires IsRichTextDocument(blocks)
    ensures var ps, facets := DocumentPieces(blocks), RichTextToAtProto(blocks).facets;
            && (forall i :: 0 <= i < |ps| ==> (Speaks(ps[i]) <==> exists f :: f in facets && f.features != [] && IsFacetOf(ps, i, f)))
            && (forall f :: f in facets ==> exists i :: 0 <= i < |ps| && Speaks(ps[i]) && IsFacetOf(ps, i, f))
  {
    ExportIsPieces(blocks);
    var ps, facets := DocumentPieces(blocks), RichTextToAtProto(blocks).facets;
    hide DocumentPieces, RichTextToAtProto, FacetsOf, Speaks, IsFacetOf;
    forall i | 0 <= i < |ps| ensures Speaks(ps[i]) <==> exists f :: f in facets && f.features != [] && IsFacetOf(ps, i, f) {
      FacetIffSpeaks(ps, i);
    }
    forall f | f in facets ensures exists i :: 0 <= i < |ps| && Speaks(ps[i]) && IsFacetOf(ps, i, f) {
      FacetHasPiece(ps, f);
    }
  }

  lemma FacetIffSpeaks(ps: seq<Inline>, i: nat)
    requires i < |ps|
    ensures Speaks(ps[i]) <==> exists f :: f in FacetsOf(ps) && f.features != [] && IsFacetOf(ps, i, f)
  {
    hide FacetsOf, Speaks, IsFacetOf, Features, FacetFor;
    FeaturesIffSpeaks(ps[i]);
    FacetsAre(ps, FacetFor(ps, i));
    FacetForIs(ps, i);
    forall f | f in FacetsOf(ps) && f.features != [] && IsFacetOf(ps, i, f) ensures Speaks(ps[i]) { FeatureSpeaks(ps, i, f); }
  }

  lemma FacetHasPiece(ps: seq<Inline>, f: Facet)
    requires f in FacetsOf(ps)
    ensures exists i :: 0 <= i < |ps| && Speaks(ps[i]) && IsFacetOf(ps, i, f)
  {
    hide FacetsOf, Speaks, IsFacetOf, Features, FacetFor;
    FacetsAre(ps, f);
    var i :| 0 <= i < |ps| && Features(ps[i]) != [] && f == FacetFor(ps, i);
    FeaturesIffSpeaks(ps[i]);
    FacetForIs(ps, i);
  }

  lemma FacetForIs(ps: seq<Inline>, i: nat)
    requires i < |ps|
    ensures IsFacetOf(ps, i, FacetFor(ps, i)) && FacetFor(ps, i).features == Features(ps[i])
  {
    FeaturesIffSpeaks(ps[i]);
    hide SaysInOrder, Features, NormalizeMarks, TextOf, ByteLength;
  }

  lemma FeatureSpeaks(ps: seq<Inline>, i: nat, f: Facet)
    requires f.features != [] && IsFacetOf(ps, i, f)
    ensures Speaks(ps[i])
  {
    SaysIff(ps[i], NormalizeMarks(ps[i].marks), f.features);
    hide SaysInOrder, NormalizeMarks, Mute;
  }
}
