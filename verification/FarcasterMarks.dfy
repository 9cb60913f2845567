/** What the marks of a node mean for the Farcaster export, with the formats and limits written out. */
module FarcasterMarks {
  import opened Wrappers
  import opened JsStrings
  import opened RichText
  import opened Farcaster

  // ---------------------------------------------------------------- the fid of a mention

  /** The decimal notation of a number. */
  function Decimal(n: nat): (s: Str)
    ensures s != [] && IsDigits(s) && DigitsValue(s) == n && (n > 0 ==> s[0] != 48)
  {
    if n < 10 then [48 + n]
    else
      var front := Decimal(n / 10);
      var s := front + [48 + n % 10];
      assert s[..|s| - 1] == front;
      s
  }

  /** The id is this number or its decimal notation; a fid is positive and at most 2^53 - 1. */
  predicate IsFid(id: MarkId, fid: nat) {
    1 <= fid <= 9007199254740991 && (id == NumberId(fid) || id == TextId(Decimal(fid)))
  }

  lemma {:induction false} DecimalIsUnique(s: Str)
    requires s != [] && IsDigits(s) && s[0] != 48
    ensures s == Decimal(DigitsValue(s)) && DigitsValue(s) > 0
  {
    var front, last := s[..|s| - 1], s[|s| - 1];
    if front == [] {
      assert DigitsValue(front) == 0;
    } else {
      DecimalIsUnique(front);
      assert s == front + [last];
    }
  }

  lemma ParseFidIff(id: MarkId, fid: nat)
    ensures ParseFid(id) == Some(fid) <==> IsFid(id, fid)
  {
    if id.TextId? && id.text != [] && IsDigits(id.text) && id.text[0] != 48 { DecimalIsUnique(id.text); }
    hide DigitsValue;
  }

  /** The first mention among the marks carries this fid. */
  ghost predicate FirstMentionIs(marks: seq<Mark>, fid: nat) {
    exists i :: 0 <= i < |marks| && marks[i].kind.Mention? && IsFid(marks[i].id, fid)
                && forall j :: 0 <= j < i ==> !marks[j].kind.Mention?
  }

  lemma {:induction false} MentionFidIff(marks: seq<Mark>, fid: nat)
    ensures MentionFid(marks) == Some(fid) <==> FirstMentionIs(marks, fid)
  {
    hide ParseFid, IsFid;
    if marks == [] {
    } else {
      MentionFidIff(marks[1..], fid);
      ParseFidIff(marks[0].id, fid);
      assert forall i :: 0 < i < |marks| ==> marks[1..][i - 1] == marks[i];
      if !marks[0].kind.Mention? && FirstMentionIs(marks[1..], fid) {
        var i :| 0 <= i < |marks[1..]| && marks[1..][i].kind.Mention? && IsFid(marks[1..][i].id, fid)
                 && forall j :: 0 <= j < i ==> !marks[1..][j].kind.Mention?;
        forall j | 0 <= j < i + 1 ensures !marks[j].kind.Mention? {
          if j > 0 { assert marks[1..][j - 1] == marks[j]; }
        }
        assert marks[i + 1].kind.Mention?;
      }
      if FirstMentionIs(marks, fid) && !marks[0].kind.Mention? {
        var i :| 0 <= i < |marks| && marks[i].kind.Mention? && IsFid(marks[i].id, fid)
                 && forall j :: 0 <= j < i ==> !marks[j].kind.Mention?;
        assert marks[1..][i - 1].kind.Mention?;
      }
    }
  }

  // ---------------------------------------------------------------- the urls of links

  /** A safe absolute link whose url takes at most 256 bytes. */
  ghost predicate Embeddable(m: Mark) {
    m.kind.Link? && m.href.Some? && m.href.value != [] && SafeAbsolute(m.href.value) && |Utf8(m.href.value)| <= 256
  }

  /** The urls of the embeddable links, in mark order. */
  ghost predicate UrlsInOrder(marks: seq<Mark>, urls: seq<Str>) {
    if marks == [] then urls == []
    else if Embeddable(marks[0]) then urls != [] && urls[0] == marks[0].href.value && UrlsInOrder(marks[1..], urls[1..])
    else UrlsInOrder(marks[1..], urls)
  }

  lemma EmbeddableIff(m: Mark)
    requires m.kind.Link? && NormalizeMark(m) == Some(m)
    ensures m.href.Some? && SanitizeAbsoluteHref(OrEmpty(m.href)) == m.href.value && (Embeddable(m) <==> EligibleUrl(m.href.value))
  {
    AbsoluteHrefIff(OrEmpty(m.href));
    ByteLengthIsUtf8Length(OrEmpty(m.href));
    TrimTrims(OrEmpty(m.href));
    hide SanitizeAbsoluteHref, ByteLength, Utf8, KeptScheme, Trim;
  }

  lemma {:induction false} LinkUrlsAre(marks: seq<Mark>)
    requires EachNormal(marks)
    ensures UrlsInOrder(marks, LinkUrls(marks))
  {
    hide Embeddable, NormalizeMark, SanitizeAbsoluteHref;
    if marks == [] {
    } else {
      LinkUrlsAre(marks[1..]);
      NotALink(marks[0]);
      if marks[0].kind.Link? { EmbeddableIff(marks[0]); }
      var rest := LinkUrls(marks[1..]);
      assert Embeddable(marks[0]) ==> LinkUrls(marks) == [marks[0].href.value] + rest && LinkUrls(marks)[1..] == rest;
      assert !Embeddable(marks[0]) ==> LinkUrls(marks) == rest;
    }
  }

  lemma NotALink(m: Mark)
    ensures Embeddable(m) ==> m.kind.Link?
  {}

  /**
   What a node gives the cast: the fid of the first mention among its normalized marks, if that is a positive safe
   integer in decimal notation, and the urls of its safe absolute links of at most 256 bytes, in mark order.
   */
  lemma NodeMeans(node: Inline)
    ensures forall fid: nat :: NodeFid(node) == Some(fid) <==> FirstMentionIs(NormalizeMarks(node.marks), fid)
    ensures UrlsInOrder(NormalizeMarks(node.marks), NodeUrls(node))
  {
    NormalizeMarksIsProjection(node.marks);
    LinkUrlsAre(NormalizeMarks(node.marks));
    forall fid: nat ensures NodeFid(node) == Some(fid) <==> FirstMentionIs(NormalizeMarks(node.marks), fid) {
      MentionFidIff(NormalizeMarks(node.marks), fid);
    }
  }
}
