/**
 JavaScript strings as sequences of UTF-16 code units, and their UTF-8 byte length as
 Buffer.byteLength computes it (section 3 of RFC 3629 over section 2 of RFC 2781).
 */
module JsStrings {
  type CodeUnit = n: nat | n < 0x10000
  type Byte = n: nat | n < 0x100
  type Str = seq<CodeUnit>

  /** An ASCII literal. */
  function U(s: string): (r: Str)
    requires forall i :: 0 <= i < |s| ==> s[i] as int < 0x80
  {
    seq(|s|, i requires 0 <= i < |s| => s[i] as int)
  }

  const NEWLINE: CodeUnit := 10

  predicate IsHigh(u: CodeUnit) { 0xD800 <= u < 0xDC00 }

  predicate IsLow(u: CodeUnit) { 0xDC00 <= u < 0xE000 }

  // ---------------------------------------------------------------- UTF-8

  /** A code unit on its own; a lone surrogate becomes U+FFFD. */
  function EncodeUnit(u: CodeUnit): seq<Byte> {
    if u < 0x80 then [u]
    else if u < 0x800 then [0xC0 + u / 0x40, 0x80 + u % 0x40]
    else if IsHigh(u) || IsLow(u) then [0xEF, 0xBF, 0xBD]
    else [0xE0 + u / 0x1000, 0x80 + u / 0x40 % 0x40, 0x80 + u % 0x40]
  }

  function EncodePair(high: CodeUnit, low: CodeUnit): seq<Byte>
    requires IsHigh(high) && IsLow(low)
  {
    var c := 0x10000 + (high - 0xD800) * 0x400 + (low - 0xDC00);
    [0xF0 + c / 0x40000, 0x80 + c / 0x1000 % 0x40, 0x80 + c / 0x40 % 0x40, 0x80 + c % 0x40]
  }

  predicate StartsWithPair(s: Str) {
    |s| > 1 && IsHigh(s[0]) && IsLow(s[1])
  }

  function Utf8(s: Str): seq<Byte> {
    if s == [] then []
    else if StartsWithPair(s) then EncodePair(s[0], s[1]) + Utf8(s[2..])
    else EncodeUnit(s[0]) + Utf8(s[1..])
  }

  /** getUtf8ByteLength. */
  function ByteLength(s: Str): nat {
    if s == [] then 0
    else if StartsWithPair(s) then 4 + ByteLength(s[2..])
    else (if s[0] < 0x80 then 1 else if s[0] < 0x800 then 2 else 3) + ByteLength(s[1..])
  }

  lemma {:induction false} ByteLengthIsUtf8Length(s: Str)
    ensures ByteLength(s) == |Utf8(s)|
  {
    if s == [] {
    } else if StartsWithPair(s) {
      ByteLengthIsUtf8Length(s[2..]);
    } else {
      ByteLengthIsUtf8Length(s[1..]);
    }
  }

  /** The characters of a string; a lone surrogate counts as U+FFFD. */
  function CodePoints(s: Str): seq<int> {
    if s == [] then []
    else if StartsWithPair(s) then [0x10000 + (s[0] - 0xD800) * 0x400 + (s[1] - 0xDC00)] + CodePoints(s[2..])
    else [if IsHigh(s[0]) || IsLow(s[0]) then 0xFFFD else s[0]] + CodePoints(s[1..])
  }

  /** The low six bits of a continuation byte. */
  function Bits(b: Byte): int { b - 0x80 }

  /** Reading UTF-8: the first byte tells the length (section 3 of RFC 3629). */
  function Decode(b: seq<Byte>): seq<int> {
    if b == [] then []
    else if b[0] < 0x80 then [b[0]] + Decode(b[1..])
    else if b[0] < 0xE0 then
      if |b| < 2 then [] else [(b[0] - 0xC0) * 0x40 + Bits(b[1])] + Decode(b[2..])
    else if b[0] < 0xF0 then
      if |b| < 3 then [] else [(b[0] - 0xE0) * 0x1000 + Bits(b[1]) * 0x40 + Bits(b[2])] + Decode(b[3..])
    else
      if |b| < 4 then []
      else [(b[0] - 0xF0) * 0x40000 + Bits(b[1]) * 0x1000 + Bits(b[2]) * 0x40 + Bits(b[3])] + Decode(b[4..])
  }

  ghost predicate Continuations(b: seq<Byte>) {
    forall i :: 0 < i < |b| ==> 0x80 <= b[i] < 0xC0
  }

  lemma DecodeUnit(u: CodeUnit, rest: seq<Byte>)
    ensures Decode(EncodeUnit(u) + rest) == [if IsHigh(u) || IsLow(u) then 0xFFFD else u] + Decode(rest)
    ensures Continuations(EncodeUnit(u))
  {
    var b := EncodeUnit(u) + rest;
    assert b[|EncodeUnit(u)|..] == rest;
    UnitBitsOf(u);
  }

  lemma UnitBitsOf(u: int)
    requires 0 <= u < 0x10000
    ensures u / 0x1000 * 0x1000 + u / 0x40 % 0x40 * 0x40 + u % 0x40 == u
    ensures u < 0x800 ==> u / 0x40 * 0x40 + u % 0x40 == u && u / 0x40 < 0x20
  {}

  lemma DecodePair(high: CodeUnit, low: CodeUnit, rest: seq<Byte>)
    requires IsHigh(high) && IsLow(low)
    ensures Decode(EncodePair(high, low) + rest) == [0x10000 + (high - 0xD800) * 0x400 + (low - 0xDC00)] + Decode(rest)
    ensures Continuations(EncodePair(high, low))
  {
    var c := 0x10000 + (high - 0xD800) * 0x400 + (low - 0xDC00);
    var b := EncodePair(high, low) + rest;
    assert b[4..] == rest;
    BitsOf(c);
  }

  lemma BitsOf(c: int)
    requires 0x10000 <= c < 0x110000
    ensures c / 0x40000 * 0x40000 + c / 0x1000 % 0x40 * 0x1000 + c / 0x40 % 0x40 * 0x40 + c % 0x40 == c
  {}

  /** The encoding loses nothing but the value of lone surrogates: decoding gives the characters back. */
  lemma {:induction false} DecodeUtf8(s: Str)
    ensures Decode(Utf8(s)) == CodePoints(s)
  {
    hide Decode, EncodeUnit, EncodePair;
    if s == [] {
      NothingDecodes();
    } else if StartsWithPair(s) {
      DecodeUtf8(s[2..]);
      DecodePair(s[0], s[1], Utf8(s[2..]));
    } else {
      DecodeUtf8(s[1..]);
      DecodeUnit(s[0], Utf8(s[1..]));
    }
  }

  lemma NothingDecodes()
    ensures Decode([]) == []
  {}

  /** The concatenation joins two surrogate halves into one character. */
  predicate JoinsHalves(a: Str, b: Str) {
    a != [] && b != [] && IsHigh(a[|a| - 1]) && IsLow(b[0])
  }

  lemma {:induction false} Utf8Concat(a: Str, b: Str)
    requires !JoinsHalves(a, b)
    ensures Utf8(a + b) == Utf8(a) + Utf8(b)
  {
    hide EncodeUnit, EncodePair;
    if a == [] {
      assert a + b == b;
    } else if StartsWithPair(a) {
      assert (a + b)[2..] == a[2..] + b;
      Utf8Concat(a[2..], b);
    } else {
      assert (a + b)[1..] == a[1..] + b;
      Utf8Concat(a[1..], b);
    }
  }

  /** Byte length is additive except exactly where two surrogate halves meet: there it loses two bytes. */
  lemma {:induction false} ByteLengthConcat(a: Str, b: Str)
    ensures ByteLength(a + b) + (if JoinsHalves(a, b) then 2 else 0) == ByteLength(a) + ByteLength(b)
  {
    if a == [] {
      assert a + b == b;
    } else if StartsWithPair(a) {
      assert (a + b)[2..] == a[2..] + b;
      ByteLengthConcat(a[2..], b);
    } else if |a| == 1 && JoinsHalves(a, b) {
      assert (a + b)[2..] == b[1..];
    } else {
      assert (a + b)[1..] == a[1..] + b;
      ByteLengthConcat(a[1..], b);
    }
  }

  lemma ByteLengthGrows(a: Str, b: Str)
    requires b != []
    ensures ByteLength(a + b) > ByteLength(a)
  {
    ByteLengthConcat(a, b);
    if JoinsHalves(a, b) { assert ByteLength(b) >= 3; }
  }

  /** No lone surrogate. */
  predicate WellFormed(s: Str) {
    s == [] || if StartsWithPair(s) then WellFormed(s[2..]) else !IsHigh(s[0]) && !IsLow(s[0]) && WellFormed(s[1..])
  }

  /** A high surrogate stands before a low one, and a low one behind a high one. */
  predicate Paired(s: Str, i: nat)
    requires i < |s|
  {
    && (IsHigh(s[i]) ==> i + 1 < |s| && IsLow(s[i + 1]))
    && (IsLow(s[i]) ==> i > 0 && IsHigh(s[i - 1]))
  }

  predicate AllPaired(s: Str) {
    forall i :: 0 <= i < |s| ==> Paired(s, i)
  }

  lemma PairedTail(s: Str, k: nat)
    requires 0 < k <= |s| && !IsHigh(s[k - 1]) && forall i :: 0 <= i < k ==> Paired(s, i)
    ensures AllPaired(s) <==> AllPaired(s[k..])
  {
    var rest := s[k..];
    forall i | 0 <= i < |rest| ensures Paired(rest, i) <==> Paired(s, i + k) {
      assert rest[i] == s[i + k];
    }
    hide Paired;
    if AllPaired(rest) {
      forall i | 0 <= i < |s| ensures Paired(s, i) {
        if i >= k { assert Paired(rest, i - k); }
      }
    }
  }

  lemma {:induction false} WellFormedIff(s: Str)
    ensures WellFormed(s) <==> AllPaired(s)
  {
    if s == [] {
    } else if StartsWithPair(s) {
      WellFormedIff(s[2..]);
      PairedTail(s, 2);
    } else if IsHigh(s[0]) || IsLow(s[0]) {
      assert !Paired(s, 0);
    } else {
      WellFormedIff(s[1..]);
      PairedTail(s, 1);
    }
  }

  lemma {:induction false} WellFormedEnds(s: Str)
    requires WellFormed(s) && s != []
    ensures !IsLow(s[0]) && !IsHigh(s[|s| - 1])
  {
    if StartsWithPair(s) {
      if |s| > 2 { WellFormedEnds(s[2..]); }
    } else if |s| > 1 {
      WellFormedEnds(s[1..]);
    }
  }

  lemma WellFormedNeverJoins(a: Str, b: Str)
    requires WellFormed(a) || WellFormed(b)
    ensures !JoinsHalves(a, b)
  {
    if a != [] && WellFormed(a) { WellFormedEnds(a); }
    if b != [] && WellFormed(b) { WellFormedEnds(b); }
  }

  // ---------------------------------------------------------------- white space, case, splitting

  /** The characters of `\s`, which are also those String.prototype.trim removes. */
  predicate IsSpace(u: CodeUnit) {
    || 0x09 <= u <= 0x0D || u == 0x20 || u == 0xA0 || u == 0x1680 || 0x2000 <= u <= 0x200A
    || u == 0x2028 || u == 0x2029 || u == 0x202F || u == 0x205F || u == 0x3000 || u == 0xFEFF
  }

  /** White space and line terminators of ECMAScript (sections 12.2 and 12.3 of ECMA-262), one by one. */
  const SPACES: set<int> := {
    0x09, 0x0A, 0x0B, 0x0C, 0x0D, 0x20, 0xA0, 0x1680, 0x2000, 0x2001, 0x2002, 0x2003, 0x2004, 0x2005, 0x2006, 0x2007, 0x2008,
    0x2009, 0x200A, 0x2028, 0x2029, 0x202F, 0x205F, 0x3000, 0xFEFF
  }

  lemma SpacesAre(u: CodeUnit)
    ensures IsSpace(u) <==> u in SPACES
  {}

  function TrimStart(s: Str): (r: Str)
    ensures r == [] || !IsSpace(r[0])
    ensures |r| <= |s|
  {
    if s != [] && IsSpace(s[0]) then TrimStart(s[1..]) else s
  }

  function TrimEnd(s: Str): (r: Str)
    ensures r <= s
    ensures r == [] || !IsSpace(r[|r| - 1])
  {
    if s != [] && IsSpace(s[|s| - 1]) then TrimEnd(s[..|s| - 1]) else s
  }

  function Trim(s: Str): Str {
    TrimEnd(TrimStart(s))
  }

  predicate Trimmed(s: Str) {
    s == [] || (!IsSpace(s[0]) && !IsSpace(s[|s| - 1]))
  }

  lemma TrimTrims(s: Str)
    ensures Trimmed(Trim(s))
    ensures Trimmed(s) ==> Trim(s) == s
  {}

  /**
   toLowerCase, as far as it can produce ASCII: besides A-Z only the Kelvin sign does. Other
   letters are left alone, which no pattern of the source can distinguish.
   */
  function LowerUnit(u: CodeUnit): CodeUnit {
    if 65 <= u <= 90 then u + 32 else if u == 0x212A then 107 else u
  }

  function Lower(s: Str): (r: Str)
    ensures |r| == |s|
    ensures forall i :: 0 <= i < |s| ==> r[i] == LowerUnit(s[i])
  {
    seq(|s|, i requires 0 <= i < |s| => LowerUnit(s[i]))
  }

  function Filter(s: Str, keep: CodeUnit -> bool): Str {
    if s == [] then [] else (if keep(s[0]) then [s[0]] else []) + Filter(s[1..], keep)
  }

  predicate StartsWith(s: Str, prefix: Str) {
    |prefix| <= |s| && s[..|prefix|] == prefix
  }

  // ---------------------------------------------------------------- hrefs (app/htmlSafety.ts)

  predicate IsLetter(u: CodeUnit) { 97 <= u <= 122 || 65 <= u <= 90 }

  predicate IsDigit(u: CodeUnit) { 48 <= u <= 57 }

  predicate IsSchemeUnit(u: CodeUnit) {
    IsLetter(u) || IsDigit(u) || u == 43 || u == 46 || u == 45
  }

  function SchemeUnits(s: Str): (n: nat)
    ensures n <= |s|
  {
    if s != [] && IsSchemeUnit(s[0]) then 1 + SchemeUnits(s[1..]) else 0
  }

  /** The pattern /^([a-z][a-z0-9+.-]*):/i finds a scheme. */
  predicate HasScheme(s: Str) {
    s != [] && IsLetter(s[0]) && SchemeUnits(s) < |s| && s[SchemeUnits(s)] == 58
  }

  function Compact(s: Str): Str {
    Lower(Filter(s, (u: CodeUnit) => !(u <= 0x1F || u == 0x7F || IsSpace(u))))
  }

  predicate AllowedProtocol(p: Str) {
    p == U("http") || p == U("https") || p == U("ipfs") || p == U("ipns") || p == U("mailto")
  }

  /** The value itself is kept: no host-relative form, and a scheme, if there is one, is on the list. */
  predicate SafeHref(href: Str) {
    var compact := Compact(href);
    !StartsWith(compact, U("//")) && (HasScheme(compact) ==> AllowedProtocol(compact[..SchemeUnits(compact)]))
  }

  function SanitizeHref(value: Str): Str {
    var href := Trim(value);
    if href == [] || !SafeHref(href) then [] else href
  }

  function SanitizeAbsoluteHref(value: Str): Str {
    var href := SanitizeHref(value);
    if href == [] || !HasScheme(href) then [] else href
  }

  lemma SanitizeHrefIsProjection(value: Str)
    ensures SanitizeHref(SanitizeHref(value)) == SanitizeHref(value)
    ensures SanitizeAbsoluteHref(SanitizeAbsoluteHref(value)) == SanitizeAbsoluteHref(value)
    ensures SanitizeHref(SanitizeAbsoluteHref(value)) == SanitizeAbsoluteHref(value)
  {
    TrimTrims(value);
    TrimTrims([]);
  }

  // ---------------------------------------------------------------- which hrefs are kept, with the schemes written out

  /** Equal but for the case of ASCII letters; `word` is in lower case. */
  predicate ReadsAs(s: Str, word: Str) {
    |s| == |word| && forall i :: 0 <= i < |s| ==> s[i] == word[i] || (97 <= word[i] <= 122 && s[i] == word[i] - 32)
  }

  predicate KeptScheme(scheme: Str) {
    || ReadsAs(scheme, U("http")) || ReadsAs(scheme, U("https")) || ReadsAs(scheme, U("ipfs")) || ReadsAs(scheme, U("ipns"))
    || ReadsAs(scheme, U("mailto"))
  }

  /** A trimmed href with one of the five schemes, in upper or lower case. */
  ghost predicate SafeAbsolute(href: Str) {
    Trimmed(href) && exists scheme: Str, rest: Str :: KeptScheme(scheme) && href == scheme + [58] + rest
  }

  lemma {:induction false} FilterConcat(a: Str, b: Str, keep: CodeUnit -> bool)
    ensures Filter(a + b, keep) == Filter(a, keep) + Filter(b, keep)
  {
    if a == [] {
      assert a + b == b;
    } else {
      var s, first := a + b, if keep(a[0]) then [a[0]] else [];
      FilterConcat(a[1..], b, keep);
      assert s[0] == a[0] && s[1..] == a[1..] + b;
      assert Filter(s, keep) == first + Filter(s[1..], keep);
      assert Filter(a, keep) == first + Filter(a[1..], keep);
    }
  }

  lemma {:induction false} FilterAll(s: Str, keep: CodeUnit -> bool)
    requires forall i :: 0 <= i < |s| ==> keep(s[i])
    ensures Filter(s, keep) == s
  {
    if s == [] {
    } else {
      FilterAll(s[1..], keep);
    }
  }

  lemma LowerConcat(a: Str, b: Str)
    ensures Lower(a + b) == Lower(a) + Lower(b)
  {
    hide LowerUnit;
  }

  /** What a browser ignores inside a scheme is ignored here too: control characters and white space are dropped, ASCII letters and the Kelvin sign lowered. */
  lemma CompactUnit(a: Str, u: CodeUnit, b: Str)
    ensures Compact(a + [u] + b) ==
            Compact(a) + (if u <= 0x1F || u == 0x7F || IsSpace(u) then [] else [if 65 <= u <= 90 then u + 32 else if u == 0x212A then 107 else u]) + Compact(b)
  {
    var keep := (x: CodeUnit) => !(x <= 0x1F || x == 0x7F || IsSpace(x));
    FilterConcat(a + [u], b, keep);
    FilterConcat(a, [u], keep);
    FilterOne(u, keep);
    LowerConcat(Filter(a, keep) + Filter([u], keep), Filter(b, keep));
    LowerConcat(Filter(a, keep), Filter([u], keep));
    hide Filter, IsSpace, Lower;
    assert keep(u) ==> Lower([u]) == [LowerUnit(u)] by { LowerOne(u); }
    assert Lower([]) == [] by { LowerConcat([], []); }
  }

  lemma FilterOne(u: CodeUnit, keep: CodeUnit -> bool)
    ensures Filter([u], keep) == if keep(u) then [u] else []
  {
    assert [u][1..] == [];
  }

  lemma LowerOne(u: CodeUnit)
    ensures Lower([u]) == [LowerUnit(u)]
  {}

  lemma {:induction false} SchemeUnitsOf(scheme: Str, rest: Str)
    requires forall i :: 0 <= i < |scheme| ==> IsSchemeUnit(scheme[i])
    ensures SchemeUnits(scheme + [58] + rest) == |scheme|
  {
    var s := scheme + [58] + rest;
    if scheme == [] {
    } else {
      assert s[1..] == scheme[1..] + [58] + rest;
      SchemeUnitsOf(scheme[1..], rest);
    }
  }

  lemma {:induction false} SchemeUnitsAre(s: Str)
    ensures forall i :: 0 <= i < SchemeUnits(s) ==> IsSchemeUnit(s[i])
  {
    if s != [] && IsSchemeUnit(s[0]) { SchemeUnitsAre(s[1..]); }
  }

  lemma CompactScheme(scheme: Str, rest: Str)
    requires forall i :: 0 <= i < |scheme| ==> IsSchemeUnit(scheme[i])
    ensures Compact(scheme + [58] + rest) == Lower(scheme) + [58] + Compact(rest)
  {
    CompactUnit(scheme, 58, rest);
    FilterAll(scheme, (u: CodeUnit) => !(u <= 0x1F || u == 0x7F || IsSpace(u)));
  }

  lemma LowerReadsAs(scheme: Str, word: Str)
    requires forall i :: 0 <= i < |scheme| ==> IsSchemeUnit(scheme[i])
    requires forall i :: 0 <= i < |word| ==> 97 <= word[i] <= 122
    ensures Lower(scheme) == word <==> ReadsAs(scheme, word)
  {
    if Lower(scheme) == word {
      forall i | 0 <= i < |scheme| ensures scheme[i] == word[i] || scheme[i] == word[i] - 32 {
        assert LowerUnit(scheme[i]) == word[i];
      }
    }
    if ReadsAs(scheme, word) {
      forall i | 0 <= i < |scheme| ensures Lower(scheme)[i] == word[i] {}
    }
  }

  lemma AllowedIffKept(scheme: Str)
    requires forall i :: 0 <= i < |scheme| ==> IsSchemeUnit(scheme[i])
    ensures AllowedProtocol(Lower(scheme)) <==> KeptScheme(scheme)
  {
    LowerReadsAs(scheme, U("http"));
    LowerReadsAs(scheme, U("https"));
    LowerReadsAs(scheme, U("ipfs"));
    LowerReadsAs(scheme, U("ipns"));
    LowerReadsAs(scheme, U("mailto"));
    hide Lower, ReadsAs, U;
  }

  lemma KeptSchemeUnits(scheme: Str)
    requires KeptScheme(scheme)
    ensures scheme != [] && IsLetter(scheme[0]) && forall i :: 0 <= i < |scheme| ==> IsSchemeUnit(scheme[i])
  {}

  lemma SafeWithScheme(scheme: Str, rest: Str)
    requires scheme != [] && IsLetter(scheme[0]) && forall i :: 0 <= i < |scheme| ==> IsSchemeUnit(scheme[i])
    ensures HasScheme(scheme + [58] + rest) && (SafeHref(scheme + [58] + rest) <==> KeptScheme(scheme))
  {
    var low := Lower(scheme);
    CompactScheme(scheme, rest);
    AllowedIffKept(scheme);
    SchemeUnitsOf(scheme, rest);
    SchemeUnitsOf(low, Compact(rest));
    var compact := low + [58] + Compact(rest);
    assert compact[..|low|] == low;
    assert compact[0] != 47;
    hide Compact, AllowedProtocol, KeptScheme, SchemeUnits, Lower;
    assert !StartsWith(compact, U("//")) by { assert U("//")[0] == 47; }
  }

  /** sanitizeAbsoluteHref keeps a value exactly when it is, trimmed, one of the five schemes, a colon and anything. */
  lemma AbsoluteHrefIff(value: Str)
    ensures SanitizeAbsoluteHref(value) == if SafeAbsolute(Trim(value)) then Trim(value) else []
  {
    var href := Trim(value);
    TrimTrims(value);
    hide SafeHref, KeptScheme, Trim, SchemeUnits;
    if HasScheme(href) {
      var n := SchemeUnits(href);
      SchemeUnitsAre(href);
      assert href == href[..n] + [58] + href[n + 1..];
      SafeWithScheme(href[..n], href[n + 1..]);
    }
    forall scheme: Str, rest: Str | KeptScheme(scheme) && href == scheme + [58] + rest
      ensures HasScheme(href) && SafeHref(href)
    {
      KeptSchemeUnits(scheme);
      SafeWithScheme(scheme, rest);
    }
  }

  /** Read without what browsers ignore, the value starts with a scheme that is none of the five. */
  ghost predicate NamesOtherScheme(compact: Str) {
    exists scheme: Str, rest: Str ::
      && compact == scheme + [58] + rest && !KeptScheme(scheme)
      && scheme != [] && IsLetter(scheme[0])
      && forall i :: 0 <= i < |scheme| ==> IsLetter(scheme[i]) || 48 <= scheme[i] <= 57 || scheme[i] in {43, 45, 46}
  }

  lemma {:induction false} CompactIsLow(s: Str)
    ensures forall i :: 0 <= i < |Compact(s)| ==> !(65 <= Compact(s)[i] <= 90)
  {}

  lemma LowIsFixed(s: Str)
    requires forall i :: 0 <= i < |s| ==> !(65 <= s[i] <= 90) && IsSchemeUnit(s[i])
    ensures Lower(s) == s
  {}

  lemma SafeIff(href: Str)
    ensures SafeHref(href) <==> !(|Compact(href)| > 1 && Compact(href)[0] == 47 && Compact(href)[1] == 47) && !NamesOtherScheme(Compact(href))
  {
    var compact := Compact(href);
    CompactIsLow(href);
    hide Compact, AllowedProtocol, KeptScheme, SchemeUnits, Lower;
    assert StartsWith(compact, U("//")) <==> |compact| > 1 && compact[0] == 47 && compact[1] == 47 by {
      assert U("//") == [47, 47];
    }
    if HasScheme(compact) {
      var n := SchemeUnits(compact);
      SchemeUnitsAre(compact);
      assert compact == compact[..n] + [58] + compact[n + 1..];
      LowIsFixed(compact[..n]);
      AllowedIffKept(compact[..n]);
    }
    forall scheme: Str, rest: Str |
      && compact == scheme + [58] + rest && scheme != [] && IsLetter(scheme[0])
      && forall i :: 0 <= i < |scheme| ==> IsLetter(scheme[i]) || 48 <= scheme[i] <= 57 || scheme[i] in {43, 45, 46}
      ensures HasScheme(compact) && compact[..SchemeUnits(compact)] == scheme
    {
      SchemeUnitsOf(scheme, rest);
    }
  }

  /**
   sanitizeHref keeps the trimmed value unless, without control characters and white space, it starts with two
   slashes or with a scheme other than http, https, ipfs, ipns and mailto.
   */
  lemma HrefIff(value: Str)
    ensures var href, compact := Trim(value), Compact(Trim(value));
            SanitizeHref(value) ==
              if (|compact| > 1 && compact[0] == 47 && compact[1] == 47) || NamesOtherScheme(compact) then [] else href
  {
    SafeIff(Trim(value));
    hide Compact, SafeHref, NamesOtherScheme;
  }
}
