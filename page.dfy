/**
 * The chat page (src/app/page.tsx): how an assistant message's text is cut into the text
 * before the product list, the text between the list and the recommended product, the
 * recommended product's index and the text after it; which product is recommended; and
 * the rule that empties the cart once per message announcing a completed payment.
 */
module ChatPage {
  import opened Wrappers
  import opened Text
  import opened Toasts
  import Tools
  import CartStoreSimple

  // ----- messages -----

  datatype Role = UserRole | AssistantRole | SystemRole

  /** The life cycle of a tool call part. */
  datatype ToolState = InputStreaming | InputAvailable | OutputAvailable | OutputError

  /** The parts of a chat message the page reads. */
  datatype Part =
    | TextPart(text: string)
    | SearchProductsPart(state: ToolState, output: Option<Tools.SearchResult>)
    | ShowCartPart(state: ToolState)
    | OtherPart

  datatype ChatMessage = ChatMessage(id: string, role: Role, parts: seq<Part>)

  /** The text a single part contributes. */
  function PartText(p: Part): string {
    if p.TextPart? then p.text else ""
  }

  /** `parts.filter(part => part.type === "text").map(part => part.text).join("")`. */
  function JoinText(parts: seq<Part>): (r: string)
    ensures (forall i :: 0 <= i < |parts| ==> !parts[i].TextPart?) ==> r == ""
    decreases |parts|
  {
    if parts == [] then ""
    else PartText(parts[0]) + JoinText(parts[1..])
  }

  /** Joining works part by part, so it distributes over concatenation. */
  lemma {:induction false} JoinTextAppend(a: seq<Part>, b: seq<Part>)
    ensures JoinText(a + b) == JoinText(a) + JoinText(b)
    decreases |a|
  {
    if a == [] {
      assert a + b == b;
    } else {
      JoinTextStep(a, b);
      JoinTextAppend(a[1..], b);
      Regroup(PartText(a[0]), JoinText(a[1..]), JoinText(b));
    }
  }

  /** Joining `a + b` starts with what `a`'s first part contributes. */
  lemma JoinTextStep(a: seq<Part>, b: seq<Part>)
    requires a != []
    ensures JoinText(a + b) == PartText(a[0]) + JoinText(a[1..] + b)
    ensures JoinText(a) == PartText(a[0]) + JoinText(a[1..])
  {
    var c := a + b;
    assert c[0] == a[0] && c[1..] == a[1..] + b;
  }

  lemma Regroup(e: string, x: string, y: string)
    ensures e + (x + y) == (e + x) + y
  {
  }

  // ----- the product-list separator -----

  const ProductListSeparator := "|||PRODUCT_LIST|||"

  /** The first two pieces of `text.split(sep)`; the second is absent when `sep` does not occur. */
  datatype SplitHead = SplitHead(first: string, second: Option<string>)

  /** The text of `s` before the first occurrence of `sep`, or all of `s` when there is none. */
  function UpToSeparator(s: string, sep: string): string {
    FindSpec(s, sep);
    match Find(s, sep)
    case None => s
    case Some(k) => s[..k]
  }

  /**
   * The piece is a prefix of `s` without `sep`; it is all of `s` when `sep` does not occur,
   * and otherwise it stops where the first `sep` starts.
   */
  lemma UpToSeparatorSpec(s: string, sep: string)
    requires sep != []
    ensures var r := UpToSeparator(s, sep);
            r <= s && !Contains(r, sep) &&
            (!Contains(s, sep) ==> r == s) &&
            (Contains(s, sep) ==> |r| < |s| && OccursAt(s, sep, |r|))
  {
    FindSpec(s, sep);
    match Find(s, sep)
    case None =>
    case Some(k) =>
      forall j: nat | j <= k ensures !OccursAt(s[..k], sep, j) {
        if OccursAt(s[..k], sep, j) {
          OccursInPrefix(s, k, sep, j);
        }
      }
  }

  /** The piece ends where `s` ends or where an occurrence of `sep` starts. */
  lemma UpToSeparatorCut(s: string, sep: string)
    ensures var r := UpToSeparator(s, sep);
            |r| <= |s| && (|r| < |s| ==> OccursAt(s, sep, |r|))
  {
    FindSpec(s, sep);
  }

  /** When `sep` occurs, the piece stops at its first occurrence. */
  lemma UpToSeparatorFound(s: string, sep: string)
    requires sep != [] && Contains(s, sep)
    ensures var r := UpToSeparator(s, sep);
            |r| < |s| && OccursAt(s, sep, |r|)
  {
    FindSpec(s, sep);
  }

  /** The piece is a prefix of `s`. */
  lemma UpToSeparatorPrefix(s: string, sep: string)
    ensures var r := UpToSeparator(s, sep);
            |r| <= |s| && r == s[..|r|]
  {
    FindSpec(s, sep);
  }

  /** `const [first, second] = text.split(sep)`. */
  function SplitFirstTwo(text: string, sep: string): SplitHead
    requires sep != []
  {
    var first := UpToSeparator(text, sep);
    UpToSeparatorCut(text, sep);
    if |first| == |text| then SplitHead(text, None)
    else SplitHead(first, Some(UpToSeparator(text[|first| + |sep|..], sep)))
  }

  /**
   * There is a second piece exactly when `sep` occurs; without one the first piece is the
   * whole text; neither piece contains `sep`, and the first is a prefix of the text.
   */
  lemma SplitFirstTwoSpec(text: string, sep: string)
    requires sep != []
    ensures var r := SplitFirstTwo(text, sep);
            (r.second.None? <==> !Contains(text, sep)) &&
            (r.second.None? ==> r.first == text) &&
            r.first <= text && !Contains(r.first, sep) &&
            (r.second.Some? ==> !Contains(r.second.value, sep))
  {
    var first := UpToSeparator(text, sep);
    UpToSeparatorSpec(text, sep);
    if |first| != |text| {
      UpToSeparatorSpec(text[|first| + |sep|..], sep);
    }
  }

  /** When the first piece stops short of the end, the second piece follows its separator. */
  lemma SplitFirstTwoSome(text: string, sep: string, first: string, second: string)
    requires sep != [] && first == UpToSeparator(text, sep) && |first| + |sep| <= |text|
    requires second == UpToSeparator(text[|first| + |sep|..], sep)
    ensures SplitFirstTwo(text, sep) == SplitHead(first, Some(second))
  {
  }

  /** A second piece is only cut when the separator occurs. */
  lemma SplitFirstTwoFound(text: string, sep: string)
    requires sep != [] && SplitFirstTwo(text, sep).second.Some?
    ensures Contains(text, sep)
  {
    var first := UpToSeparator(text, sep);
    UpToSeparatorCut(text, sep);
    assert OccursAt(text, sep, |first|);
  }

  /** A slice from the start is a prefix. */
  lemma SliceIsPrefix(text: string, n: nat, x: string)
    requires n <= |text| && text[..n] == x
    ensures x <= text
  {
  }

  /** A prefix, a separator right after it, and a prefix of what follows make a prefix of `text`. */
  lemma JoinAtSeparator(text: string, sep: string, first: string, second: string)
    requires |first| + |sep| + |second| <= |text| && first == text[..|first|] && OccursAt(text, sep, |first|)
    requires second == text[|first| + |sep|..][..|second|]
    ensures text[..|first| + |sep| + |second|] == first + sep + second
  {
    var k := |first|;
    assert text[..k + |sep| + |second|] == text[..k] + text[k..k + |sep|] + text[k + |sep|..][..|second|];
  }

  /** When `sep` occurs, the text starts with the first piece, the separator and the second piece. */
  lemma SplitSecondPrefix(text: string, sep: string)
    requires sep != [] && Contains(text, sep)
    ensures var r := SplitFirstTwo(text, sep);
            r.second.Some? &&
            var end := |r.first| + |sep| + |r.second.value|;
            end <= |text| && text[..end] == r.first + sep + r.second.value
  {
    var first := UpToSeparator(text, sep);
    var k := |first|;
    UpToSeparatorFound(text, sep);
    UpToSeparatorPrefix(text, sep);
    var second := UpToSeparator(text[k + |sep|..], sep);
    UpToSeparatorPrefix(text[k + |sep|..], sep);
    SplitFirstTwoSome(text, sep, first, second);
    JoinAtSeparator(text, sep, first, second);
  }

  /** A piece cut from position `n` ends where the text ends or where a separator starts. */
  lemma UpToSeparatorFrom(text: string, sep: string, n: nat)
    requires sep != [] && n <= |text|
    ensures var piece := UpToSeparator(text[n..], sep);
            n + |piece| <= |text| && (n + |piece| < |text| ==> OccursAt(text, sep, n + |piece|))
  {
    var piece := UpToSeparator(text[n..], sep);
    UpToSeparatorCut(text[n..], sep);
    if n + |piece| < |text| {
      OccursInSuffix(text, n, sep, |piece|);
    }
  }

  /** The second piece ends where the text ends or where the next separator starts. */
  lemma SplitSecondEnd(text: string, sep: string)
    requires sep != []
    ensures var r := SplitFirstTwo(text, sep);
            r.second.Some? ==>
              var end := |r.first| + |sep| + |r.second.value|;
              end <= |text| && (end < |text| ==> OccursAt(text, sep, end))
  {
    var first := UpToSeparator(text, sep);
    UpToSeparatorCut(text, sep);
    if |first| != |text| {
      var n := |first| + |sep|;
      UpToSeparatorFrom(text, sep, n);
      SplitFirstTwoSome(text, sep, first, UpToSeparator(text[n..], sep));
    }
  }

  // ----- the recommended-product marker -----

  const RecommendedTag := "|||RECOMMENDED_PRODUCT:"
  const Bars := "|||"

  /** The longest run of decimal digits `t` starts with: what a greedy `\d+` consumes. */
  function DigitRun(t: string): (r: string)
    ensures r <= t && AllDigits(r)
    ensures |r| < |t| ==> !IsDigit(t[|r|])
    decreases |t|
  {
    if t == [] || !IsDigit(t[0]) then [] else [t[0]] + DigitRun(t[1..])
  }

  /** `|||RECOMMENDED_PRODUCT:<digits>|||` starts at index `m` of `a`. */
  predicate MarkerAt(a: string, m: nat) {
    OccursAt(a, RecommendedTag, m)
    && var d := DigitRun(a[m + |RecommendedTag|..]);
       d != [] && OccursAt(a, Bars, m + |RecommendedTag| + |d|)
  }

  /** The leftmost marker at or after `from`. */
  function FirstMarkerFrom(a: string, from: nat): (r: Option<nat>)
    ensures r.Some? ==> from <= r.value && MarkerAt(a, r.value)
    ensures r.Some? ==> forall j: nat :: from <= j < r.value ==> !MarkerAt(a, j)
    ensures r.None? ==> forall j: nat :: from <= j ==> !MarkerAt(a, j)
    decreases |a| - from
  {
    if |a| <= from then None
    else if MarkerAt(a, from) then Some(from)
    else FirstMarkerFrom(a, from + 1)
  }

  /** The three groups of a match of `/^([\s\S]*?)\|\|\|RECOMMENDED_PRODUCT:(\d+)\|\|\|([\s\S]*)/`. */
  datatype MarkerMatch = MarkerMatch(middle: string, digits: string, after: string)

  /**
   * `a.match(...)`: the lazy first group makes the match start at the leftmost marker;
   * the digits are then a maximal run and the last group takes everything after it.
   */
  function MatchMarker(a: string): Option<MarkerMatch> {
    match FirstMarkerFrom(a, 0)
    case None => None
    case Some(m) =>
      var start := m + |RecommendedTag|;
      var d := DigitRun(a[start..]);
      Some(MarkerMatch(a[..m], d, a[start + |d| + |Bars|..]))
  }

  /**
   * There is a match exactly when a marker occurs; the groups then rebuild the text, the
   * digits are a non-empty run of decimal digits, and no marker starts inside the middle.
   */
  lemma MatchMarkerSpec(a: string)
    ensures var r := MatchMarker(a);
            (r.None? <==> forall m: nat :: !MarkerAt(a, m)) &&
            (r.Some? ==> a == r.value.middle + RecommendedTag + r.value.digits + Bars + r.value.after) &&
            (r.Some? ==> r.value.digits != [] && AllDigits(r.value.digits)) &&
            (r.Some? ==> forall j: nat :: j < |r.value.middle| ==> !MarkerAt(a, j))
  {
    match FirstMarkerFrom(a, 0)
    case None =>
    case Some(m) =>
      MarkerPieces(a, m);
  }

  /** A match cuts the text into the part before, the tag, the digits, the bars and the rest. */
  lemma MatchMarkerPieces(a: string)
    requires MatchMarker(a).Some?
    ensures var mm := MatchMarker(a).value;
            a == mm.middle + RecommendedTag + mm.digits + Bars + mm.after
  {
    match FirstMarkerFrom(a, 0)
    case None =>
    case Some(m) =>
      MarkerPieces(a, m);
  }

  /** A marker at `m` splits the text into what comes before, the tag, the digits, the bars and the rest. */
  lemma MarkerPieces(a: string, m: nat)
    requires MarkerAt(a, m)
    ensures var start := m + |RecommendedTag|;
            var d := DigitRun(a[start..]);
            start + |d| + |Bars| <= |a| &&
            a == a[..m] + RecommendedTag + d + Bars + a[start + |d| + |Bars|..]
  {
    var start := m + |RecommendedTag|;
    var d := DigitRun(a[start..]);
    var end := start + |d|;
    assert a[start..end] == d;
    CutFour(a, m, start, end, end + |Bars|);
  }

  /** Cutting a sequence at four ordered positions and joining the five pieces gives it back. */
  lemma CutFour(a: string, i: nat, j: nat, k: nat, l: nat)
    requires i <= j <= k <= l <= |a|
    ensures a == a[..i] + a[i..j] + a[j..k] + a[k..l] + a[l..]
  {
    assert a[..j] == a[..i] + a[i..j];
    assert a[..k] == a[..j] + a[j..k];
    assert a[..l] == a[..k] + a[k..l];
    assert a == a[..l] + a[l..];
  }

  // ----- segmentation -----

  /** What the page renders from an assistant message's text, in order. */
  datatype Segments = Segments(before: string, middle: string, recommendedIndex: int, after: string)

  /** The segmentation of lines 186-207 of src/app/page.tsx. */
  function Segment(fullText: string): (r: Segments)
    ensures r.before <= fullText && !Contains(r.before, ProductListSeparator)
    ensures !Contains(fullText, ProductListSeparator) ==> r == Segments(fullText, "", -1, "")
    ensures r.recommendedIndex >= -1
    ensures r.recommendedIndex == -1 ==> r.middle == ""
  {
    var split := SplitFirstTwo(fullText, ProductListSeparator);
    SplitFirstTwoSpec(fullText, ProductListSeparator);
    match split.second
    case None => Segments(split.first, "", -1, "")
    case Some(afterProductList) =>
      if afterProductList == "" then Segments(split.first, "", -1, "")
      else match MatchMarker(afterProductList)
        case None => Segments(split.first, "", -1, afterProductList)
        case Some(mm) => Segments(split.first, mm.middle, DecimalValue(mm.digits), mm.after)
  }

  /**
   * With a marker after the separator, the text starts with the part before, the
   * separator, the middle, the marker and the part after, and the index is the marker's
   * number.
   */
  lemma SegmentWithMarker(fullText: string)
    requires SplitFirstTwo(fullText, ProductListSeparator).second.Some?
    requires MatchMarker(SplitFirstTwo(fullText, ProductListSeparator).second.value).Some?
    ensures var r := Segment(fullText);
            var digits := MatchMarker(SplitFirstTwo(fullText, ProductListSeparator).second.value).value.digits;
            r.before + ProductListSeparator + r.middle + RecommendedTag + digits + Bars + r.after <= fullText &&
            r.recommendedIndex == DecimalValue(digits)
  {
    var split := SplitFirstTwo(fullText, ProductListSeparator);
    var a := split.second.value;
    var mm := MatchMarker(a).value;
    SplitFirstTwoFound(fullText, ProductListSeparator);
    SplitSecondPrefix(fullText, ProductListSeparator);
    MatchMarkerPieces(a);
    SegmentOfMarker(fullText);
    PrefixOfPieces(fullText, split.first, ProductListSeparator, a, mm.middle, RecommendedTag, mm.digits, Bars, mm.after);
  }

  /**
   * When the separator occurs exactly once and a marker follows it, the text is exactly
   * the part before, the separator, the middle, the marker and the part after.
   */
  lemma SegmentReassembles(fullText: string)
    requires SplitFirstTwo(fullText, ProductListSeparator).second.Some?
    requires forall i: nat, j: nat :: OccursAt(fullText, ProductListSeparator, i) && OccursAt(fullText, ProductListSeparator, j) ==> i == j
    requires MatchMarker(SplitFirstTwo(fullText, ProductListSeparator).second.value).Some?
    ensures var r := Segment(fullText);
            var digits := MatchMarker(SplitFirstTwo(fullText, ProductListSeparator).second.value).value.digits;
            r.before + ProductListSeparator + r.middle + RecommendedTag + digits + Bars + r.after == fullText &&
            r.recommendedIndex == DecimalValue(digits)
  {
    var split := SplitFirstTwo(fullText, ProductListSeparator);
    var a := split.second.value;
    var mm := MatchMarker(a).value;
    SplitFirstTwoFound(fullText, ProductListSeparator);
    SplitSecondWhole(fullText);
    MatchMarkerPieces(a);
    SegmentOfMarker(fullText);
    Reassociate(split.first, ProductListSeparator, mm.middle, RecommendedTag, mm.digits, Bars, mm.after);
  }

  /** With a single separator, the first piece, the separator and the second piece make up the whole text. */
  lemma SplitSecondWhole(fullText: string)
    requires Contains(fullText, ProductListSeparator)
    requires forall i: nat, j: nat :: OccursAt(fullText, ProductListSeparator, i) && OccursAt(fullText, ProductListSeparator, j) ==> i == j
    ensures var split := SplitFirstTwo(fullText, ProductListSeparator);
            split.second.Some? && split.first + ProductListSeparator + split.second.value == fullText
  {
    var split := SplitFirstTwo(fullText, ProductListSeparator);
    SplitSecondPrefix(fullText, ProductListSeparator);
    SplitSecondEnd(fullText, ProductListSeparator);
    UpToSeparatorFound(fullText, ProductListSeparator);
    var end := |split.first| + |ProductListSeparator| + |split.second.value|;
    assert OccursAt(fullText, ProductListSeparator, |split.first|);
    assert end == |fullText|;
    assert fullText[..end] == fullText;
  }

  /** With a marker after the separator, the segments are the marker match's pieces. */
  lemma SegmentOfMarker(fullText: string)
    requires SplitFirstTwo(fullText, ProductListSeparator).second.Some?
    requires MatchMarker(SplitFirstTwo(fullText, ProductListSeparator).second.value).Some?
    ensures var split := SplitFirstTwo(fullText, ProductListSeparator);
            var mm := MatchMarker(split.second.value).value;
            Segment(fullText) == Segments(split.first, mm.middle, DecimalValue(mm.digits), mm.after)
  {
    MatchMarkerPieces(SplitFirstTwo(fullText, ProductListSeparator).second.value);
  }

  /** Regrouping a prefix `first + sep + a` whose last piece is cut into five pieces keeps it a prefix. */
  lemma PrefixOfPieces(text: string, first: string, sep: string, a: string,
                       m: string, t: string, d: string, b: string, x: string)
    requires |first| + |sep| + |a| <= |text| && text[..|first| + |sep| + |a|] == first + sep + a
    requires a == m + t + d + b + x
    ensures first + sep + m + t + d + b + x <= text
  {
    Reassociate(first, sep, m, t, d, b, x);
    SliceIsPrefix(text, |first| + |sep| + |a|, first + sep + a);
  }

  /** Concatenation regroups freely. */
  lemma Reassociate(p: string, q: string, m: string, t: string, d: string, b: string, x: string)
    ensures p + q + m + t + d + b + x == p + q + (m + t + d + b + x)
  {
  }

  /** Without a marker after the separator, that whole segment is the text after. */
  lemma SegmentWithoutMarker(fullText: string)
    requires SplitFirstTwo(fullText, ProductListSeparator).second.Some?
    requires MatchMarker(SplitFirstTwo(fullText, ProductListSeparator).second.value).None?
    ensures var r := Segment(fullText);
            r.middle == "" && r.recommendedIndex == -1 &&
            r.after == SplitFirstTwo(fullText, ProductListSeparator).second.value &&
            r.before + ProductListSeparator + r.after <= fullText && !Contains(r.after, ProductListSeparator)
  {
    var split := SplitFirstTwo(fullText, ProductListSeparator);
    var a := split.second.value;
    SplitFirstTwoSpec(fullText, ProductListSeparator);
    SplitSecondPrefix(fullText, ProductListSeparator);
    SliceIsPrefix(fullText, |split.first| + |ProductListSeparator| + |a|, split.first + ProductListSeparator + a);
  }

  // ----- writing a reply the way the page reads it -----

  /** A pattern written after a prefix is found there when it does not occur earlier in `pre + pat`. */
  lemma FindAfterPrefix(pre: string, pat: string, post: string)
    requires forall j: nat :: j < |pre| ==> !OccursAt(pre + pat, pat, j)
    ensures Find(pre + pat + post, pat) == Some(|pre|)
  {
    var t := pre + pat + post;
    var u := pre + pat;
    FindSpec(t, pat);
    assert t[|pre|..|pre| + |pat|] == pat;
    assert OccursAt(t, pat, |pre|);
    assert t[..|u|] == u;
    forall j: nat | j < |pre| ensures !OccursAt(t, pat, j) {
      assert !OccursAt(u, pat, j);
      assert t[j..j + |pat|] == u[j..j + |pat|];
    }
  }

  /** A pattern starting with `'|'` does not occur inside a prefix free of `'|'`. */
  lemma NoPatternInBarFree(pre: string, pat: string)
    requires pat != [] && pat[0] == '|' && '|' !in pre
    ensures forall j: nat :: j < |pre| ==> !OccursAt(pre + pat, pat, j)
  {
    forall j: nat | j < |pre| ensures !OccursAt(pre + pat, pat, j) {
      assert (pre + pat)[j] == pre[j];
    }
  }

  /** The greedy digit run of digits followed by a non-digit is exactly those digits. */
  lemma {:induction false} DigitRunOfDigits(d: string, rest: string)
    requires AllDigits(d) && (rest == [] || !IsDigit(rest[0]))
    ensures DigitRun(d + rest) == d
    decreases |d|
  {
    if d == [] {
      assert d + rest == rest;
    } else {
      assert (d + rest)[0] == d[0] && (d + rest)[1..] == d[1..] + rest;
      assert AllDigits(d[1..]) by {
        forall i | 0 <= i < |d[1..]| ensures IsDigit(d[1..][i]) {
          assert d[1..][i] == d[i + 1];
        }
      }
      DigitRunOfDigits(d[1..], rest);
    }
  }

  /** The written marker is a marker. */
  lemma WrittenMarkerAt(m: string, d: string, x: string)
    requires d != [] && AllDigits(d)
    ensures var a := m + RecommendedTag + d + Bars + x;
            MarkerAt(a, |m|) && DigitRun(a[|m| + |RecommendedTag|..]) == d
  {
    var a := m + RecommendedTag + d + Bars + x;
    var start := |m| + |RecommendedTag|;
    assert a[|m|..start] == RecommendedTag;
    assert a[start..] == d + (Bars + x);
    DigitRunOfDigits(d, Bars + x);
    assert a[start + |d|..start + |d| + |Bars|] == Bars;
  }

  /** No marker starts inside a prefix free of `'|'`. */
  lemma NoMarkerInBarFree(m: string, a: string)
    requires m <= a && '|' !in m
    ensures forall j: nat :: j < |m| ==> !MarkerAt(a, j)
  {
    forall j: nat | j < |m| ensures !MarkerAt(a, j) {
      assert a[j] == m[j];
    }
  }

  /** A marker after a middle in which no marker starts is matched with exactly that middle and number. */
  lemma MatchWrittenMarker(m: string, d: string, x: string)
    requires d != [] && AllDigits(d)
    requires forall j: nat :: j < |m| ==> !MarkerAt(m + RecommendedTag + d + Bars + x, j)
    ensures MatchMarker(m + RecommendedTag + d + Bars + x) == Some(MarkerMatch(m, d, x))
  {
    var a := m + RecommendedTag + d + Bars + x;
    WrittenMarkerAt(m, d, x);
    assert FirstMarkerFrom(a, 0) == Some(|m|);
    assert a[..|m|] == m;
    assert a[|m| + |RecommendedTag| + |d| + |Bars|..] == x;
  }

  /**
   * A reply written as text, the product-list separator, a middle, the recommended-product
   * marker with the index `n`, and a tail is segmented back into exactly those pieces,
   * provided the separator first occurs where it is written, no marker starts inside the
   * middle and no second separator follows.
   */
  lemma SegmentRoundTrip(before: string, middle: string, n: nat, after: string)
    requires forall j: nat :: j < |before| ==> !OccursAt(before + ProductListSeparator, ProductListSeparator, j)
    requires forall j: nat :: j < |middle| ==> !MarkerAt(middle + RecommendedTag + NatToString(n) + Bars + after, j)
    requires !Contains(middle + RecommendedTag + NatToString(n) + Bars + after, ProductListSeparator)
    ensures Segment(before + ProductListSeparator + middle + RecommendedTag + NatToString(n) + Bars + after)
         == Segments(before, middle, n, after)
  {
    var d := NatToString(n);
    var a := middle + RecommendedTag + d + Bars + after;
    var text := before + ProductListSeparator + middle + RecommendedTag + d + Bars + after;
    Reassociate(before, ProductListSeparator, middle, RecommendedTag, d, Bars, after);
    assert text == before + ProductListSeparator + a;
    FindAfterPrefix(before, ProductListSeparator, a);
    assert UpToSeparator(text, ProductListSeparator) == before;
    assert text[|before| + |ProductListSeparator|..] == a;
    UpToSeparatorSpec(a, ProductListSeparator);
    SplitFirstTwoSome(text, ProductListSeparator, before, a);
    assert a != "" by {
      assert a[|middle|] == '|';
    }
    MatchWrittenMarker(middle, d, after);
    DecimalOfNatToString(n);
  }

  /**
   * In particular, a text before and a middle without any `'|'` are always read back, as
   * long as no second separator follows.
   */
  lemma SegmentRoundTripBarFree(before: string, middle: string, n: nat, after: string)
    requires '|' !in before && '|' !in middle
    requires !Contains(middle + RecommendedTag + NatToString(n) + Bars + after, ProductListSeparator)
    ensures Segment(before + ProductListSeparator + middle + RecommendedTag + NatToString(n) + Bars + after)
         == Segments(before, middle, n, after)
  {
    var a := middle + RecommendedTag + NatToString(n) + Bars + after;
    NoPatternInBarFree(before, ProductListSeparator);
    assert middle <= a;
    NoMarkerInBarFree(middle, a);
    SegmentRoundTrip(before, middle, n, after);
  }

  // ----- the recommended product -----

  /** A product-search tool call whose output has arrived. */
  predicate IsSearchOutput(part: Part) {
    part.SearchProductsPart? && part.state == OutputAvailable
  }

  /** The first part that is a product search with its output available. */
  function FirstSearchOutput(parts: seq<Part>): (r: Option<nat>)
    ensures r.Some? ==> r.value < |parts| && IsSearchOutput(parts[r.value])
    ensures r.Some? ==> forall j :: 0 <= j < r.value ==> !IsSearchOutput(parts[j])
    ensures r.None? ==> forall j :: 0 <= j < |parts| ==> !IsSearchOutput(parts[j])
    decreases |parts|
  {
    if parts == [] then None
    else if IsSearchOutput(parts[0]) then Some(0)
    else match FirstSearchOutput(parts[1..])
      case None => None
      case Some(k) => Some(k + 1)
  }

  /**
   * The product shown as recommended: the product at `recommendedIndex` in the output of
   * the first finished product search, when there is such a search, an output, and the
   * index is within its product list (an index past the end reads `undefined`).
   */
  function RecommendedProduct(parts: seq<Part>, recommendedIndex: int): (r: Option<Tools.Product>)
    ensures r.Some? <==>
              (FirstSearchOutput(parts).Some? &&
               var out := parts[FirstSearchOutput(parts).value].output;
               out.Some? && 0 <= recommendedIndex < |out.value.products|)
    ensures r.Some? ==> r.value == parts[FirstSearchOutput(parts).value].output.value.products[recommendedIndex]
    ensures recommendedIndex < 0 ==> r.None?
  {
    match FirstSearchOutput(parts)
    case None => None
    case Some(k) =>
      var out := parts[k].output;
      if out.Some? && 0 <= recommendedIndex < |out.value.products| then
        Some(out.value.products[recommendedIndex])
      else None
  }

  /**
   * Only the first finished search counts: whatever parts come before it (text, tool calls
   * still running) and whatever searches follow it, the product is read from its output.
   */
  lemma RecommendedFromFirstSearch(pre: seq<Part>, first: Part, parts: seq<Part>, recommendedIndex: int)
    requires forall j :: 0 <= j < |pre| ==> !IsSearchOutput(pre[j])
    requires IsSearchOutput(first)
    ensures RecommendedProduct(pre + [first] + parts, recommendedIndex)
         == if first.output.Some? && 0 <= recommendedIndex < |first.output.value.products|
            then Some(first.output.value.products[recommendedIndex])
            else None
  {
    var all := pre + [first] + parts;
    assert all[|pre|] == first;
    assert forall j :: 0 <= j < |pre| ==> all[j] == pre[j];
    assert FirstSearchOutput(all) == Some(|pre|);
  }

  // ----- payment completion -----

  /** The phrase whose appearance in the assistant's reply signals a completed payment. */
  const PaymentPhrase := "Payment completed successfully"

  /** The notification shown after a payment. */
  const PaymentToast := ToastData(
    Some("Payment Complete! \U{2705}"),
    Some("Your order has been successfully processed."),
    Some(4000),
    None)

  /**
   * The id of the message to act on: the last message, when it is the assistant's, its
   * text mentions the payment phrase, and it is not the message last acted on.
   */
  function PaymentToProcess(messages: seq<ChatMessage>, lastProcessed: Option<string>): (r: Option<string>)
    ensures r.Some? <==>
              (|messages| > 0 && messages[|messages| - 1].role == AssistantRole &&
               Contains(JoinText(messages[|messages| - 1].parts), PaymentPhrase) &&
               lastProcessed != Some(messages[|messages| - 1].id))
    ensures r.Some? ==> r.value == messages[|messages| - 1].id
  {
    if |messages| == 0 then None
    else
      var last := messages[|messages| - 1];
      if last.role == AssistantRole && Contains(JoinText(last.parts), PaymentPhrase) && lastProcessed != Some(last.id)
      then Some(last.id)
      else None
  }

  /** Once a message has been acted on, the same messages never trigger again. */
  lemma PaymentProcessedOnce(messages: seq<ChatMessage>, lastProcessed: Option<string>)
    requires PaymentToProcess(messages, lastProcessed).Some?
    ensures PaymentToProcess(messages, PaymentToProcess(messages, lastProcessed)).None?
  {
  }

  /** A user's message never triggers the payment handling, whatever it says. */
  lemma UserMessageNeverPays(messages: seq<ChatMessage>, lastProcessed: Option<string>)
    requires |messages| > 0 && messages[|messages| - 1].role == UserRole
    ensures PaymentToProcess(messages, lastProcessed).None?
  {
  }

  /** `lastProcessedPaymentRef`: the id of the last message whose payment was handled. */
  class PaymentWatcher {
    var lastProcessedPayment: Option<string>

    constructor ()
      ensures lastProcessedPayment.None?
    {
      lastProcessedPayment := None;
    }

    /**
     * The effect run whenever the messages change: when the last message announces a
     * payment not yet handled, remember it, empty the cart and show the payment toast
     * (with `toastId` as its generated id); otherwise change nothing.
     */
    method OnMessages(messages: seq<ChatMessage>, cart: CartStoreSimple.CartStore, toasts: ToastProvider, toastId: string)
      modifies this, cart, toasts
      ensures var handled := PaymentToProcess(messages, old(lastProcessedPayment));
              handled.Some? ==>
                lastProcessedPayment == handled && cart.items == [] && cart.totalPrice == 0 &&
                toasts.toasts == old(toasts.toasts) + [Toast(toastId, PaymentToast)]
      ensures PaymentToProcess(messages, old(lastProcessedPayment)).None? ==>
                lastProcessedPayment == old(lastProcessedPayment) &&
                cart.items == old(cart.items) && cart.totalPrice == old(cart.totalPrice) &&
                toasts.toasts == old(toasts.toasts)
    {
      var handled := PaymentToProcess(messages, lastProcessedPayment);
      if handled.Some? {
        lastProcessedPayment := handled;
        cart.ClearCart();
        var _ := toasts.AddToast(PaymentToast, toastId);
      }
    }
  }
}
