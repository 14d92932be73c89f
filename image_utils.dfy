/**
 * Image URL handling (src/lib/image-utils.ts): rewriting a Google Drive share link to its
 * direct-download form, and choosing the URL an image element shows (a placeholder for a
 * missing link, the image proxy for Drive links, the link itself otherwise).
 */
module ImageUtils {
  import opened Wrappers
  import opened Text
  import opened UriEncoding

  const DriveHost := "drive.google.com"
  const Https := "https://"
  /** The direct-download form every recognised Drive link is rewritten to, before the id. */
  const DownloadPrefix := Https + DriveHost + "/uc" + "?export=" + "download" + "&id="
  /** The image proxy route, before the encoded target URL. */
  const ProxyPrefix := "/api/image-proxy?url="

  /** The base64 text of the placeholder SVG, a grey square reading "No Image". */
  const PlaceholderSvg := "PHN2ZyB3aWR0aD0iMzAwIiBoZWlnaHQ9IjMwMCIgeG1sbnM9Imh0dHA6Ly93d3cudzMub3JnLzIwMDAvc3ZnIj48cmVjdCB3aWR0aD0iMTAwJSIgaGVpZ2h0PSIxMDAlIiBmaWxsPSIjZGRkIi8+PHRleHQgeD0iNTAlIiB5PSI1MCUiIGZvbnQtZmFtaWx5PSJBcmlhbCIgZm9udC1zaXplPSIxNCIgZmlsbD0iIzk5OSIgdGV4dC1hbmNob3I9Im1pZGRsZSIgZHk9Ii4zZW0iPk5vIEltYWdlPC90ZXh0Pjwvc3ZnPg=="

  /** `getPlaceholderImage()`: the placeholder SVG as a data URL. */
  const Placeholder := "data:" + "image/svg+xml;base64," + PlaceholderSvg

  function GetPlaceholderImage(): (r: string)
    ensures |r| > 26 && r[..5] == "data:" && r[5..26] == "image/svg+xml;base64," && r[26..] == PlaceholderSvg
    ensures r == Placeholder && !Blank(r)
  {
    assert Placeholder[0] == 'd';
    Placeholder
  }

  // ----- the three Drive id patterns -----

  /**
   * A regular expression `[first]rest([^stop]+)`: one character of `first`, the literal
   * `rest`, then a capture of one or more characters other than `stop`.
   */
  datatype Pattern = Pattern(first: set<char>, rest: string, stop: char)

  /** `/[?&]id=([^&]+)/` */
  const UcPattern := Pattern({'?', '&'}, "id=", '&')
  /** `/\/file\/d\/([^/]+)/` */
  const FilePattern := Pattern({'/'}, "file/d/", '/')
  /** `/\/thumbnail\?id=([^&]+)/` */
  const ThumbnailPattern := Pattern({'/'}, "thumbnail?id=", '&')

  /** Where the capture of a match of `p` at `i` begins. */
  function CaptureStart(p: Pattern, i: nat): nat {
    i + 1 + |p.rest|
  }

  /** `p` matches `s` at index `i` (with at least one captured character). */
  predicate MatchesAt(s: string, p: Pattern, i: nat) {
    CaptureStart(p, i) < |s| && s[i] in p.first && OccursAt(s, p.rest, i + 1) && s[CaptureStart(p, i)] != p.stop
  }

  /** The first index at or after `from` where `p` matches `s`, scanning left to right. */
  function FirstMatchFrom(s: string, p: Pattern, from: nat): Option<nat>
    decreases |s| - from
  {
    if |s| <= from then None
    else if MatchesAt(s, p, from) then Some(from)
    else FirstMatchFrom(s, p, from + 1)
  }

  /** The scan finds the leftmost match at or after `from`, and finds none only when there is none. */
  lemma {:induction false} FirstMatchFromLeftmost(s: string, p: Pattern, from: nat)
    ensures var r := FirstMatchFrom(s, p, from);
            (r.Some? ==> from <= r.value && MatchesAt(s, p, r.value)) &&
            (r.Some? ==> forall j: nat :: from <= j < r.value ==> !MatchesAt(s, p, j)) &&
            (r.None? ==> forall j: nat :: from <= j ==> !MatchesAt(s, p, j))
    decreases |s| - from
  {
    if |s| > from && !MatchesAt(s, p, from) {
      FirstMatchFromLeftmost(s, p, from + 1);
    }
  }

  /** The longest prefix of `t` without `stop`: what a greedy `[^stop]+` consumes. */
  function TakeUntil(t: string, stop: char): (r: string)
    ensures r <= t && stop !in r
    ensures |r| < |t| ==> t[|r|] == stop
    decreases |t|
  {
    if t == [] || t[0] == stop then [] else [t[0]] + TakeUntil(t[1..], stop)
  }

  /**
   * `s.match(p)?.[1]`: the group captured at the leftmost match, which is the longest run
   * of characters other than `stop` starting where that match's capture begins.
   */
  function Capture(s: string, p: Pattern): (r: Option<string>)
    ensures r.Some? ==> r.value != [] && p.stop !in r.value && Contains(s, r.value)
    ensures r.None? <==> forall j: nat :: !MatchesAt(s, p, j)
    ensures forall i: nat :: MatchesAt(s, p, i) && (forall j: nat :: j < i ==> !MatchesAt(s, p, j)) ==>
              r == Some(TakeUntil(s[CaptureStart(p, i)..], p.stop))
  {
    FirstMatchFromLeftmost(s, p, 0);
    match FirstMatchFrom(s, p, 0)
    case None => None
    case Some(i) =>
      var c := CaptureStart(p, i);
      var id := TakeUntil(s[c..], p.stop);
      assert id == s[c..c + |id|] && OccursAt(s, id, c);
      assert id[0] == s[c];
      Some(id)
  }

  /**
   * The file id of a Drive link. The three patterns are tried in source order and a
   * later match overwrites an earlier one, so a thumbnail match wins over a file match,
   * which wins over an `id=` query match.
   */
  function DriveFileId(url: string): (r: Option<string>)
    ensures r.Some? ==> r.value != [] && Contains(url, r.value)
    ensures r.None? <==> Capture(url, UcPattern).None? && Capture(url, FilePattern).None? && Capture(url, ThumbnailPattern).None?
    ensures Capture(url, ThumbnailPattern).Some? ==> r == Capture(url, ThumbnailPattern)
    ensures Capture(url, ThumbnailPattern).None? && Capture(url, FilePattern).Some? ==> r == Capture(url, FilePattern)
    ensures Capture(url, ThumbnailPattern).None? && Capture(url, FilePattern).None? ==> r == Capture(url, UcPattern)
  {
    var uc := Capture(url, UcPattern);
    var file := Capture(url, FilePattern);
    var thumbnail := Capture(url, ThumbnailPattern);
    if thumbnail.Some? then thumbnail else if file.Some? then file else uc
  }

  /** `convertGoogleDriveUrl(url)`. */
  function ConvertGoogleDriveUrl(url: string): (r: string)
    ensures !Contains(url, DriveHost) || DriveFileId(url).None? ==> r == url
    ensures Contains(url, DriveHost) && DriveFileId(url).Some? ==> r == DownloadPrefix + DriveFileId(url).value
    ensures r == url || (|r| > |DownloadPrefix| && r[..|DownloadPrefix|] == DownloadPrefix)
  {
    if !Contains(url, DriveHost) then url
    else match DriveFileId(url)
      case Some(fileId) => DownloadPrefix + fileId
      case None => url
  }

  // ----- the URL an image element shows -----

  /** The characters `String.prototype.trim` removes: white space and line terminators. */
  predicate IsJsWhitespace(c: char) {
    || c == '\t' || c == '\n' || c == '\U{000B}' || c == '\U{000C}' || c == '\r' || c == ' '
    || c == '\U{00A0}' || c == '\U{1680}' || '\U{2000}' <= c <= '\U{200A}'
    || c == '\U{2028}' || c == '\U{2029}' || c == '\U{202F}' || c == '\U{205F}'
    || c == '\U{3000}' || c == '\U{FEFF}'
  }

  /** Only white space (or nothing at all). */
  predicate Blank(s: string) {
    forall i :: 0 <= i < |s| ==> IsJsWhitespace(s[i])
  }

  /** How many white-space characters `s` starts with. */
  function LeadingBlank(s: string): (n: nat)
    ensures n <= |s| && Blank(s[..n])
    ensures n < |s| ==> !IsJsWhitespace(s[n])
    decreases |s|
  {
    if s == [] || !IsJsWhitespace(s[0]) then 0
    else
      var n := LeadingBlank(s[1..]);
      assert s[..n + 1] == [s[0]] + s[1..][..n];
      n + 1
  }

  /** How many white-space characters `s` ends with. */
  function TrailingBlank(s: string): (n: nat)
    ensures n <= |s| && Blank(s[|s| - n..])
    ensures n < |s| ==> !IsJsWhitespace(s[|s| - n - 1])
    decreases |s|
  {
    if s == [] || !IsJsWhitespace(s[|s| - 1]) then 0
    else
      var init := s[..|s| - 1];
      var n := TrailingBlank(init);
      assert s[|s| - (n + 1)..] == init[|init| - n..] + [s[|s| - 1]];
      n + 1
  }

  /**
   * `s.trim()`: `s` without its leading and trailing white space. The result sits in `s`
   * between a blank head and a blank tail, and neither of its ends is white space.
   */
  function Trim(s: string): (r: string)
    ensures var a := LeadingBlank(s);
            a + |r| <= |s| && Blank(s[..a]) && s[a..a + |r|] == r && Blank(s[a + |r|..])
    ensures r == [] || (!IsJsWhitespace(r[0]) && !IsJsWhitespace(r[|r| - 1]))
  {
    var t := s[LeadingBlank(s)..];
    var r := t[..|t| - TrailingBlank(t)];
    assert r != [] ==> r[0] == t[0];
    r
  }

  /** A string trims to nothing exactly when it is all white space. */
  lemma TrimEmptyIffBlank(s: string)
    ensures Trim(s) == [] <==> Blank(s)
  {
    if Blank(s) {
      BlankTrimsToEmpty(s);
    }
    if Trim(s) == [] {
      EmptyTrimIsBlank(s);
    }
  }

  lemma BlankTrimsToEmpty(s: string)
    requires Blank(s)
    ensures Trim(s) == []
  {
    var a := LeadingBlank(s);
    assert a == |s|;
  }

  lemma EmptyTrimIsBlank(s: string)
    requires Trim(s) == []
    ensures Blank(s)
  {
    var a := LeadingBlank(s);
    var t := s[a..];
    var n := TrailingBlank(t);
    assert t[..|t| - n] == [];
    assert t[|t| - n..] == t;
    assert a == |s|;
    assert s[..a] == s;
  }

  /**
   * `getSafeImageUrl(url, useProxy = true)`; `None` stands for `null` and `undefined`.
   * A missing, empty or blank link gives the placeholder; a Drive link goes through the
   * proxy (or is only rewritten, without the proxy); any other link is kept.
   */
  function GetSafeImageUrl(url: Option<string>, useProxy: bool := true): string {
    if url.None? || url.value == "" || Trim(url.value) == "" then GetPlaceholderImage()
    else if Contains(url.value, DriveHost) && useProxy then
      ProxyPrefix + EncodeUriComponent(ConvertGoogleDriveUrl(url.value))
    else if Contains(url.value, DriveHost) then ConvertGoogleDriveUrl(url.value)
    else url.value
  }

  /** An image element is never given an empty or blank source. */
  lemma SafeUrlNeverBlank(url: Option<string>, useProxy: bool)
    ensures !Blank(GetSafeImageUrl(url, useProxy))
  {
    if url.None? || url.value == "" || Trim(url.value) == "" {
    } else if Contains(url.value, DriveHost) && useProxy {
      ProxyNotBlank(ConvertGoogleDriveUrl(url.value));
    } else {
      TrimEmptyIffBlank(url.value);
      if Contains(url.value, DriveHost) {
        DownloadNotBlank(url.value);
      }
    }
  }

  lemma ProxyNotBlank(target: string)
    ensures !Blank(ProxyPrefix + EncodeUriComponent(target))
  {
    var r := ProxyPrefix + EncodeUriComponent(target);
    assert r[0] == '/';
  }

  lemma DownloadNotBlank(url: string)
    requires !Blank(url)
    ensures !Blank(ConvertGoogleDriveUrl(url))
  {
    var r := ConvertGoogleDriveUrl(url);
    if r != url {
      assert r[0] == DownloadPrefix[0] == 'h';
    }
  }

  /** A missing link, or one that is empty or only white space, shows the placeholder. */
  lemma SafeUrlOfBlank(url: Option<string>, useProxy: bool)
    requires url.None? || Blank(url.value)
    ensures GetSafeImageUrl(url, useProxy) == Placeholder
  {
    if url.Some? {
      TrimEmptyIffBlank(url.value);
    }
  }

  /**
   * A Drive link goes through the image proxy by default: the proxy route followed by the
   * encoded rewritten link, from which percent-decoding recovers the rewritten link's bytes.
   */
  lemma SafeUrlOfDriveLink(url: string)
    requires !Blank(url) && Contains(url, DriveHost)
    ensures var r := GetSafeImageUrl(Some(url));
            r == ProxyPrefix + EncodeUriComponent(ConvertGoogleDriveUrl(url)) &&
            PercentDecode(r[|ProxyPrefix|..]) == Some(Utf8(ConvertGoogleDriveUrl(url)))
  {
    TrimEmptyIffBlank(url);
    var r := GetSafeImageUrl(Some(url));
    assert r[|ProxyPrefix|..] == EncodeUriComponent(ConvertGoogleDriveUrl(url));
    DecodeEncode(ConvertGoogleDriveUrl(url));
  }

  /** Without the proxy a Drive link is only rewritten. */
  lemma SafeUrlOfDriveLinkWithoutProxy(url: string)
    requires !Blank(url) && Contains(url, DriveHost)
    ensures GetSafeImageUrl(Some(url), false) == ConvertGoogleDriveUrl(url)
  {
    TrimEmptyIffBlank(url);
  }

  /** Any other link that is not blank is kept as it is, with or without the proxy. */
  lemma SafeUrlOfOtherLink(url: string, useProxy: bool)
    requires !Blank(url) && !Contains(url, DriveHost)
    ensures GetSafeImageUrl(Some(url), useProxy) == url
  {
    TrimEmptyIffBlank(url);
  }

  // ----- the documented share-link formats -----

  /** Drive file ids are made of letters, digits, `-` and `_`. */
  predicate IsDriveId(id: string) {
    id != [] && forall j :: 0 <= j < |id| ==> IsIdChar(id[j])
  }

  predicate IsIdChar(c: char) {
    'A' <= c <= 'Z' || 'a' <= c <= 'z' || '0' <= c <= '9' || c == '-' || c == '_'
  }

  /** `https://drive.google.com/uc?export=ACTION&id=FILE_ID`; the documented share link has ACTION `view`. */
  function UcUrl(action: string, id: string): string {
    Https + DriveHost + "/uc" + "?export=" + action + "&id=" + id
  }

  /** `https://drive.google.com/file/d/FILE_ID/view` */
  function FileShareUrl(id: string): string {
    Https + DriveHost + "/" + "file/d/" + id + "/view"
  }

  /** `https://drive.google.com/thumbnail?id=FILE_ID&sz=w1000` */
  function ThumbnailShareUrl(id: string): string {
    Https + DriveHost + "/" + "thumbnail?id=" + id + "&sz=w1000"
  }

  /** No match of `p` starts inside `s[from..to]` when none of its characters can start one. */
  lemma {:induction false} SkipTo(s: string, p: Pattern, from: nat, to: nat)
    requires from <= to <= |s|
    requires forall j :: from <= j < to ==> s[j] !in p.first
    ensures FirstMatchFrom(s, p, from) == FirstMatchFrom(s, p, to)
    decreases (to as int) - from
  {
    if from < to {
      SkipTo(s, p, from + 1, to);
    }
  }

  /** A position followed by a character other than the first of `p.rest` starts no match. */
  lemma StepOver(s: string, p: Pattern, from: nat)
    requires from + 1 < |s| && p.rest != [] && s[from + 1] != p.rest[0]
    ensures FirstMatchFrom(s, p, from) == FirstMatchFrom(s, p, from + 1)
  {
  }

  /** The greedy capture of an id followed by the stop character (or by nothing) is the id. */
  lemma {:induction false} TakeUntilExact(id: string, tail: string, stop: char)
    requires stop !in id && (tail == [] || tail[0] == stop)
    ensures TakeUntil(id + tail, stop) == id
    decreases |id|
  {
    if id == [] {
      assert id + tail == tail;
    } else {
      assert (id + tail)[0] == id[0] && (id + tail)[1..] == id[1..] + tail;
      TakeUntilExact(id[1..], tail, stop);
    }
  }

  /** No match of a pattern led by `/f` or `/t` starts inside `https://drive.google.com`. */
  lemma HostPrefix(s: string, p: Pattern)
    requires |s| > 25 && s[..25] == Https + DriveHost + "/"
    requires p.first == {'/'} && p.rest != [] && (p.rest[0] == 'f' || p.rest[0] == 't')
    ensures FirstMatchFrom(s, p, 0) == FirstMatchFrom(s, p, 24)
  {
    assert s[..6] == "https:" && s[6] == '/' && s[7] == '/' && s[8..24] == DriveHost;
    assert s[8] == DriveHost[0] == 'd';
    NoPathStart("https:", p);
    SkipPiece(s, p, 0, "https:");
    StepOver(s, p, 6);
    StepOver(s, p, 7);
    NoPathStart(DriveHost, p);
    SkipPiece(s, p, 8, DriveHost);
  }

  /** A piece of `s` none of whose characters can start a match is skipped over. */
  lemma SkipPiece(s: string, p: Pattern, from: nat, piece: string)
    requires from + |piece| <= |s| && s[from..from + |piece|] == piece
    requires forall j :: 0 <= j < |piece| ==> piece[j] !in p.first
    ensures FirstMatchFrom(s, p, from) == FirstMatchFrom(s, p, from + |piece|)
  {
    forall j | from <= j < from + |piece| ensures s[j] !in p.first {
      assert s[j] == piece[j - from];
    }
    SkipTo(s, p, from, from + |piece|);
  }

  /** A piece without `?` and `&` holds no character that can start a query match. */
  lemma NoQueryStart(piece: string)
    requires '?' !in piece && '&' !in piece
    ensures forall j :: 0 <= j < |piece| ==> piece[j] !in UcPattern.first
  {
  }

  /** A piece without `/` holds no character that can start a path match. */
  lemma NoPathStart(piece: string, p: Pattern)
    requires p.first == {'/'} && '/' !in piece
    ensures forall j :: 0 <= j < |piece| ==> piece[j] !in p.first
  {
  }

  /** A Drive id holds no `/`, `?` or `&`, so it cannot start or stop a match. */
  lemma DriveIdChars(id: string)
    requires IsDriveId(id)
    ensures forall j :: 0 <= j < |id| ==> id[j] != '/' && id[j] != '?' && id[j] != '&'
  {
  }

  lemma UcUrlShape(action: string, id: string)
    ensures var s := UcUrl(action, id);
            var n := |action|;
            |s| == 39 + n + |id| && s[..8] == Https && s[8..24] == DriveHost && s[24..27] == "/uc" &&
            s[..27] == Https + DriveHost + "/uc" &&
            s[27..35] == "?export=" && s[35..35 + n] == action && s[35 + n..39 + n] == "&id=" && s[39 + n..] == id
  {
  }

  /** The link split after `https://drive.google.com/`. */
  lemma UcUrlSplit(action: string, id: string)
    ensures UcUrl(action, id) == (Https + DriveHost + "/") + ("uc?export=" + action + "&id=" + id)
  {
  }

  /** Neither Drive path pattern matches an `export=ACTION&id=FILE_ID` link. */
  lemma UcUrlNoPathMatch(action: string, id: string, p: Pattern)
    requires IsDriveId(action) && IsDriveId(id)
    requires p.first == {'/'} && p.rest != [] && (p.rest[0] == 'f' || p.rest[0] == 't')
    ensures FirstMatchFrom(UcUrl(action, id), p, 0) == None
  {
    var s := UcUrl(action, id);
    var tail := "uc?export=" + action + "&id=" + id;
    UcUrlSplit(action, id);
    assert s[..25] == Https + DriveHost + "/" && s[25..] == tail;
    HostPrefix(s, p);
    assert s[25] == tail[0] == 'u';
    StepOver(s, p, 24);
    DriveIdChars(action);
    DriveIdChars(id);
    assert '/' !in action && '/' !in id;
    NoPathStart(tail, p);
    SkipPiece(s, p, 25, tail);
  }

  /** No match of the query pattern starts inside `https://drive.google.com/uc?export=`. */
  lemma QueryHead(s: string)
    requires |s| >= 35 && s[..27] == Https + DriveHost + "/uc" && s[27..35] == "?export="
    ensures FirstMatchFrom(s, UcPattern, 0) == FirstMatchFrom(s, UcPattern, 35)
  {
    QueryHost(s);
    QueryExport(s);
  }

  lemma QueryHost(s: string)
    requires |s| >= 27 && s[..27] == Https + DriveHost + "/uc"
    ensures FirstMatchFrom(s, UcPattern, 0) == FirstMatchFrom(s, UcPattern, 27)
  {
    NoQueryStart(Https + DriveHost + "/uc");
    SkipPiece(s, UcPattern, 0, Https + DriveHost + "/uc");
  }

  lemma QueryExport(s: string)
    requires |s| >= 35 && s[27..35] == "?export="
    ensures FirstMatchFrom(s, UcPattern, 27) == FirstMatchFrom(s, UcPattern, 35)
  {
    QueryMark(s[27..35]);
    assert s[28] == s[27..35][1];
    StepOver(s, UcPattern, 27);
    assert s[28..35] == s[27..35][1..];
    NoQueryStart("export=");
    SkipPiece(s, UcPattern, 28, "export=");
  }

  lemma QueryMark(q: string)
    requires q == "?export="
    ensures q[1] == 'e' && q[1..] == "export="
  {
  }

  lemma UcUrlQueryPrefix(action: string, id: string)
    ensures FirstMatchFrom(UcUrl(action, id), UcPattern, 0) == FirstMatchFrom(UcUrl(action, id), UcPattern, 35)
  {
    UcUrlShape(action, id);
    QueryHead(UcUrl(action, id));
  }

  /** The query pattern first matches an `export=ACTION&id=FILE_ID` link at `&id=`. */
  lemma UcUrlQueryMatch(action: string, id: string)
    requires IsDriveId(action) && IsDriveId(id)
    ensures FirstMatchFrom(UcUrl(action, id), UcPattern, 0) == Some(35 + |action|)
  {
    var s := UcUrl(action, id);
    var n := |action|;
    UcUrlShape(action, id);
    DriveIdChars(action);
    UcUrlQueryPrefix(action, id);
    SkipPiece(s, UcPattern, 35, action);
    DriveIdChars(id);
    assert s[39 + n] == id[0];
    QueryMatchAt(s, 35 + n);
  }

  /** A link with `&id=` at `k`, followed by a character other than `&`, has a query match at `k`. */
  lemma QueryMatchAt(s: string, k: nat)
    requires k + 4 < |s| && s[k..k + 4] == "&id=" && s[k + 4] != '&'
    ensures FirstMatchFrom(s, UcPattern, k) == Some(k)
  {
    var q := s[k..k + 4];
    assert q[0] == '&' && q[1..] == "id=";
    assert s[k] == q[0] && s[k + 1..k + 4] == q[1..];
    assert MatchesAt(s, UcPattern, k);
  }

  /**
   * A link `https://drive.google.com/uc?export=ACTION&id=FILE_ID` is rewritten to the
   * download link of FILE_ID; for ACTION `view` this is the documented share link.
   */
  lemma ConvertUcUrl(action: string, id: string)
    requires IsDriveId(action) && IsDriveId(id)
    ensures ConvertGoogleDriveUrl(UcUrl(action, id)) == DownloadPrefix + id
  {
    var s := UcUrl(action, id);
    UcUrlShape(action, id);
    DriveIdChars(id);
    assert OccursAt(s, DriveHost, 8);
    UcUrlNoPathMatch(action, id, FilePattern);
    UcUrlNoPathMatch(action, id, ThumbnailPattern);
    UcUrlQueryMatch(action, id);
    TakeUntilExact(id, [], '&');
    assert s[39 + |action|..] == id + [];
  }

  /** The download link is left as it is: rewriting is idempotent on its own output. */
  lemma ConvertDownloadUrlFixed(id: string)
    requires IsDriveId(id)
    ensures ConvertGoogleDriveUrl(DownloadPrefix + id) == DownloadPrefix + id
  {
    assert DownloadPrefix + id == UcUrl("download", id);
    ConvertUcUrl("download", id);
  }

  /** A position is passed over when some character of `p.rest` is not found in its place. */
  lemma StepOverAt(s: string, p: Pattern, from: nat, k: nat)
    requires from < |s| && k < |p.rest| && (from + 1 + k >= |s| || s[from + 1 + k] != p.rest[k])
    ensures FirstMatchFrom(s, p, from) == FirstMatchFrom(s, p, from + 1)
  {
  }

  lemma FileShareUrlShape(id: string)
    ensures var s := FileShareUrl(id);
            var n := |id|;
            |s| == 37 + n && s[..25] == Https + DriveHost + "/" && s[25..32] == "file/d/" &&
            s[32..32 + n] == id && s[32 + n..] == "/view" && s[32..] == id + "/view"
  {
  }

  /** No thumbnail match starts inside `https://drive.google.com/file/d`. */
  lemma FileShareUrlThumbnailHead(id: string)
    ensures FirstMatchFrom(FileShareUrl(id), ThumbnailPattern, 0) == FirstMatchFrom(FileShareUrl(id), ThumbnailPattern, 31)
  {
    var s := FileShareUrl(id);
    var p := ThumbnailPattern;
    FileShareUrlShape(id);
    HostPrefix(s, p);
    assert s[25] == 'f' && s[25..29] == "file" && s[29] == '/' && s[30] == 'd';
    StepOver(s, p, 24);
    NoPathStart("file", p);
    SkipPiece(s, p, 25, "file");
    StepOver(s, p, 29);
    NoPathStart("d", p);
    SkipPiece(s, p, 30, "d");
  }

  /** No thumbnail match starts inside `https://drive.google.com/file/d/` when an id follows. */
  lemma FileShareUrlThumbnailPrefix(id: string)
    requires IsDriveId(id)
    ensures FirstMatchFrom(FileShareUrl(id), ThumbnailPattern, 0) == FirstMatchFrom(FileShareUrl(id), ThumbnailPattern, 32)
  {
    var s := FileShareUrl(id);
    var n := |id|;
    FileShareUrlShape(id);
    FileShareUrlThumbnailHead(id);
    assert 41 < |s| ==> s[41] != '?' by {
      DriveIdChars(id);
      if 41 < |s| {
        if 41 < 32 + n {
          assert s[41] == id[9];
        } else {
          assert s[41] == "/view"[41 - 32 - n];
        }
      }
    }
    assert ThumbnailPattern.rest[9] == '?';
    StepOverAt(s, ThumbnailPattern, 31, 9);
  }

  /** The thumbnail pattern does not match `https://drive.google.com/file/d/FILE_ID/view`. */
  lemma FileShareUrlNoThumbnail(id: string)
    requires IsDriveId(id)
    ensures FirstMatchFrom(FileShareUrl(id), ThumbnailPattern, 0) == None
  {
    var s := FileShareUrl(id);
    var n := |id|;
    var p := ThumbnailPattern;
    FileShareUrlShape(id);
    DriveIdChars(id);
    FileShareUrlThumbnailPrefix(id);
    SkipPiece(s, p, 32, id);
    assert s[32 + n + 1] == 'v';
    StepOver(s, p, 32 + n);
    assert s[33 + n..] == "view";
    NoPathStart("view", p);
    SkipPiece(s, p, 33 + n, "view");
  }

  /** The link `https://drive.google.com/file/d/FILE_ID/view` is rewritten to the download link of FILE_ID. */
  lemma ConvertFileShareUrl(id: string)
    requires IsDriveId(id)
    ensures ConvertGoogleDriveUrl(FileShareUrl(id)) == DownloadPrefix + id
  {
    var s := FileShareUrl(id);
    FileShareUrlShape(id);
    DriveIdChars(id);
    assert s[8..24] == DriveHost && OccursAt(s, DriveHost, 8);
    FileShareUrlNoThumbnail(id);
    HostPrefix(s, FilePattern);
    assert s[24] == '/' && s[32] == id[0];
    assert MatchesAt(s, FilePattern, 24);
    TakeUntilExact(id, "/view", '/');
  }

  /** The link `https://drive.google.com/thumbnail?id=FILE_ID&sz=w1000` is rewritten to the download link of FILE_ID. */
  lemma ConvertThumbnailShareUrl(id: string)
    requires IsDriveId(id)
    ensures ConvertGoogleDriveUrl(ThumbnailShareUrl(id)) == DownloadPrefix + id
  {
    var s := ThumbnailShareUrl(id);
    var n := |id|;
    assert s[..25] == Https + DriveHost + "/" && s[25..38] == "thumbnail?id=" && s[38..] == id + "&sz=w1000";
    assert s[8..24] == DriveHost && OccursAt(s, DriveHost, 8);
    DriveIdChars(id);
    HostPrefix(s, ThumbnailPattern);
    assert s[24] == '/' && s[38] == id[0];
    assert MatchesAt(s, ThumbnailPattern, 24);
    TakeUntilExact(id, "&sz=w1000", '&');
  }
}
