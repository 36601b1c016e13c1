/** The pure helpers of the front end: choosing a display title and a description,
    building cover, placeholder, page-image and endpoint URLs, and cutting the hero
    summary. Records come from the catalog API already decoded. */
module Catalog {
  import opened Util

  const API_BASE := "https://api.mangadex.org"
  const UPLOADS_BASE := "https://uploads.mangadex.org/covers"

  /** No language code occurs twice, as in any JSON object. */
  predicate DistinctKeys(m: seq<(string, string)>) {
    forall i, j :: 0 <= i < j < |m| ==> m[i].0 != m[j].0
  }

  /** A JSON object keyed by language code (`{ en: "...", ja: "..." }`), as its entries
      in key order. */
  type LangMap = m: seq<(string, string)> | DistinctKeys(m)

  /** The `attributes` object of a manga record, reduced to what the helpers read. */
  datatype Attributes = Attributes(title: Option<LangMap>, description: Option<LangMap>)

  /** One entry of a manga's `relationships`; `fileName` is `attributes?.fileName`. */
  datatype Relationship = Relationship(kind: string, fileName: Option<string>)

  /** A manga record of the catalog's `data` array. */
  datatype Manga = Manga(id: string, attributes: Option<Attributes>, relationships: Option<seq<Relationship>>)

  /** `m[lang]`: the value stored under a language code, if any. */
  function LangValue(m: LangMap, lang: string): (r: Option<string>)
    ensures r.Some? <==> exists i :: 0 <= i < |m| && m[i].0 == lang
    ensures forall i :: 0 <= i < |m| && m[i].0 == lang ==> r == Some(m[i].1)
  {
    var k := FindIndex(m, (e: (string, string)) => e.0 == lang);
    if k < 0 then None else Some(m[k].1)
  }

  /** `Object.values(m)[0]`. */
  function FirstValue(m: LangMap): Option<string> {
    if |m| == 0 then None else Some(m[0].1)
  }

  /** `m.en || Object.values(m)[0] || fallback`: English when it is a non-empty text,
      otherwise the first language's text when that is non-empty, otherwise the fallback. */
  function Localized(m: LangMap, fallback: string): (r: string)
    ensures Truthy(LangValue(m, "en")) ==> r == LangValue(m, "en").value
    ensures !Truthy(LangValue(m, "en")) && Truthy(FirstValue(m)) ==> r == m[0].1
    ensures !Truthy(LangValue(m, "en")) && !Truthy(FirstValue(m)) ==> r == fallback
    ensures r == fallback || (r != "" && exists i :: 0 <= i < |m| && m[i].1 == r)
  {
    var en := LangValue(m, "en");
    if Truthy(en) then en.value
    else if Truthy(FirstValue(m)) then m[0].1
    else fallback
  }

  /** `getTitle(attrs)`: the display title of a manga. */
  function GetTitle(attrs: Option<Attributes>): (r: string)
    ensures r != ""
    ensures attrs.None? ==> r == "No Title"
    ensures attrs.Some? && attrs.value.title.None? ==> r == "Untitled"
    ensures attrs.Some? && attrs.value.title.Some? ==> r == Localized(attrs.value.title.value, "Untitled")
  {
    match attrs
    case None => "No Title"
    case Some(a) =>
      match a.title
      case None => "Untitled"
      case Some(t) => Localized(t, "Untitled")
  }

  /** The hero description before it is cut:
      `description?.en || Object.values(description || {})[0] || ''`. */
  function DescriptionText(description: Option<LangMap>): (r: string)
    ensures description.None? ==> r == ""
  {
    Localized(description.GetOr([]), "")
  }

  const SUMMARY_LIMIT := 320

  /** `desc.length > 320 ? desc.slice(0, 320) + '…' : desc`. */
  function Truncated(desc: string): (r: string)
    ensures |desc| <= SUMMARY_LIMIT ==> r == desc
    ensures |desc| > SUMMARY_LIMIT ==> |r| == SUMMARY_LIMIT + 1 && r[..SUMMARY_LIMIT] == desc[..SUMMARY_LIMIT] && r[SUMMARY_LIMIT] == '…'
  {
    if |desc| > SUMMARY_LIMIT then desc[..SUMMARY_LIMIT] + "…" else desc
  }

  /** The summary shown in the hero panel for a featured manga. */
  function HeroSummary(description: Option<LangMap>): (r: string)
    ensures |r| <= SUMMARY_LIMIT + 1
  {
    Truncated(DescriptionText(description))
  }

  const PLACEHOLDER_BASE := "https://via.placeholder.com/"

  const PLACEHOLDER_SUFFIX := ".png?text=No+Cover"

  /** `placeholder(w, h)`: the stand-in image used when a manga has no cover file. Its
      host and suffix are fixed, and what lies between them is `${w}x${h}`. */
  function Placeholder(w: nat, h: nat): (r: string)
    ensures PLACEHOLDER_BASE <= r
    ensures Unwrap(r, PLACEHOLDER_BASE, PLACEHOLDER_SUFFIX) == Some(NatToString(w) + "x" + NatToString(h))
  {
    UnwrapWrap(PLACEHOLDER_BASE, NatToString(w) + "x" + NatToString(h), PLACEHOLDER_SUFFIX);
    PLACEHOLDER_BASE + (NatToString(w) + "x" + NatToString(h)) + PLACEHOLDER_SUFFIX
  }

  /** A placeholder URL determines its width and height: the digits of the width end at
      the `x`, since no digit is an `x`. */
  lemma PlaceholderDimensions(w: nat, h: nat, w': nat, h': nat)
    ensures Placeholder(w, h) == Placeholder(w', h') ==> w == w' && h == h'
  {
    if Placeholder(w, h) == Placeholder(w', h') {
      var a, b := NatToString(w), NatToString(h);
      var a', b' := NatToString(w'), NatToString(h');
      var mid, mid' := a + "x" + b, a' + "x" + b';
      assert mid == mid';
      assert |a| == |a'| by {
        assert mid[|a|] == 'x' && mid'[|a'|] == 'x';
        assert forall i :: 0 <= i < |a| ==> mid[i] == a[i];
        assert forall i :: 0 <= i < |a'| ==> mid'[i] == a'[i];
      }
      assert a == mid[..|a|] == mid'[..|a'|] == a';
      assert b == mid[|a| + 1..] == mid'[|a'| + 1..] == b';
      NatToStringInjective(w, w');
      NatToStringInjective(h, h');
    }
  }

  /** The placeholder the cover helper uses. The sizes are parameters fixed by the
      precondition so that the verifier unfolds the decimal rendering only as far as the
      helper lemmas spell out. */
  lemma CoverPlaceholderText(w: nat, h: nat)
    requires w == 220 && h == 320
    ensures Placeholder(w, h) == "https://via.placeholder.com/220x320.png?text=No+Cover"
  {
    PlaceholderOfCoverSize(w, h);
    CoverPlaceholderSpelled();
  }

  lemma PlaceholderOfCoverSize(w: nat, h: nat)
    requires w == 220 && h == 320
    ensures Placeholder(w, h) == PLACEHOLDER_BASE + "220x320" + PLACEHOLDER_SUFFIX
  {
    Digits220(w);
    Digits320(h);
  }

  lemma CoverPlaceholderSpelled()
    ensures PLACEHOLDER_BASE + "220x320" + PLACEHOLDER_SUFFIX == "https://via.placeholder.com/220x320.png?text=No+Cover"
  {
  }

  lemma Digits220(n: nat)
    requires n == 220
    ensures NatToString(n) == "220"
  {
    assert NatToString(22) == "22";
    assert NatToString(n) == NatToString(22) + [DigitChar(0)];
  }

  lemma Digits320(n: nat)
    requires n == 320
    ensures NatToString(n) == "320"
  {
    assert NatToString(32) == "32";
    assert NatToString(n) == NatToString(32) + [DigitChar(0)];
  }

  const COVER_ART := "cover_art"

  /** `k` is the first relationship of kind `cover_art`: the one `find` returns. */
  predicate FirstCoverArt(rels: seq<Relationship>, k: int) {
    0 <= k < |rels| && rels[k].kind == COVER_ART && forall j :: 0 <= j < k ==> rels[j].kind != COVER_ART
  }

  /** The upload URL of a cover file: `${UPLOADS_BASE}/${mangaId}/${fileName}`. */
  function CoverFileUrl(mangaId: string, fileName: string): (r: string)
    ensures UPLOADS_BASE <= r
    ensures Unwrap(r, UPLOADS_BASE + "/" + mangaId + "/", "") == Some(fileName)
  {
    UnwrapPrefix(UPLOADS_BASE + "/" + mangaId + "/", fileName);
    UPLOADS_BASE + "/" + mangaId + "/" + fileName
  }

  /** `coverFromRel(m)`: the cover URL built from the file name of the FIRST `cover_art`
      relationship, or the 220x320 placeholder when that relationship is missing or has
      no (or an empty) file name. A later `cover_art` entry is never consulted. */
  function CoverFromRel(m: Manga): (r: string)
    ensures forall k :: FirstCoverArt(m.relationships.GetOr([]), k) && Truthy(m.relationships.GetOr([])[k].fileName) ==>
              r == CoverFileUrl(m.id, m.relationships.GetOr([])[k].fileName.value)
    ensures (forall k :: FirstCoverArt(m.relationships.GetOr([]), k) ==> !Truthy(m.relationships.GetOr([])[k].fileName)) ==>
              r == Placeholder(220, 320)
  {
    var rels := m.relationships.GetOr([]);
    var k := FindIndex(rels, (rel: Relationship) => rel.kind == COVER_ART);
    var fileName := if k >= 0 then rels[k].fileName else None;
    assert k >= 0 ==> FirstCoverArt(rels, k);
    if Truthy(fileName) then CoverFileUrl(m.id, fileName.value) else Placeholder(220, 320)
  }

  /** A cover file URL never looks like a placeholder, so the two outcomes of
      `CoverFromRel` can be told apart from the URL alone. */
  lemma CoverFileUrlIsNotPlaceholder(mangaId: string, fileName: string, w: nat, h: nat)
    ensures CoverFileUrl(mangaId, fileName) != Placeholder(w, h)
  {
    var c := CoverFileUrl(mangaId, fileName);
    var p := Placeholder(w, h);
    assert c[8] == UPLOADS_BASE[8] == 'u';
    assert p[8] == PLACEHOLDER_BASE[8] == 'v';
  }

  /** `CoverFromRel` yields the placeholder exactly when the first `cover_art`
      relationship is missing or carries no file name. */
  lemma CoverIsPlaceholderIff(m: Manga)
    ensures CoverFromRel(m) == Placeholder(220, 320) <==>
            forall k :: FirstCoverArt(m.relationships.GetOr([]), k) ==> !Truthy(m.relationships.GetOr([])[k].fileName)
  {
    var rels := m.relationships.GetOr([]);
    if !forall k :: FirstCoverArt(rels, k) ==> !Truthy(rels[k].fileName) {
      var k :| FirstCoverArt(rels, k) && Truthy(rels[k].fileName);
      CoverFileUrlIsNotPlaceholder(m.id, rels[k].fileName.value, 220, 320);
    }
  }

  /** `mdTitleUrl(id)`: the catalog's own web page for a manga. */
  const TITLE_PAGE_PREFIX := "https://mangadex.org/title/"

  function TitlePageUrl(id: string): (r: string)
    ensures Unwrap(r, TITLE_PAGE_PREFIX, "") == Some(id)
  {
    UnwrapPrefix(TITLE_PAGE_PREFIX, id);
    TITLE_PAGE_PREFIX + id
  }

  /** The manga list endpoint: `${API_BASE}/manga?${params}&includes[]=cover_art`. */
  const MANGA_QUERY_PREFIX := API_BASE + "/manga?"
  const MANGA_QUERY_SUFFIX := "&includes[]=cover_art"

  function MangaQueryUrl(params: string): (r: string)
    ensures Unwrap(r, MANGA_QUERY_PREFIX, MANGA_QUERY_SUFFIX) == Some(params)
  {
    UnwrapWrap(MANGA_QUERY_PREFIX, params, MANGA_QUERY_SUFFIX);
    MANGA_QUERY_PREFIX + params + MANGA_QUERY_SUFFIX
  }

  /** The chapter feed: up to 500 English chapters, newest chapter number first. */
  const FEED_PREFIX := API_BASE + "/manga/"
  const FEED_SUFFIX := "/feed?limit=500&translatedLanguage[]=en&order[chapter]=desc"

  function ChapterFeedUrl(mangaId: string): (r: string)
    ensures Unwrap(r, FEED_PREFIX, FEED_SUFFIX) == Some(mangaId)
  {
    UnwrapWrap(FEED_PREFIX, mangaId, FEED_SUFFIX);
    FEED_PREFIX + mangaId + FEED_SUFFIX
  }

  /** The page-server ("at-home") lookup for a chapter; the script spells the host out
      instead of using API_BASE, to the same effect. */
  const AT_HOME_PREFIX := "https://api.mangadex.org/at-home/server/"

  function AtHomeUrl(chapterId: string): (r: string)
    ensures Unwrap(r, AT_HOME_PREFIX, "") == Some(chapterId)
    ensures API_BASE <= r
  {
    UnwrapPrefix(AT_HOME_PREFIX, chapterId);
    AT_HOME_PREFIX + chapterId
  }

  /** Different identifiers always give different endpoint URLs. */
  lemma EndpointUrlsInjective(a: string, b: string)
    ensures ChapterFeedUrl(a) == ChapterFeedUrl(b) ==> a == b
    ensures AtHomeUrl(a) == AtHomeUrl(b) ==> a == b
    ensures MangaQueryUrl(a) == MangaQueryUrl(b) ==> a == b
    ensures TitlePageUrl(a) == TitlePageUrl(b) ==> a == b
  {
  }

  /** One page image: `${baseUrl}/data/${hash}/${fileName}`. */
  function PageUrl(baseUrl: string, hash: string, fileName: string): (r: string)
    ensures Unwrap(r, baseUrl + "/data/" + hash + "/", "") == Some(fileName)
  {
    UnwrapPrefix(baseUrl + "/data/" + hash + "/", fileName);
    baseUrl + "/data/" + hash + "/" + fileName
  }

  /** The page image URLs of a chapter, one per file name and in the same order. */
  function PageUrls(baseUrl: string, hash: string, files: seq<string>): (r: seq<string>)
    ensures |r| == |files|
    ensures forall i :: 0 <= i < |files| ==> r[i] == PageUrl(baseUrl, hash, files[i])
  {
    if |files| == 0 then []
    else [PageUrl(baseUrl, hash, files[0])] + PageUrls(baseUrl, hash, files[1..])
  }

  /** The worked example: two files under one server and hash. */
  lemma PageUrlsExample()
    ensures PageUrls("https://x", "abc", ["1.png", "2.png"]) == ["https://x/data/abc/1.png", "https://x/data/abc/2.png"]
  {
    var r := PageUrls("https://x", "abc", ["1.png", "2.png"]);
    assert r[0] == "https://x/data/abc/1.png";
    assert r[1] == "https://x/data/abc/2.png";
  }
}
