# Myverse reader core in Dafny

Myverse is a single-page manga front end (`app.js`). It lists titles from the MangaDex
catalog API, shows a rotating "featured" hero, opens a chapter reader in a modal, and keeps
bookmarks and per-manga resume records in the browser's local storage. Nearly all of the
script is HTTP fetches and DOM building. This project models the logic inside it:

- `util.dfy` (module `Util`): `Option` for `undefined`/`null`, string truthiness,
  `Array.prototype.findIndex`, the decimal text of a number in a template string, and the
  inverse of a one-hole URL template.
- `catalog.dfy` (module `Catalog`): `getTitle`, the hero description and its 320-character
  cut, `coverFromRel` and `placeholder`, `mdTitleUrl`, the three endpoint URL templates, and
  page image URLs `baseUrl/data/hash/file`.
- `storage.dfy` (module `Storage`): the two local-storage items. It covers the bookmark list
  toggled by `toggleBookmark`, the resume map written by `saveResume`, and the rule that a
  missing or unparsable item reads as empty. The class `LocalStore` holds the two items.
- `reader.dfy` (module `Reader`): the `currentReader` session as the class `ReaderSession`.
  It covers `openReaderForManga`, `loadChapterByIndex`, the prev/next chapter handlers with
  the buttons' `disabled` flags, the close button and the keyboard aliases. Two client
  methods walk through concrete sessions.
- `featured.dfy` (module `Featured`): the carousel's `currentFeaturedIndex` and hero
  summary as the class `Carousel`, with the timer step `(i + 1) % n`, lemmas on repeated
  steps, and `renderFeatured`, whose throw on a record without attributes keeps the timer
  from starting.

Network answers are method parameters. A chapter-list fetch that throws is `None`. A
page-server lookup that throws, or whose answer lacks its `chapter` object, is also `None`.
`Date.now()` is the parameter `now`.

Where the script defines a function twice, the later declaration is the one in effect. This
covers `coverFromRel` (lines 17-21 and 445-449), `mdTitleUrl` (22 and 364), `fetchManga`
(74-80 and 394-398), `fetchChapters` and `getAtHome`. The two versions build the same
strings, so each is modelled once.

The model keeps these behaviours of the code as written:

- Closing the reader only hides the modal (app.js:293). The session keeps its manga,
  chapters, index and pages; it is not discarded.
- The cover comes from the first relationship of kind `cover_art`, whatever it holds. If
  that one has no file name, the placeholder is used even when a later `cover_art` entry has
  one.
- The resume record always stores page index 1 (app.js:272).
- A chapter load that fails or has no pages leaves the buttons' `disabled` flags as the last
  successful load set them, although the index has already moved (app.js:283, 289).
  `Reader.StaleButtonsScenario` shows the previous chapter becoming unreachable this way.

## Model

| member | source | states |
|---|---|---|
| `Util.FindIndex` | app.js:327 | the result is -1 exactly when no element matches; otherwise it is the first matching index |
| `Util.NatToString` | app.js:23 | a number in a template string renders as decimal digits whose value is that number, with no leading zero |
| `Util.NatToStringInjective` | app.js:23 | different numbers render as different texts |
| `Catalog.LangValue` | app.js:12 | `title.en` is present exactly when some entry has that key, and then its value is that entry's (keys are distinct, as in a JSON object) |
| `Catalog.Localized` | app.js:12-13 | English if non-empty, else the first language's text if non-empty, else the fallback; the result is the fallback or a non-empty value of the map |
| `Catalog.GetTitle` | app.js:9-16 | 'No Title' without attributes, 'Untitled' without a title map, else the localized title; never empty |
| `Catalog.DescriptionText` | app.js:122 | a missing description gives the empty text |
| `Catalog.Truncated` | app.js:123 | a text of at most 320 characters is kept; a longer one becomes its first 320 characters followed by '…' |
| `Catalog.HeroSummary` | app.js:122-123 | the hero summary is at most 321 characters |
| `Catalog.Placeholder` | app.js:23 | a placeholder is the placeholder host, then `${w}x${h}`, then `.png?text=No+Cover` |
| `Catalog.PlaceholderDimensions` | app.js:23 | a placeholder URL determines its width and height |
| `Catalog.CoverPlaceholderText` | app.js:20-23 | the cover placeholder is exactly `https://via.placeholder.com/220x320.png?text=No+Cover` |
| `Catalog.CoverFileUrl` | app.js:20 | a cover file URL starts with the uploads base, and removing `UPLOADS_BASE/mangaId/` gives back the file name |
| `Catalog.CoverFromRel` | app.js:17-21 | the cover URL uses the first `cover_art` relationship's file name when it is non-empty; when that relationship is missing or has no file name, the result is the 220x320 placeholder |
| `Catalog.CoverFileUrlIsNotPlaceholder` | app.js:20 | no cover file URL equals any placeholder |
| `Catalog.CoverIsPlaceholderIff` | app.js:17-21 | the cover is the placeholder if and only if the first `cover_art` relationship is missing or has no file name |
| `Catalog.TitlePageUrl` | app.js:22 | the title page URL gives back the manga id when its fixed prefix is removed |
| `Catalog.MangaQueryUrl` | app.js:75 | the list URL gives back the query parameters when its fixed prefix and `&includes[]=cover_art` suffix are removed |
| `Catalog.ChapterFeedUrl` | app.js:84 | the feed URL (500 English chapters, newest first) gives back the manga id when its fixed parts are removed |
| `Catalog.AtHomeUrl` | app.js:93 | the page-server URL is on the API host and gives back the chapter id |
| `Catalog.EndpointUrlsInjective` | app.js:74-97 | different ids or parameters always give different endpoint URLs |
| `Catalog.PageUrl` | app.js:260 | a page URL gives back the file name when the `baseUrl/data/hash/` prefix is removed |
| `Catalog.PageUrls` | app.js:258-265 | one URL per file, same length and order, element i is `baseUrl/data/hash/file_i` |
| `Catalog.PageUrlsExample` | app.js:260 | server `https://x`, hash `abc` and files `1.png`, `2.png` give the two expected URLs in order |
| `Reader.PageFiles` | app.js:251 | the page files are `data` when present (even empty), else `dataSaver` when present, else none |
| `Reader.EmptyDataHidesDataSaver` | app.js:251 | an empty `data` list yields no pages even when `dataSaver` has files, since an empty array is truthy |
| `Reader.PageAlt` | app.js:261 | the alt text is `Page ` followed by the digits of the one-based page number |
| `Reader.AsNumber` | app.js:281-292 | in the chapter guards a `null` index compares as 0 and a number as itself |
| `Reader.ShownSourcesArePageUrls` | app.js:258-265 | the `src` list of the rendered images is exactly the page URL list |
| `Reader.RenderPages` | app.js:258-265 | one image per file in order, with the page URL as `src` and `Page k+1` as `alt` |
| `Reader.ReaderSession.constructor` | app.js:65-71 | the session starts with no manga, no index, no chapters, no pages and no base URL |
| `Reader.ReaderSession.LoadChapterByIndex` | app.js:236-279 | a failed lookup only shows an error. Otherwise `baseUrl` and `pages` are replaced, with pages taken from `data`, then `dataSaver`, then empty. With no pages, only a message is shown. With pages: the images are shown, prev is disabled iff index <= 0, next iff index >= len-1, and the resume entry gets page 1 |
| `Reader.ReaderSession.OpenForManga` | app.js:210-234 | the modal opens. A thrown fetch or an empty chapter list leaves the manga, chapters, index and pages unchanged and shows a message. Otherwise the list is installed, index 0 is selected and loaded |
| `Reader.ReaderSession.PrevChapter` | app.js:281-286 | from an index above 0, the index drops by one and that chapter is loaded; otherwise nothing changes; the session invariant (index within the list) is kept |
| `Reader.ReaderSession.NextChapter` | app.js:287-292 | below the last index, the index rises by one and that chapter is loaded; otherwise nothing changes; the index never wraps |
| `Reader.ReaderSession.ClickPrev` | app.js:267 | a click on a disabled previous button changes nothing; otherwise the previous-chapter handler runs |
| `Reader.ReaderSession.ClickNext` | app.js:268 | a click on a disabled next button changes nothing; otherwise the next-chapter handler runs |
| `Reader.ReaderSession.Close` | app.js:293 | closing only hides the modal; the session, buttons, pages and storage are unchanged |
| `Reader.ReaderSession.KeyDown` | app.js:296-302 | while the modal is shown, left and right arrows click the chapter buttons and Escape closes; otherwise nothing changes |
| `Storage.Stringify` | app.js:333 | what is written parses back to the same value |
| `Storage.ReadOr` | app.js:306-308 | a stored value that parses is returned; a missing or corrupt item reads as the empty default |
| `Storage.Toggled` | app.js:327-332 | a toggle removes one entry when the id is present and adds one when it is absent |
| `Storage.ToggledAbsent` | app.js:331 | an absent id puts a new entry with no last chapter in front of the old list |
| `Storage.ToggledPresent` | app.js:327-330 | a present id removes exactly the first entry with it, and the other entries keep their order |
| `Storage.ToggleTwiceAbsent` | app.js:327-332 | toggling an absent id twice restores the original list |
| `Storage.ToggleTwicePresent` | app.js:327-332 | on a duplicate-free list, toggling a present id twice keeps the other entries in order and moves the entry to the front with no last chapter |
| `Storage.ToggleKeepsDuplicateFree` | app.js:327-332 | a list without duplicate ids stays without duplicates |
| `Storage.ToggleFlipsMembership` | app.js:327-332 | on a duplicate-free list the toggled id's membership flips and every other id's is unchanged |
| `Storage.WithResume` | app.js:342 | the manga's key holds the new entry; every other key keeps its presence and value |
| `Storage.ResumeAfterCorruptBlob` | app.js:339-342 | after a corrupt resume item, only the new entry is kept |
| `Storage.LocalStore.LoadBookmarks` | app.js:305-311 | the stored list, or the empty list when the item is missing or corrupt |
| `Storage.LocalStore.ToggleBookmark` | app.js:323-335 | the stored list becomes the toggle of the list read back (empty if missing or corrupt) |
| `Storage.LocalStore.SaveResume` | app.js:338-344 | the stored map becomes the map read back (empty if missing or corrupt) with the manga's entry set to chapter, page and time |
| `Featured.NextFeatured` | app.js:114 | the next slide is in range, one further along, and the first after the last |
| `Featured.AdvancedNoWrap` | app.js:114 | ticks before the last slide advance one slide each |
| `Featured.AdvancedCompose` | app.js:114 | a ticks then b ticks equal a+b ticks |
| `Featured.AdvancedFullCycle` | app.js:114 | after n ticks over n slides the carousel is back at its start |
| `Featured.AdvancedReachesEvery` | app.js:114 | every slide is reached from any slide in fewer than n ticks |
| `Featured.Carousel.constructor` | app.js:63-64 | the list starts empty with index 0 and no timer; the hero shows the page's own text |
| `Featured.Carousel.RenderFeatured` | app.js:119-123 | a record with attributes gets its cut description as the hero summary; a record without attributes throws before the summary is written, which is reported and leaves the text unchanged |
| `Featured.Carousel.LoadFeatured` | app.js:106-118 | a thrown fetch changes nothing. An empty list is stored and the index is kept. A non-empty list is stored, the index reset to 0 and slide 0 rendered; the timer starts exactly when that render does not throw |
| `Featured.Carousel.Tick` | app.js:114 | one timer firing moves the index to the next slide with wrap-around, keeping it in range, then renders that slide |
| `Featured.Carousel.SelectDot` | app.js:136 | clicking dot j makes j the index and renders slide j; dots exist only after a load whose first render succeeded |

## Left out

- The network calls and their status handling (`fetchManga`, `fetchMangaList`, `fetchChapters`, `getAtHome`): their decoded results are parameters. The URLs they request are modelled.
- The listing sections (`loadPopularList`, `loadPopularToday`, `loadLatestGrid`, `loadRanking`) and search (`doSearch`, `encodeURIComponent`, `alert`): they are fetches plus markup.
- All DOM work: markup, the loading indicators, `renderDots`/`updateDots`, `renderBookmarks`, `scrollTop`, and the hero title's `toUpperCase` and meta line. Case mapping of strings is not modelled.
- `localStorage` and JSON text: an item is a blob that parses as a value of the expected shape or not at all. Well-formed JSON of another shape (`null`, a number, a string, a boolean) is not modelled. With `null` both `toggleBookmark` and `saveResume` throw. With another primitive `toggleBookmark` throws at `findIndex`, while `saveResume` (in a non-strict script) silently drops the assignment at app.js:342 and writes the primitive back.
- Object key order: a language map is held in enumeration order. The rule that integer-like keys come first is not modelled, since language codes are not integer-like.
- String length: JavaScript counts UTF-16 code units and the model counts characters, so the 320-character cut can differ on text outside the Basic Multilingual Plane.
- The initial `disabled` state of the chapter buttons is set in the page's HTML, which is not part of this model; the session assumes both buttons start enabled.
- Timers: `setInterval` is modelled as the `Carousel.Tick` method and `Date.now()` as a parameter. The login form's `setTimeout` is left out.
- Overlapping asynchronous chapter loads and the parallel start-up fetches (`Promise.all`): each handler runs to completion before the next begins.
- The theme toggle, the mock login modal and `window.open`: UI with no logic to state.
- `Featured.Carousel.LoadFeatured`: requires that no timer is running yet, because the script calls it once at start-up. A second call is not modelled.
- `Featured.NextFeatured`: requires a non-negative index, since the carousel never holds a negative one; on negative operands the model's `%` would differ from JavaScript's.
- The hero title, meta line, rating, cover and button handlers written by `renderFeatured` are not modelled; only its summary and whether it throws are. A tag or status value of an unexpected type, which could also make it throw, is not modelled.
