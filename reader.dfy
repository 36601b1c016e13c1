/** The reader: the `currentReader` session object, the chapter load that rebuilds its
    pages, the prev/next chapter handlers with their disabled buttons, the keyboard
    aliases and closing the modal. Results of the network calls are parameters: a chapter
    list fetch that throws is `None`, and so is a page-server lookup that throws. */
module Reader {
  import opened Util
  import opened Catalog
  import opened Storage

  /** A chapter record of the feed; only its id is used by the reader. */
  datatype Chapter = Chapter(id: string)

  /** The page-server answer `{ baseUrl, chapter: { hash, data, dataSaver } }`. */
  datatype AtHome = AtHome(baseUrl: string, hash: string, data: Option<seq<string>>, dataSaver: Option<seq<string>>)

  /** `at.chapter.data || at.chapter.dataSaver || []`. Every array is truthy, so an empty
      `data` list is kept and `dataSaver` is used only when `data` is missing. */
  function PageFiles(at: AtHome): (r: seq<string>)
    ensures at.data.Some? ==> r == at.data.value
    ensures at.data.None? && at.dataSaver.Some? ==> r == at.dataSaver.value
    ensures at.data.None? && at.dataSaver.None? ==> r == []
  {
    at.data.GetOr(at.dataSaver.GetOr([]))
  }

  /** An empty `data` list hides the `dataSaver` files: the chapter shows no pages even
      when the reduced-size copies exist. */
  lemma EmptyDataHidesDataSaver(at: AtHome)
    requires at.data == Some([])
    ensures PageFiles(at) == []
  {
  }

  /** One rendered page image: its `src` and its `alt` text. */
  datatype PageImage = PageImage(src: string, alt: string)

  /** The `alt` text of the page at zero-based position `k`. */
  function PageAlt(k: nat): (r: string)
    ensures Unwrap(r, "Page ", "") == Some(NatToString(k + 1))
    ensures DecimalValue(r[5..]) == k + 1
  {
    UnwrapPrefix("Page ", NatToString(k + 1));
    assert ("Page " + NatToString(k + 1))[5..] == NatToString(k + 1);
    "Page " + NatToString(k + 1)
  }

  /** `imgs` shows `files` in order: image k is file k under the server and hash. */
  predicate PagesShown(imgs: seq<PageImage>, baseUrl: string, hash: string, files: seq<string>) {
    |imgs| == |files| &&
    forall k :: 0 <= k < |imgs| ==> imgs[k] == PageImage(PageUrl(baseUrl, hash, files[k]), PageAlt(k))
  }

  function Sources(imgs: seq<PageImage>): (r: seq<string>)
    ensures |r| == |imgs| && forall k :: 0 <= k < |imgs| ==> r[k] == imgs[k].src
  {
    seq(|imgs|, k requires 0 <= k < |imgs| => imgs[k].src)
  }

  /** The `src` attributes of shown pages are exactly the page URL list of the files. */
  lemma ShownSourcesArePageUrls(imgs: seq<PageImage>, baseUrl: string, hash: string, files: seq<string>)
    requires PagesShown(imgs, baseUrl, hash, files)
    ensures Sources(imgs) == PageUrls(baseUrl, hash, files)
  {
    var s, u := Sources(imgs), PageUrls(baseUrl, hash, files);
    forall k | 0 <= k < |s| ensures s[k] == u[k] {
      assert s[k] == imgs[k].src;
    }
  }

  /** The `forEach` that appends one `<img>` per page file. */
  method RenderPages(baseUrl: string, hash: string, files: seq<string>) returns (imgs: seq<PageImage>)
    ensures PagesShown(imgs, baseUrl, hash, files)
  {
    imgs := [];
    var i := 0;
    while i < |files|
      invariant 0 <= i <= |files|
      invariant PagesShown(imgs, baseUrl, hash, files[..i])
    {
      imgs := imgs + [PageImage(PageUrl(baseUrl, hash, files[i]), PageAlt(i))];
      i := i + 1;
    }
    assert files[..i] == files;
  }

  /** What the `readerPages` element holds. */
  datatype ReaderView = Blank | Notice(text: string) | Images(pages: seq<PageImage>)

  const NO_CHAPTERS := "No chapters available (EN)"
  const READER_ERROR := "Reader error"
  const NO_PAGES := "No pages found for this chapter."
  const LOAD_FAILED := "Failed loading chapter pages (CORS or missing data)"

  /** What a relational operator makes of `currentReader.chapterIndex`: `null` counts as 0. */
  function AsNumber(x: Option<int>): (r: int)
    ensures x.None? ==> r == 0
    ensures x.Some? ==> r == x.value
  {
    match x
    case None => 0
    case Some(v) => v
  }

  /** `currentReader` together with the parts of the page the reader drives: whether the
      modal is shown, the two chapter buttons' `disabled` flags and the page area. */
  class ReaderSession {
    var mangaId: Option<string>
    var chapterIndex: Option<int>
    var chapters: seq<Chapter>
    var pages: seq<string>
    var baseUrl: Option<string>
    var modalOpen: bool
    var prevDisabled: bool
    var nextDisabled: bool
    var view: ReaderView
    /** The browser storage the resume record is written to. */
    const store: LocalStore

    /** Either nothing has been opened yet, or a non-empty chapter list is installed with
        a manga id and an index inside it. */
    ghost predicate Valid()
      reads this
    {
      || (chapters == [] && mangaId.None? && chapterIndex.None?)
      || (chapters != [] && mangaId.Some? && chapterIndex.Some? && 0 <= chapterIndex.value < |chapters|)
    }

    /** The initial `currentReader`: no manga, no index, no chapters, no pages. */
    constructor (store: LocalStore)
      ensures this.store == store && Valid()
      ensures mangaId.None? && chapterIndex.None? && chapters == [] && pages == [] && baseUrl.None?
      ensures !modalOpen && !prevDisabled && !nextDisabled && view == Blank
    {
      this.store := store;
      mangaId, chapterIndex, chapters, pages, baseUrl := None, None, [], [], None;
      modalOpen, prevDisabled, nextDisabled, view := false, false, false, Blank;
    }

    /** The effect of `loadChapterByIndex(index)` given the page-server answer `at`:
        a failed lookup (or an index outside the list) changes nothing but the message;
        otherwise `baseUrl` and `pages` are replaced, and only when there are pages are the
        images shown, the buttons' flags set from the index and the resume entry written
        (always with page index 1). */
    twostate predicate LoadOutcome(index: int, at: Option<AtHome>, now: int)
      reads this, store
    {
      if at.None? || !(0 <= index < |chapters|) then
        && view == Notice(LOAD_FAILED)
        && pages == old(pages) && baseUrl == old(baseUrl)
        && prevDisabled == old(prevDisabled) && nextDisabled == old(nextDisabled)
        && store.resumeItem == old(store.resumeItem)
      else
        && baseUrl == Some(at.value.baseUrl)
        && pages == PageFiles(at.value)
        && if pages == [] then
             && view == Notice(NO_PAGES)
             && prevDisabled == old(prevDisabled) && nextDisabled == old(nextDisabled)
             && store.resumeItem == old(store.resumeItem)
           else
             && view.Images? && PagesShown(view.pages, at.value.baseUrl, at.value.hash, pages)
             && prevDisabled == (index <= 0)
             && nextDisabled == (index >= |chapters| - 1)
             && mangaId.Some?
             && store.resumeItem == Some(Stringify(WithResume(ReadOr(old(store.resumeItem), map[]),
                                                              mangaId.value, Resume(chapters[index].id, 1, now))))
    }

    /** `loadChapterByIndex(index)`. */
    method LoadChapterByIndex(index: int, at: Option<AtHome>, now: int)
      requires Valid()
      modifies this`pages, this`baseUrl, this`prevDisabled, this`nextDisabled, this`view, store`resumeItem
      ensures Valid()
      ensures LoadOutcome(index, at, now)
    {
      view := Blank;
      if !(0 <= index < |chapters|) || at.None? {
        view := Notice(LOAD_FAILED);
        return;
      }
      var chapterId := chapters[index].id;
      var a := at.value;
      baseUrl := Some(a.baseUrl);
      pages := PageFiles(a);
      if |pages| == 0 {
        view := Notice(NO_PAGES);
        return;
      }
      var imgs := RenderPages(a.baseUrl, a.hash, pages);
      view := Images(imgs);
      prevDisabled := index <= 0;
      nextDisabled := index >= |chapters| - 1;
      store.SaveResume(mangaId.value, chapterId, 1, now);
    }

    /** `openReaderForManga(mangaId)` given the chapter fetch result `fetched`: the modal is
        shown; a thrown fetch or an empty list leaves the session as it was and shows a
        message; otherwise the list is installed, the first (newest) chapter selected and
        loaded. */
    method OpenForManga(id: string, fetched: Option<seq<Chapter>>, at: Option<AtHome>, now: int)
      requires Valid()
      modifies this, store`resumeItem
      ensures Valid() && modalOpen
      ensures fetched.None? || fetched == Some([]) ==>
                && view == (if fetched.None? then Notice(READER_ERROR) else Notice(NO_CHAPTERS))
                && mangaId == old(mangaId) && chapters == old(chapters) && chapterIndex == old(chapterIndex)
                && pages == old(pages) && baseUrl == old(baseUrl)
                && prevDisabled == old(prevDisabled) && nextDisabled == old(nextDisabled)
                && store.resumeItem == old(store.resumeItem)
      ensures fetched.Some? && fetched.value != [] ==>
                && mangaId == Some(id) && chapters == fetched.value && chapterIndex == Some(0)
                && LoadOutcome(0, at, now)
    {
      modalOpen := true;
      view := Blank;
      if fetched.None? {
        view := Notice(READER_ERROR);
        return;
      }
      var list := fetched.value;
      if |list| == 0 {
        view := Notice(NO_CHAPTERS);
        return;
      }
      mangaId := Some(id);
      chapters := list;
      chapterIndex := Some(0);
      LoadChapterByIndex(0, at, now);
    }

    /** Nothing in the session, the page or the storage changed. */
    twostate predicate Untouched()
      reads this, store
    {
      unchanged(this) && unchanged(store)
    }

    /** The index moved by `delta` (from the numeric value of the old index) and the chapter
        there was loaded; the manga, its chapter list and the modal are as they were. */
    twostate predicate Stepped(delta: int, at: Option<AtHome>, now: int)
      reads this, store
    {
      && chapterIndex == Some(AsNumber(old(chapterIndex)) + delta)
      && mangaId == old(mangaId) && chapters == old(chapters) && modalOpen == old(modalOpen)
      && store.bookmarkItem == old(store.bookmarkItem)
      && LoadOutcome(AsNumber(old(chapterIndex)) + delta, at, now)
    }

    /** The previous-chapter handler: step back only from an index above 0. */
    twostate predicate PrevOutcome(at: Option<AtHome>, now: int)
      reads this, store
    {
      if AsNumber(old(chapterIndex)) > 0 then Stepped(-1, at, now) else Untouched()
    }

    /** The next-chapter handler: step forward only from an index below the last. */
    twostate predicate NextOutcome(at: Option<AtHome>, now: int)
      reads this, store
    {
      if AsNumber(old(chapterIndex)) < |old(chapters)| - 1 then Stepped(1, at, now) else Untouched()
    }

    /** The click listener of the previous-chapter button. */
    method PrevChapter(at: Option<AtHome>, now: int)
      requires Valid()
      modifies this, store`resumeItem
      ensures Valid() && PrevOutcome(at, now)
    {
      if AsNumber(chapterIndex) > 0 {
        chapterIndex := Some(AsNumber(chapterIndex) - 1);
        LoadChapterByIndex(chapterIndex.value, at, now);
      }
    }

    /** The click listener of the next-chapter button. */
    method NextChapter(at: Option<AtHome>, now: int)
      requires Valid()
      modifies this, store`resumeItem
      ensures Valid() && NextOutcome(at, now)
    {
      if AsNumber(chapterIndex) < |chapters| - 1 {
        chapterIndex := Some(AsNumber(chapterIndex) + 1);
        LoadChapterByIndex(chapterIndex.value, at, now);
      }
    }

    /** A click on the previous-chapter button: a disabled button dispatches nothing. */
    twostate predicate PrevClicked(at: Option<AtHome>, now: int)
      reads this, store
    {
      if old(prevDisabled) then Untouched() else PrevOutcome(at, now)
    }

    twostate predicate NextClicked(at: Option<AtHome>, now: int)
      reads this, store
    {
      if old(nextDisabled) then Untouched() else NextOutcome(at, now)
    }

    method ClickPrev(at: Option<AtHome>, now: int)
      requires Valid()
      modifies this, store`resumeItem
      ensures Valid() && PrevClicked(at, now)
    {
      if !prevDisabled {
        PrevChapter(at, now);
      }
    }

    method ClickNext(at: Option<AtHome>, now: int)
      requires Valid()
      modifies this, store`resumeItem
      ensures Valid() && NextClicked(at, now)
    {
      if !nextDisabled {
        NextChapter(at, now);
      }
    }

    /** Only the modal was hidden: the session keeps its manga, chapters, index and pages. */
    twostate predicate ClosedOnly()
      reads this, store
    {
      && !modalOpen
      && mangaId == old(mangaId) && chapterIndex == old(chapterIndex) && chapters == old(chapters)
      && pages == old(pages) && baseUrl == old(baseUrl)
      && prevDisabled == old(prevDisabled) && nextDisabled == old(nextDisabled) && view == old(view)
      && unchanged(store)
    }

    /** The close button's listener: `showReaderModal(false)` and nothing else. */
    method Close()
      requires Valid()
      modifies this`modalOpen
      ensures Valid() && ClosedOnly()
    {
      modalOpen := false;
    }

    /** The document's `keydown` listener: while the modal is shown, the left and right
        arrows click the chapter buttons and Escape clicks the close button. */
    method KeyDown(key: string, at: Option<AtHome>, now: int)
      requires Valid()
      modifies this, store`resumeItem
      ensures Valid()
      ensures !old(modalOpen) || key !in {"ArrowLeft", "ArrowRight", "Escape"} ==> Untouched()
      ensures old(modalOpen) && key == "ArrowLeft" ==> PrevClicked(at, now)
      ensures old(modalOpen) && key == "ArrowRight" ==> NextClicked(at, now)
      ensures old(modalOpen) && key == "Escape" ==> ClosedOnly()
    {
      if modalOpen {
        if key == "ArrowLeft" {
          ClickPrev(at, now);
        } else if key == "ArrowRight" {
          ClickNext(at, now);
        } else if key == "Escape" {
          Close();
        }
      }
    }
  }

  /** The two-chapter walk through: open "m1" with chapters c2, c1 (newest first), go to
      the next chapter and back again. */
  method EndToEndScenario()
  {
    var store := new LocalStore(None, None);
    var reader := new ReaderSession(store);
    var at := Some(AtHome("https://x", "abc", Some(["1.png", "2.png"]), None));
    reader.OpenForManga("m1", Some([Chapter("c2"), Chapter("c1")]), at, 100);
    assert reader.chapterIndex == Some(0) && reader.chapters[0].id == "c2";
    assert reader.prevDisabled && !reader.nextDisabled;

    reader.ClickNext(at, 200);
    assert reader.chapterIndex == Some(1) && reader.chapters[1].id == "c1";
    assert reader.nextDisabled && !reader.prevDisabled;
    assert ReadOr(store.resumeItem, map[])["m1"] == Resume("c1", 1, 200);

    reader.ClickNext(at, 300);
    assert reader.chapterIndex == Some(1);

    reader.ClickPrev(at, 400);
    assert reader.chapterIndex == Some(0) && reader.prevDisabled && !reader.nextDisabled;
    assert ReadOr(store.resumeItem, map[])["m1"] == Resume("c2", 1, 400);

    reader.Close();
    assert !reader.modalOpen && reader.chapterIndex == Some(0) && reader.mangaId == Some("m1");
  }

  /** A failed load leaves the buttons as the previous load set them: after the first
      chapter loaded, a failed move to the second keeps "previous" disabled although the
      index is now 1, so the previous chapter cannot be reached until a load succeeds. */
  method StaleButtonsScenario()
  {
    var store := new LocalStore(None, None);
    var reader := new ReaderSession(store);
    var good := Some(AtHome("https://x", "abc", Some(["1.png"]), None));
    reader.OpenForManga("m1", Some([Chapter("c3"), Chapter("c2"), Chapter("c1")]), good, 1);
    assert reader.prevDisabled && !reader.nextDisabled;

    reader.ClickNext(None, 2);
    assert reader.chapterIndex == Some(1) && reader.view == Notice(LOAD_FAILED);
    assert reader.prevDisabled;

    reader.ClickPrev(good, 3);
    assert reader.chapterIndex == Some(1);
  }
}
