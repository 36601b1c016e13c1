/** The two entries the front end keeps in the browser's local storage: the bookmark
    list under "mv_bookmarks" and the resume map under "mv_resume". The stored text is
    abstracted to a blob that either parses as JSON of the expected shape or does not. */
module Storage {
  import opened Util

  const BOOKMARKS_KEY := "mv_bookmarks"
  const RESUME_KEY := "mv_resume"

  /** The text stored under a key: the JSON of a value, or text that does not parse. */
  datatype Blob<T> = Json(value: T) | Garbled(text: string)

  /** `JSON.parse(text)`, with a thrown exception as `None`. */
  function Parse<T>(b: Blob<T>): Option<T> {
    match b
    case Json(v) => Some(v)
    case Garbled(_) => None
  }

  /** `JSON.stringify(v)`: what it writes parses back to the same value. */
  function Stringify<T>(v: T): (b: Blob<T>)
    ensures Parse(b) == Some(v)
  {
    Json(v)
  }

  /** `let x = empty; try { x = JSON.parse(getItem(key) || emptyText) } catch { x = empty }`:
      a missing item parses as the empty default, and a corrupt one is caught as it. */
  function ReadOr<T>(item: Option<Blob<T>>, empty: T): (r: T)
    ensures item.Some? && item.value.Json? ==> r == item.value.value
    ensures item.None? || item.value.Garbled? ==> r == empty
  {
    var raw := item.GetOr(Stringify(empty));
    match Parse(raw)
    case Some(v) => v
    case None => empty
  }

  /** A stored bookmark; `lastChapter` is `null` when it is created. */
  datatype Bookmark = Bookmark(id: string, title: string, cover: string, lastChapter: Option<string>)

  /** Some entry of `list` has this id. */
  predicate HasId(list: seq<Bookmark>, id: string) {
    exists i :: 0 <= i < |list| && list[i].id == id
  }

  /** `k` is the first entry with this id: the one `findIndex` returns. */
  predicate FirstWithId(list: seq<Bookmark>, id: string, k: int) {
    0 <= k < |list| && list[k].id == id && forall j :: 0 <= j < k ==> list[j].id != id
  }

  /** No two entries share an id. */
  predicate DuplicateFree(list: seq<Bookmark>) {
    forall i, j :: 0 <= i < j < |list| ==> list[i].id != list[j].id
  }

  /** The `findIndex` callback `x => x.id === id`. */
  function IdIs(id: string): Bookmark -> bool {
    (b: Bookmark) => b.id == id
  }

  /** What `findIndex` with that callback finds: the first entry with the id, or -1 when
      there is none. */
  lemma FoundId(list: seq<Bookmark>, id: string)
    ensures FindIndex(list, IdIs(id)) >= 0 ==> FirstWithId(list, id, FindIndex(list, IdIs(id)))
    ensures FindIndex(list, IdIs(id)) < 0 ==> !HasId(list, id)
  {
    var k := FindIndex(list, IdIs(id));
    if k < 0 {
      forall i | 0 <= i < |list| ensures list[i].id != id {
        assert !IdIs(id)(list[i]);
      }
    }
  }

  /** Only one index is the first with a given id. */
  lemma FirstWithIdUnique(list: seq<Bookmark>, id: string, k: int)
    requires FirstWithId(list, id, k)
    ensures forall k' :: FirstWithId(list, id, k') ==> k' == k
  {
  }

  /** The list `toggleBookmark` stores: the first entry with the id taken out, or, when no
      entry has the id, a fresh entry put in front. One entry fewer or one more. */
  function Toggled(list: seq<Bookmark>, id: string, title: string, cover: string): (r: seq<Bookmark>)
    ensures |r| == if HasId(list, id) then |list| - 1 else |list| + 1
  {
    FoundId(list, id);
    var k := FindIndex(list, IdIs(id));
    if k >= 0 then list[..k] + list[k + 1..] else [Bookmark(id, title, cover, None)] + list
  }

  /** An id no entry has is added in front, with no last chapter. */
  lemma ToggledAbsent(list: seq<Bookmark>, id: string, title: string, cover: string)
    requires !HasId(list, id)
    ensures Toggled(list, id, title, cover) == [Bookmark(id, title, cover, None)] + list
  {
    FoundId(list, id);
  }

  /** A present id loses exactly its first entry; the others keep their order. */
  lemma ToggledPresent(list: seq<Bookmark>, id: string, title: string, cover: string, k: int)
    requires FirstWithId(list, id, k)
    ensures Toggled(list, id, title, cover) == list[..k] + list[k + 1..]
  {
    FoundId(list, id);
    FirstWithIdUnique(list, id, k);
  }

  lemma FirstWithIdExists(list: seq<Bookmark>, id: string) returns (k: int)
    requires HasId(list, id)
    ensures FirstWithId(list, id, k)
  {
    FoundId(list, id);
    k := FindIndex(list, IdIs(id));
  }

  /** Removing position `k` shifts every later entry down by one. */
  lemma RemovedAt(list: seq<Bookmark>, k: int)
    requires 0 <= k < |list|
    ensures |list[..k] + list[k + 1..]| == |list| - 1
    ensures forall i :: 0 <= i < k ==> (list[..k] + list[k + 1..])[i] == list[i]
    ensures forall i :: k < i < |list| ==> (list[..k] + list[k + 1..])[i - 1] == list[i]
  {
  }

  /** Toggling an absent id twice gives back the original list, whatever title and cover
      the second toggle carries. */
  lemma ToggleTwiceAbsent(list: seq<Bookmark>, id: string, title: string, cover: string, title': string, cover': string)
    requires !HasId(list, id)
    ensures Toggled(Toggled(list, id, title, cover), id, title', cover') == list
  {
    ToggledAbsent(list, id, title, cover);
    var once := Toggled(list, id, title, cover);
    assert FirstWithId(once, id, 0);
    ToggledPresent(once, id, title', cover', 0);
    assert once[1..] == list;
  }

  /** Toggling a present id twice keeps every other entry in its order, but the entry
      comes back in front, with the second toggle's title and cover and no last chapter. */
  lemma ToggleTwicePresent(list: seq<Bookmark>, id: string, k: int, title: string, cover: string)
    requires DuplicateFree(list) && FirstWithId(list, id, k)
    ensures Toggled(Toggled(list, id, title, cover), id, title, cover)
              == [Bookmark(id, title, cover, None)] + list[..k] + list[k + 1..]
  {
    ToggledPresent(list, id, title, cover, k);
    var once := Toggled(list, id, title, cover);
    RemovedAt(list, k);
    assert !HasId(once, id) by {
      forall i | 0 <= i < |once| ensures once[i].id != id {
        if i < k {
          assert once[i] == list[i];
        } else {
          assert once[i] == list[i + 1];
        }
      }
    }
    ToggledAbsent(once, id, title, cover);
  }

  /** Taking one entry out of a duplicate-free list leaves it duplicate-free. */
  lemma RemovalKeepsDuplicateFree(list: seq<Bookmark>, k: int)
    requires DuplicateFree(list) && 0 <= k < |list|
    ensures DuplicateFree(list[..k] + list[k + 1..])
  {
    var r := list[..k] + list[k + 1..];
    RemovedAt(list, k);
    forall i, j | 0 <= i < j < |r| ensures r[i].id != r[j].id {
      var i0 := if i < k then i else i + 1;
      var j0 := if j < k then j else j + 1;
      assert r[i] == list[i0] && r[j] == list[j0];
    }
  }

  /** Putting an entry with a new id in front of a duplicate-free list keeps it so. */
  lemma PrependKeepsDuplicateFree(b: Bookmark, list: seq<Bookmark>)
    requires DuplicateFree(list) && !HasId(list, b.id)
    ensures DuplicateFree([b] + list)
  {
    var r := [b] + list;
    forall i, j | 0 <= i < j < |r| ensures r[i].id != r[j].id {
      assert r[j] == list[j - 1];
      if i > 0 {
        assert r[i] == list[i - 1];
      }
    }
  }

  /** A duplicate-free list stays duplicate-free. */
  lemma ToggleKeepsDuplicateFree(list: seq<Bookmark>, id: string, title: string, cover: string)
    requires DuplicateFree(list)
    ensures DuplicateFree(Toggled(list, id, title, cover))
  {
    if HasId(list, id) {
      var k := FirstWithIdExists(list, id);
      ToggledPresent(list, id, title, cover, k);
      RemovalKeepsDuplicateFree(list, k);
    } else {
      ToggledAbsent(list, id, title, cover);
      PrependKeepsDuplicateFree(Bookmark(id, title, cover, None), list);
    }
  }

  /** Removing position `k` from a duplicate-free list drops exactly that entry's id. */
  lemma RemovedIds(list: seq<Bookmark>, k: int, other: string)
    requires DuplicateFree(list) && 0 <= k < |list|
    ensures HasId(list[..k] + list[k + 1..], other) <==> other != list[k].id && HasId(list, other)
  {
    var r := list[..k] + list[k + 1..];
    RemovedAt(list, k);
    if HasId(r, other) {
      var i :| 0 <= i < |r| && r[i].id == other;
      var i0 := if i < k then i else i + 1;
      assert r[i] == list[i0];
    }
    if other != list[k].id && HasId(list, other) {
      var i :| 0 <= i < |list| && list[i].id == other;
      var i1 := if i < k then i else i - 1;
      assert r[i1] == list[i];
    }
  }

  /** Putting an entry in front adds its id and keeps every other. */
  lemma PrependedIds(b: Bookmark, list: seq<Bookmark>, other: string)
    ensures HasId([b] + list, other) <==> other == b.id || HasId(list, other)
  {
    var r := [b] + list;
    assert r[0] == b;
    if HasId(list, other) {
      var i :| 0 <= i < |list| && list[i].id == other;
      assert r[i + 1] == list[i];
    }
    if HasId(r, other) && other != b.id {
      var i :| 0 <= i < |r| && r[i].id == other;
      assert r[i] == list[i - 1];
    }
  }

  /** On a duplicate-free list a toggle flips the membership of its id and leaves the
      membership of every other id as it was. */
  lemma ToggleFlipsMembership(list: seq<Bookmark>, id: string, title: string, cover: string, other: string)
    requires DuplicateFree(list)
    ensures HasId(Toggled(list, id, title, cover), id) <==> !HasId(list, id)
    ensures other != id ==> (HasId(Toggled(list, id, title, cover), other) <==> HasId(list, other))
  {
    if HasId(list, id) {
      var k := FirstWithIdExists(list, id);
      ToggledPresent(list, id, title, cover, k);
      RemovedIds(list, k, id);
      RemovedIds(list, k, other);
    } else {
      ToggledAbsent(list, id, title, cover);
      PrependedIds(Bookmark(id, title, cover, None), list, id);
      PrependedIds(Bookmark(id, title, cover, None), list, other);
    }
  }

  /** One resume record: the chapter last loaded, the page index and when. */
  datatype Resume = Resume(chapterId: string, pageIndex: int, updatedAt: int)

  /** `obj[mangaId] = entry`: that key now holds the entry and every other key keeps its
      presence and its value. */
  function WithResume(m: map<string, Resume>, mangaId: string, entry: Resume): (r: map<string, Resume>)
    ensures mangaId in r && r[mangaId] == entry
    ensures forall k :: k != mangaId ==> (k in r <==> k in m)
    ensures forall k :: k != mangaId && k in m ==> r[k] == m[k]
  {
    m[mangaId := entry]
  }

  /** After a corrupt resume blob, saving keeps nothing but the one entry. */
  lemma ResumeAfterCorruptBlob(text: string, mangaId: string, entry: Resume)
    ensures WithResume(ReadOr(Some(Garbled(text)), map[]), mangaId, entry) == map[mangaId := entry]
  {
  }

  /** The browser's local storage, reduced to the two items the front end uses
      (`None` when the key was never written). */
  class LocalStore {
    var bookmarkItem: Option<Blob<seq<Bookmark>>>
    var resumeItem: Option<Blob<map<string, Resume>>>

    constructor (bookmarks: Option<Blob<seq<Bookmark>>>, resume: Option<Blob<map<string, Resume>>>)
      ensures bookmarkItem == bookmarks && resumeItem == resume
    {
      bookmarkItem := bookmarks;
      resumeItem := resume;
    }

    /** `loadBookmarks()`: the stored list, or the empty list when the item is missing or
        does not parse. */
    method LoadBookmarks() returns (list: seq<Bookmark>)
      ensures bookmarkItem.Some? && bookmarkItem.value.Json? ==> list == bookmarkItem.value.value
      ensures bookmarkItem.None? || bookmarkItem.value.Garbled? ==> list == []
    {
      var raw := if bookmarkItem.Some? then bookmarkItem.value else Stringify([]);
      list := [];
      match Parse(raw) {
        case Some(v) => list := v;
        case None =>
      }
    }

    /** `toggleBookmark(item)`: re-read the list, remove the entry with the item's id with
        `splice` or `unshift` a new one, and write the list back. */
    method ToggleBookmark(id: string, title: string, cover: string)
      modifies this`bookmarkItem
      ensures bookmarkItem == Some(Stringify(Toggled(ReadOr(old(bookmarkItem), []), id, title, cover)))
    {
      var arr := LoadBookmarks();
      ghost var list := arr;
      assert list == ReadOr(bookmarkItem, []);
      var idx := FindIndex(arr, IdIs(id));
      if idx >= 0 {
        arr := arr[..idx] + arr[idx + 1..];
      } else {
        arr := [Bookmark(id, title, cover, None)] + arr;
      }
      assert arr == Toggled(list, id, title, cover);
      bookmarkItem := Some(Stringify(arr));
    }

    /** `saveResume(mangaId, chapterId, pageIndex)`, with `Date.now()` passed in as `now`. */
    method SaveResume(mangaId: string, chapterId: string, pageIndex: int, now: int)
      modifies this`resumeItem
      ensures resumeItem == Some(Stringify(WithResume(ReadOr(old(resumeItem), map[]), mangaId, Resume(chapterId, pageIndex, now))))
    {
      var obj: map<string, Resume> := map[];
      if resumeItem.Some? && resumeItem.value.Json? {
        obj := resumeItem.value.value;
      }
      obj := obj[mangaId := Resume(chapterId, pageIndex, now)];
      resumeItem := Some(Stringify(obj));
    }
  }
}
