/** The featured carousel: the list of featured manga and `currentFeaturedIndex`, which a
    six-second timer advances with wrap-around and the dots set directly. */
module Featured {
  import opened Util
  import opened Catalog

  /** `(i + 1) % n`: the next slide, wrapping from the last back to the first. */
  function NextFeatured(i: int, n: int): (r: int)
    requires 0 <= i && n > 0
    ensures 0 <= r < n
    ensures 0 <= i < n - 1 ==> r == i + 1
    ensures i == n - 1 ==> r == 0
  {
    (i + 1) % n
  }

  /** The index after `k` timer ticks. */
  function Advanced(i: int, n: int, k: nat): (r: int)
    requires 0 <= i && n > 0
    ensures 0 <= r
  {
    if k == 0 then i else NextFeatured(Advanced(i, n, k - 1), n)
  }

  /** Ticks before the last slide move one slide at a time. */
  lemma {:induction false} AdvancedNoWrap(i: int, n: int, k: nat)
    requires n > 0 && 0 <= i && i + k < n
    ensures Advanced(i, n, k) == i + k
  {
    if k > 0 {
      AdvancedNoWrap(i, n, k - 1);
    }
  }

  /** `a` ticks followed by `b` ticks are `a + b` ticks. */
  lemma {:induction false} AdvancedCompose(i: int, n: int, a: nat, b: nat)
    requires 0 <= i && n > 0
    ensures Advanced(i, n, a + b) == Advanced(Advanced(i, n, a), n, b)
  {
    if b > 0 {
      AdvancedCompose(i, n, a, b - 1);
    }
  }

  /** After as many ticks as there are slides, the carousel is back where it started. */
  lemma AdvancedFullCycle(i: int, n: int)
    requires 0 <= i < n
    ensures Advanced(i, n, n) == i
  {
    AdvancedNoWrap(i, n, n - 1 - i);
    assert Advanced(i, n, n - i) == 0;
    AdvancedCompose(i, n, n - i, i);
    AdvancedNoWrap(0, n, i);
  }

  /** From any slide, every slide is shown within fewer ticks than there are slides. */
  lemma AdvancedReachesEvery(i: int, j: int, n: int) returns (k: nat)
    requires 0 <= i < n && 0 <= j < n
    ensures k < n && Advanced(i, n, k) == j
  {
    if i <= j {
      k := j - i;
      AdvancedNoWrap(i, n, k);
    } else {
      AdvancedNoWrap(i, n, n - 1 - i);
      assert Advanced(i, n, n - i) == 0;
      AdvancedCompose(i, n, n - i, j);
      AdvancedNoWrap(0, n, j);
      k := n - i + j;
    }
  }

  /** `featuredList`, `currentFeaturedIndex`, whether the rotation timer is running, and
      the hero summary text on the page. */
  class Carousel {
    var featured: seq<Manga>
    var index: int
    var rotating: bool
    var summary: string

    /** The index names a slide whenever there are slides, and the timer runs only over a
        non-empty list. */
    ghost predicate Valid()
      reads this
    {
      0 <= index && (|featured| > 0 ==> index < |featured|) && (rotating ==> |featured| > 0)
    }

    /** The hero summary starts as the page's own text `initialSummary`. */
    constructor (initialSummary: string)
      ensures Valid() && featured == [] && index == 0 && !rotating && summary == initialSummary
    {
      featured, index, rotating, summary := [], 0, false, initialSummary;
    }

    /** `renderFeatured(i)`. The title is read through `getTitle`, which accepts a missing
        `attributes`, but the description is read as `m.attributes.description`, which
        throws on a record without attributes before the summary is written. `ok` is
        false exactly when it throws. */
    method RenderFeatured(i: int) returns (ok: bool)
      requires 0 <= i < |featured|
      modifies this`summary
      ensures ok <==> featured[i].attributes.Some?
      ensures ok ==> summary == HeroSummary(featured[i].attributes.value.description)
      ensures !ok ==> summary == old(summary)
    {
      var m := featured[i];
      if m.attributes.None? {
        return false;
      }
      summary := HeroSummary(m.attributes.value.description);
      ok := true;
    }

    /** `loadFeatured()` given the list fetch result (`None` when it threw). The list is
        stored; a non-empty one resets the index to 0 and renders slide 0. The dots and the
        timer follow only when that render does not throw, since the surrounding `catch`
        skips them. It runs once, at page start, before any timer exists. */
    method LoadFeatured(fetched: Option<seq<Manga>>)
      requires Valid() && !rotating
      modifies this
      ensures Valid()
      ensures fetched.None? ==> featured == old(featured) && index == old(index) && !rotating && summary == old(summary)
      ensures fetched.Some? ==> featured == fetched.value
      ensures fetched.Some? && fetched.value == [] ==> index == old(index) && !rotating && summary == old(summary)
      ensures fetched.Some? && fetched.value != [] ==>
                index == 0 && (rotating <==> fetched.value[0].attributes.Some?)
      ensures fetched.Some? && fetched.value != [] && fetched.value[0].attributes.Some? ==>
                summary == HeroSummary(fetched.value[0].attributes.value.description)
      ensures fetched.Some? && fetched.value != [] && fetched.value[0].attributes.None? ==>
                summary == old(summary)
    {
      if fetched.None? {
        return;
      }
      featured := fetched.value;
      if |featured| == 0 {
        return;
      }
      index := 0;
      var ok := RenderFeatured(0);
      if !ok {
        return;
      }
      rotating := true;
    }

    /** One firing of the rotation timer: the index moves on first, then the new slide is
        rendered (a throw there leaves the old summary, and the timer keeps running). */
    method Tick()
      requires Valid() && rotating
      modifies this`index, this`summary
      ensures Valid() && index == NextFeatured(old(index), |featured|)
      ensures featured[index].attributes.Some? ==> summary == HeroSummary(featured[index].attributes.value.description)
      ensures featured[index].attributes.None? ==> summary == old(summary)
    {
      index := (index + 1) % |featured|;
      var _ := RenderFeatured(index);
    }

    /** A click on dot `j`: `j` becomes the index and its slide is rendered. The dots are
        drawn only by a load whose first render succeeded, the same load that starts the
        timer. */
    method SelectDot(j: int)
      requires Valid() && rotating && 0 <= j < |featured|
      modifies this`index, this`summary
      ensures Valid() && index == j
      ensures featured[j].attributes.Some? ==> summary == HeroSummary(featured[j].attributes.value.description)
      ensures featured[j].attributes.None? ==> summary == old(summary)
    {
      index := j;
      var _ := RenderFeatured(j);
    }
  }

  /** A first featured record without `attributes`: slide 0 is selected but its render
      throws, so no timer starts and the hero keeps the page's text. */
  method AttributelessFirstRecordScenario() {
    var c := new Carousel("…");
    c.LoadFeatured(Some([Manga("a", None, None), Manga("b", Some(Attributes(None, None)), None)]));
    assert c.index == 0 && !c.rotating && c.summary == "…";
  }
}
