/**
 * The singly linked story of linearStory/linearStory.go: each page holds
 * its text and a pointer to the next page. A page's text is never
 * reassigned, so it is a `const`; only `nextPage` changes.
 *
 * The pages reachable from a page are named by a ghost sequence `pages`
 * with `Chain(pages)`: distinct objects, each pointing at the next and the
 * last at nothing.
 */
module LinearStory {

  class StoryPage {
    const text: string
    var nextPage: StoryPage?

    constructor (text: string, nextPage: StoryPage?)
      ensures this.text == text && this.nextPage == nextPage
    {
      this.text := text;
      this.nextPage := nextPage;
    }

    /**
     * `addToEnd`: walk to the last page and hang a new page holding `text`
     * after it. The story's texts become the old ones followed by `text`.
     */
    method AddToEnd(text: string, ghost pages: seq<StoryPage>) returns (ghost pages': seq<StoryPage>)
      requires Chain(pages) && pages[0] == this
      modifies pages[|pages| - 1]
      ensures Chain(pages') && pages'[0] == this
      ensures |pages'| == |pages| + 1 && pages'[..|pages|] == pages && fresh(pages'[|pages|])
      ensures Texts(pages') == Texts(pages) + [text]
    {
      var page := this;
      ghost var k := 0;
      while page.nextPage != null
        invariant 0 <= k < |pages| && page == pages[k]
        decreases |pages| - k
      {
        page := page.nextPage;
        k := k + 1;
      }
      assert pages[k].nextPage == After(pages, k);
      var added := new StoryPage(text, null);
      page.nextPage := added;
      pages' := pages + [added];
      ChainSnoc(pages, added);
      TextsAppend(pages, [added]);
      assert pages'[..|pages|] == pages;
    }

    /**
     * `addAfter`: a new page holding `text` goes right after this one, in
     * front of the rest of the story.
     */
    method AddAfter(text: string, ghost pages: seq<StoryPage>) returns (ghost pages': seq<StoryPage>)
      requires Chain(pages) && pages[0] == this
      modifies this`nextPage
      ensures Chain(pages') && pages'[0] == this
      ensures |pages'| == |pages| + 1 && pages' == [this, pages'[1]] + pages[1..] && fresh(pages'[1])
      ensures Texts(pages') == [this.text, text] + Texts(pages)[1..]
    {
      var newPage := new StoryPage(text, nextPage);
      nextPage := newPage;
      pages' := [this, newPage] + pages[1..];
    }

    /** `playStory`: the texts shown, one per page in `nextPage` order until the end of the story. */
    method PlayStory(ghost pages: seq<StoryPage>) returns (shown: seq<string>)
      requires Chain(pages) && pages[0] == this
      ensures shown == Texts(pages)
    {
      var page: StoryPage? := this;
      shown := [];
      ghost var k := 0;
      while page != null
        invariant 0 <= k <= |pages| && (k < |pages| ==> page == pages[k]) && (k == |pages| ==> page == null)
        invariant shown == Texts(pages[..k])
        decreases |pages| - k
      {
        shown := shown + [page.text];
        assert pages[..k + 1] == pages[..k] + [pages[k]];
        TextsAppend(pages[..k], [pages[k]]);
        page := page.nextPage;
        k := k + 1;
      }
      assert pages[..k] == pages;
    }
  }

  /** `pages` is a null-terminated chain of distinct pages, in `nextPage` order. */
  ghost predicate Chain(pages: seq<StoryPage>)
    reads pages
  {
    |pages| > 0 &&
    (forall i, j :: 0 <= i < j < |pages| ==> pages[i] != pages[j]) &&
    (forall i :: 0 <= i < |pages| ==> pages[i].nextPage == After(pages, i))
  }

  /** The page after the `i`th one, none after the last. */
  function After(pages: seq<StoryPage>, i: nat): StoryPage?
  {
    if i + 1 < |pages| then pages[i + 1] else null
  }

  /** The texts of the pages, in order. */
  function Texts(pages: seq<StoryPage>): (texts: seq<string>)
    ensures |texts| == |pages| && forall i :: 0 <= i < |pages| ==> texts[i] == pages[i].text
  {
    if pages == [] then [] else [pages[0].text] + Texts(pages[1..])
  }

  /** Texts of a concatenation is the concatenation of the texts. */
  lemma {:induction false} TextsAppend(a: seq<StoryPage>, b: seq<StoryPage>)
    ensures Texts(a + b) == Texts(a) + Texts(b)
  {
    if a != [] {
      assert (a + b)[1..] == a[1..] + b;
      TextsAppend(a[1..], b);
    }
  }

  /**
   * The chain that starts at a page is determined by the heap: two chains
   * with the same first page are the same sequence, so the ghost `pages`
   * of every method names exactly the pages reachable through `nextPage`.
   */
  lemma {:induction false} ChainUnique(p: seq<StoryPage>, q: seq<StoryPage>)
    requires Chain(p) && Chain(q) && p[0] == q[0]
    ensures p == q
    decreases |p|
  {
    if |p| == 1 {
      assert q[0].nextPage == After(q, 0);
    } else {
      assert |q| > 1 by {
        assert p[0].nextPage == p[1];
      }
      assert p[1] == q[1];
      ChainTail(p);
      ChainTail(q);
      ChainUnique(p[1..], q[1..]);
      assert p == [p[0]] + p[1..] && q == [q[0]] + q[1..];
    }
  }

  /** A chain whose last page now points at a distinct page with no successor has grown by that page. */
  lemma ChainSnoc(pages: seq<StoryPage>, added: StoryPage)
    requires |pages| > 0 && added !in pages && added.nextPage == null
    requires forall i, j :: 0 <= i < j < |pages| ==> pages[i] != pages[j]
    requires forall i :: 0 <= i < |pages| - 1 ==> pages[i].nextPage == pages[i + 1]
    requires pages[|pages| - 1].nextPage == added
    ensures Chain(pages + [added])
  {
  }

  lemma ChainTail(p: seq<StoryPage>)
    requires Chain(p) && |p| > 1
    ensures Chain(p[1..])
  {
  }

  /**
   * The story that `main` builds: one page, two pages added at the end,
   * one page added after the first; played back in that order.
   */
  method Demo() returns (shown: seq<string>)
    ensures shown == [First, "Bla", Second, Third]
  {
    var page1 := new StoryPage(First, null);
    ghost var pages := [page1];
    pages := page1.AddToEnd(Second, pages);
    pages := page1.AddToEnd(Third, pages);
    pages := page1.AddAfter("Bla", pages);
    shown := page1.PlayStory(pages);
  }

  const First: string := "It was a dark and stormy night."
  const Second: string := "You are alone, and you need to find the scared helmet, before the bad guys do"
  const Third: string := "You see a troll ahead"
}
