/**
 * The PDF page list: one item per page, each bound from an LRU cache of
 * rendered pages or rendered on a miss. The renderer is abstract: a page
 * rendered at a width is the bitmap `Bitmap(page, width)`, and the calls
 * made to the renderer are recorded in order.
 */
module PdfPages {
  import opened Wrappers
  import Lru

  /** The bitmap of a page rendered at a width (its height is derived in floating point and not modelled). */
  datatype Bitmap = Bitmap(page: int, width: int)

  /** A call on PdfRenderer or one of its pages. */
  datatype RendererCall = OpenPage(page: int) | RenderPage(page: int, width: int) | ClosePage(page: int)

  /** Math.max(4, pageCount) */
  function CacheCapacity(pageCount: nat): (n: nat)
    ensures n >= 4 && n >= pageCount && (n == 4 || n == pageCount)
  {
    if pageCount > 4 then pageCount else 4
  }

  /** How often page `p` was rendered. */
  function RenderCount(calls: seq<RendererCall>, p: int): nat
  {
    if |calls| == 0 then 0
    else RenderCount(calls[..|calls| - 1], p) + (if calls[|calls| - 1].RenderPage? && calls[|calls| - 1].page == p then 1 else 0)
  }

  lemma {:induction false} RenderCountAppend(calls: seq<RendererCall>, more: seq<RendererCall>, p: int)
    ensures RenderCount(calls + more, p) == RenderCount(calls, p) + RenderCount(more, p)
  {
    if |more| > 0 {
      var init := more[..|more| - 1];
      assert (calls + more)[..|calls + more| - 1] == calls + init;
      RenderCountAppend(calls, init, p);
    } else {
      assert calls + more == calls;
    }
  }

  /** A miss renders exactly its own page, once. */
  lemma RenderCountMiss(position: int, width: int, p: int)
    ensures RenderCount([OpenPage(position), RenderPage(position, width), ClosePage(position)], p) ==
              if p == position then 1 else 0
  {
    var c1: seq<RendererCall> := [OpenPage(position)];
    var c2 := c1 + [RenderPage(position, width)];
    var c3 := c2 + [ClosePage(position)];
    assert c1[..0] == [] && c2[..1] == c1 && c3[..2] == c2;
    assert RenderCount(c1, p) == 0;
    assert RenderCount(c2, p) == if p == position then 1 else 0;
    assert c3 == [OpenPage(position), RenderPage(position, width), ClosePage(position)];
  }

  /** A set of page indexes of an n-page document has at most n elements. */
  lemma {:induction false} PagesBound(s: set<int>, n: nat)
    requires forall x :: x in s ==> 0 <= x < n
    ensures |s| <= n
  {
    if n > 0 {
      var s' := s - {n - 1};
      PagesBound(s', n - 1);
    } else {
      assert forall x :: x !in s;
      assert s == {};
    }
  }

  /**
   * The cache is valid and sized max(4, pageCount), holds only pages of the
   * document rendered at the target width, and a page has been rendered
   * once if it is cached and never otherwise.
   */
  ghost predicate Coherent(pageCount: nat, width: int, cache: Lru.Cache<Bitmap>, calls: seq<RendererCall>)
  {
    && Lru.Valid(cache) && cache.maxSize == CacheCapacity(pageCount)
    && (forall p :: p in cache.values ==> 0 <= p < pageCount && cache.values[p] == Bitmap(p, width))
    && (forall p :: RenderCount(calls, p) == if p in cache.values then 1 else 0)
  }

  /** A hit finds the page's render, keeps the cache coherent and bounded by the page count. */
  lemma HitCoherent(pageCount: nat, width: int, cache: Lru.Cache<Bitmap>, calls: seq<RendererCall>, position: int)
    requires Coherent(pageCount, width, cache, calls) && position in cache.values
    ensures Lru.Get(cache, position).1 == Some(Bitmap(position, width))
    ensures Coherent(pageCount, width, Lru.Get(cache, position).0, calls)
    ensures Lru.Get(cache, position).0.values == cache.values && |cache.values.Keys| <= pageCount
  {
    Lru.GetSpec(cache, position);
    PagesBound(cache.values.Keys, pageCount);
  }

  /**
   * A miss on a page of the document adds that page's render without
   * evicting anything (the cache never fills) and renders only that page.
   */
  lemma MissCoherent(pageCount: nat, width: int, cache: Lru.Cache<Bitmap>, calls: seq<RendererCall>, position: int)
    requires Coherent(pageCount, width, cache, calls) && 0 <= position < pageCount && position !in cache.values
    ensures var cache' := Lru.Put(cache, position, Bitmap(position, width));
            var calls' := calls + [OpenPage(position), RenderPage(position, width), ClosePage(position)];
            && Coherent(pageCount, width, cache', calls')
            && cache'.values.Keys == cache.values.Keys + {position} && |cache'.values.Keys| <= pageCount
  {
    var cache' := Lru.Put(cache, position, Bitmap(position, width));
    var more := [OpenPage(position), RenderPage(position, width), ClosePage(position)];
    PagesBound(cache.values.Keys + {position}, pageCount);
    Lru.PutSpec(cache, position, Bitmap(position, width));
    forall p ensures RenderCount(calls + more, p) == if p in cache'.values then 1 else 0 {
      RenderCountAppend(calls, more, p);
      RenderCountMiss(position, width, p);
    }
    PagesBound(cache'.values.Keys, pageCount);
  }

  class PdfPageAdapter {
    const pageCount: nat
    const targetWidth: int
    var cache: Lru.Cache<Bitmap>
    var calls: seq<RendererCall>

    ghost predicate Valid()
      reads this
    {
      Coherent(pageCount, targetWidth, cache, calls)
    }

    constructor (pageCount: nat, widthPixels: int)
      ensures Valid()
      ensures this.pageCount == pageCount && targetWidth == widthPixels
      ensures cache.maxSize == CacheCapacity(pageCount) && cache.values == map[] && calls == []
    {
      this.pageCount := pageCount;
      targetWidth := widthPixels;
      cache := Lru.Empty(CacheCapacity(pageCount));
      calls := [];
    }

    /** getItemCount: one item per page. */
    method ItemCount() returns (n: int)
      ensures n == pageCount
    {
      n := pageCount;
    }

    /**
     * onBindViewHolder. A hit shows the cached bitmap and touches no page;
     * a miss opens, renders at the target width and closes the page, then
     * caches and shows the bitmap. Either way the bitmap shown is the
     * page's render, nothing is evicted, and no page is ever rendered twice.
     */
    method OnBindViewHolder(position: int) returns (shown: Bitmap)
      requires Valid() && 0 <= position < pageCount
      modifies this
      ensures Valid()
      ensures shown == Bitmap(position, targetWidth)
      ensures old(position in cache.values) ==> calls == old(calls) && cache == Lru.Get(old(cache), position).0
      ensures old(position !in cache.values) ==>
                calls == old(calls) + [OpenPage(position), RenderPage(position, targetWidth), ClosePage(position)]
                && cache == Lru.Put(old(cache), position, shown)
      ensures cache.values.Keys == old(cache.values.Keys) + {position} && |cache.values.Keys| <= pageCount
      ensures forall p :: RenderCount(calls, p) <= 1
    {
      if position in cache.values {
        HitCoherent(pageCount, targetWidth, cache, calls, position);
      } else {
        MissCoherent(pageCount, targetWidth, cache, calls, position);
      }
      var lookup := Lru.Get(cache, position);
      cache := lookup.0;
      var cached := lookup.1;
      if cached.Some? {
        shown := cached.value;
        return;
      }

      calls := calls + [OpenPage(position)];
      var width := targetWidth;
      var bitmap := Bitmap(position, width);
      calls := calls + [RenderPage(position, width)];
      calls := calls + [ClosePage(position)];
      assert calls == old(calls) + [OpenPage(position), RenderPage(position, width), ClosePage(position)];
      cache := Lru.Put(cache, position, bitmap);
      shown := bitmap;
    }
  }
}
