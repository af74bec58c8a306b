/** Offset pagination of the filtered movie list (the tail of
    `MoviesService.findAll`): `skip = (page - 1) * limit`, the page is
    `slice(skip, skip + limit)`, and the metadata reports the total,
    `totalPages = ceil(total / limit)` and whether neighbouring pages exist. */
module Pagination {
  import opened Common

  datatype Meta = Meta(
    total: nat,
    page: int,
    limit: int,
    totalPages: nat,
    hasNextPage: bool,
    hasPrevPage: bool)

  datatype Paginated<T> = Paginated(data: seq<T>, meta: Meta)

  function Min(a: int, b: int): int {
    if a <= b then a else b
  }

  /** `Math.ceil(a / b)`: the fewest pages of `b` items that hold `a` items. */
  function CeilDiv(a: nat, b: int): (q: nat)
    requires b >= 1
    ensures a <= q * b
    ensures q == 0 || (q - 1) * b < a
  {
    var q := (a + b - 1) / b;
    assert b * q <= a + b - 1 < b * q + b;
    assert (q - 1) * b == q * b - b;
    q
  }

  /** Number of items on the pages before `page`. */
  function Skip(page: int, limit: int): int {
    (page - 1) * limit
  }

  lemma SkipFacts(page: int, limit: int)
    requires page >= 1 && limit >= 1
    ensures Skip(page, limit) >= 0
    ensures Skip(page, limit) > 0 <==> page > 1
  {
    MulMono(0, page - 1, limit);
    if page > 1 {
      MulMono(1, page - 1, limit);
    }
  }

  lemma NextPageIff(page: int, limit: int, total: nat, q: nat)
    requires page >= 1 && limit >= 1
    requires total <= q * limit && (q == 0 || (q - 1) * limit < total)
    ensures page < q <==> page * limit < total
  {
    if page < q {
      MulMono(page, q - 1, limit);
    } else {
      MulMono(q, page, limit);
    }
  }

  /** `items.slice(skip, skip + limit)`: the items from position `skip` on,
      at most `limit` of them. */
  function Window<T>(items: seq<T>, skip: nat, limit: int): (r: seq<T>)
    requires limit >= 1
    ensures |r| == if skip >= |items| then 0 else Min(limit, |items| - skip)
    ensures forall i :: 0 <= i < |r| ==> r[i] == items[skip + i]
  {
    if skip >= |items| then [] else items[skip..Min(skip + limit, |items|)]
  }

  /** A window continues the prefix that ends where it starts. */
  lemma WindowExtends<T>(items: seq<T>, skip: nat, limit: int)
    requires limit >= 1
    ensures items[..Min(skip, |items|)] + Window(items, skip, limit) == items[..Min(skip + limit, |items|)]
  {
    if skip < |items| {
      assert items[..skip] + items[skip..Min(skip + limit, |items|)] == items[..Min(skip + limit, |items|)];
    }
  }

  /** One page of `items`.  The page holds the items at positions
      `skip .. skip + limit - 1` that exist; a next page exists exactly when
      some item lies beyond this page, and a previous one exactly when items
      precede it. */
  function Paginate<T>(items: seq<T>, page: int, limit: int): (r: Paginated<T>)
    requires page >= 1 && limit >= 1
    ensures r.meta.total == |items| && r.meta.page == page && r.meta.limit == limit
    ensures |items| <= r.meta.totalPages * limit
    ensures r.meta.totalPages == 0 || (r.meta.totalPages - 1) * limit < |items|
    ensures Skip(page, limit) >= 0 && r.data == Window(items, Skip(page, limit), limit)
    ensures r.meta.hasNextPage <==> page * limit < |items|
    ensures r.meta.hasPrevPage <==> Skip(page, limit) > 0
  {
    var total := |items|;
    var totalPages := CeilDiv(total, limit);
    SkipFacts(page, limit);
    NextPageIff(page, limit, total, totalPages);
    Paginated(Window(items, Skip(page, limit), limit), Meta(total, page, limit, totalPages, page < totalPages, page > 1))
  }

  /** A page has items exactly when its number is at most `totalPages`. */
  lemma PageNonEmpty<T>(items: seq<T>, page: int, limit: int)
    requires page >= 1 && limit >= 1
    ensures |Paginate(items, page, limit).data| > 0 <==> page <= Paginate(items, page, limit).meta.totalPages
  {
    var q := Paginate(items, page, limit).meta.totalPages;
    if page <= q {
      MulMono(page - 1, q - 1, limit);
    } else {
      MulMono(q, page - 1, limit);
    }
  }

  /** Pages 1..k laid end to end. */
  function PagesUpTo<T>(items: seq<T>, limit: int, k: nat): seq<T>
    requires limit >= 1
  {
    if k == 0 then [] else PagesUpTo(items, limit, k - 1) + Paginate(items, k, limit).data
  }

  /** Pages 1..k hold exactly the first `k * limit` items, in order. */
  lemma {:induction false} PagesUpToPrefix<T>(items: seq<T>, limit: int, k: nat)
    requires limit >= 1
    ensures PagesUpTo(items, limit, k) == items[..Min(k * limit, |items|)]
  {
    if k > 0 {
      PagesUpToPrefix(items, limit, k - 1);
      SkipFacts(k, limit);
      var skip := Skip(k, limit);
      assert (k - 1) * limit == skip;
      assert skip + limit == k * limit;
      WindowExtends(items, skip, limit);
    }
  }

  /** Every item lands on exactly one page: pages 1..totalPages concatenate
      to the whole list. */
  lemma PagesCoverAll<T>(items: seq<T>, limit: int)
    requires limit >= 1
    ensures PagesUpTo(items, limit, Paginate(items, 1, limit).meta.totalPages) == items
  {
    var q := Paginate(items, 1, limit).meta.totalPages;
    PagesUpToPrefix(items, limit, q);
    assert items[..|items|] == items;
  }

  /** 25 matching movies, 10 per page: page 3 holds the last 5, there are 3
      pages, no next page and a previous one. */
  lemma PaginationExample()
    ensures var r := Paginate(seq(25, i => i), 3, 10);
            |r.data| == 5 && r.data == [20, 21, 22, 23, 24] && r.meta.total == 25 &&
            r.meta.totalPages == 3 && !r.meta.hasNextPage && r.meta.hasPrevPage
  {
    var r := Paginate(seq(25, i => i), 3, 10);
    assert r.meta.totalPages == 3;
  }
}
