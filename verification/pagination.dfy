/** Generic pagination: the page type built for a model (`paginate`) and the
    page record built from a result sequence (`resolve_paginated`), following
    Django's `Paginator` with no orphans and an allowed empty first page. */
module Pagination {
  import opened Wrappers
  import opened Values

  /** The page size when the settings name none. */
  const DefaultPageSize: int := 10
  /** The page size the project's settings configure. */
  const ConfiguredPageSize: Option<int> := Some(20)

  const PaginatedSuffix: string := "Paginated"

  /** A GraphQL field of a generated page type. */
  datatype FieldKind = IntField | BooleanField | ListOf(model: string)
  datatype Field = Field(name: string, kind: FieldKind)
  /** A GraphQL object type: its name and its fields, in declaration order. */
  datatype ObjectType = ObjectType(name: string, fields: seq<Field>)

  /** The fields of every page type, in declaration order. */
  const PageFieldNames: seq<string> := ["total", "size", "current", "has_next", "has_prev", "results"]

  /** The page type `paginate` builds for the model type named `model`. */
  function Paginate(model: string): (t: ObjectType)
    ensures |t.name| == |model| + |PaginatedSuffix| && t.name[..|model|] == model
    ensures t.name[|t.name| - |PaginatedSuffix|..] == PaginatedSuffix
    ensures |t.fields| == 6
    ensures forall i :: 0 <= i < |t.fields| ==> t.fields[i].name == PageFieldNames[i]
    ensures forall i :: 0 <= i < 3 ==> t.fields[i].kind == IntField
    ensures forall i :: 3 <= i < 5 ==> t.fields[i].kind == BooleanField
    ensures t.fields[5].kind == ListOf(model)
  {
    ObjectType(model + PaginatedSuffix, [
      Field("total", IntField),
      Field("size", IntField),
      Field("current", IntField),
      Field("has_next", BooleanField),
      Field("has_prev", BooleanField),
      Field("results", ListOf(model))])
  }

  /** A requested page as `Paginator.validate_number` sees it after `int(...)`:
      an integer, or something that is not one. */
  datatype PageRequest = Number(n: int) | NotAnInteger

  /** The request a keyword-argument value stands for. */
  function PageRequestOf(v: Value): (r: PageRequest)
    ensures r.NotAnInteger? <==> ToInt(v).None?
    ensures r.Number? ==> Some(r.n) == ToInt(v)
  {
    match ToInt(v)
    case Some(n) => Number(n)
    case None => NotAnInteger
  }

  /** The record a paginated field resolves to. `total` holds the number of
      pages and `size` the number of items, not the page size. */
  datatype Page<T> = Page(total: int, size: int, current: int, hasNext: bool, hasPrev: bool, results: seq<T>)

  /** The page size in effect: the configured one, or 10. */
  function PageSize(setting: Option<int>): (size: int)
    requires setting.Some? ==> setting.value > 0
    ensures size > 0
    ensures setting.None? ==> size == DefaultPageSize
    ensures setting.Some? ==> size == setting.value
  {
    OrElse(setting, DefaultPageSize)
  }

  /** `Paginator.num_pages`: `ceil(max(1, count) / size)`. */
  function NumPages(count: nat, size: int): (n: int)
    requires size > 0
    ensures n >= 1
    ensures (n - 1) * size < count || (count == 0 && n == 1)
    ensures count <= n * size
  {
    var hits := if count > 1 then count else 1;
    (hits + size - 1) / size
  }

  /** The page actually served for a request over `numPages` pages: a
      non-integer gives the first page, an integer outside `[1, numPages]`
      (`EmptyPage`, which includes every integer below 1) gives the last. */
  function ServedPage(req: PageRequest, numPages: int): (p: int)
    requires numPages >= 1
    ensures 1 <= p <= numPages
    ensures req.NotAnInteger? ==> p == 1
    ensures req.Number? && 1 <= req.n <= numPages ==> p == req.n
    ensures req.Number? && (req.n < 1 || req.n > numPages) ==> p == numPages
  {
    match req
    case NotAnInteger => 1
    case Number(n) => if n < 1 || n > numPages then numPages else n
  }

  /** Multiplying by a positive page size keeps the order of page numbers. */
  lemma MulMonotone(a: int, b: int, size: int)
    requires a <= b && size > 0
    ensures a * size <= b * size
  {
  }

  /** Where page `number` of `numPages` starts and ends in a sequence of
      `count` items. */
  lemma PageBounds(count: nat, size: int, numPages: int, number: int)
    requires size > 0 && numPages == NumPages(count, size)
    requires 1 <= number <= numPages
    ensures 0 <= (number - 1) * size <= count
    ensures count > 0 ==> (number - 1) * size < count
    ensures number < numPages ==> number * size < count
  {
    MulMonotone(number - 1, numPages - 1, size);
    if number < numPages {
      MulMonotone(number, numPages - 1, size);
    }
  }

  /** `resolve_paginated` over the item sequence with the configured page
      size setting and the requested page. */
  function ResolvePaginated<T>(items: seq<T>, setting: Option<int>, req: PageRequest): (p: Page<T>)
    requires setting.Some? ==> setting.value > 0
    ensures 1 <= p.current <= p.total
    ensures p.total == NumPages(|items|, PageSize(setting))
    ensures p.current == ServedPage(req, p.total)
    ensures p.size == |items|
    ensures p.hasNext <==> p.current < p.total
    ensures p.hasPrev <==> p.current > 1
    ensures |p.results| <= PageSize(setting)
    ensures p.current < p.total ==> |p.results| == PageSize(setting)
    ensures |items| > 0 ==> |p.results| > 0
    ensures (p.current - 1) * PageSize(setting) + |p.results|
         == if p.current * PageSize(setting) < |items| then p.current * PageSize(setting) else |items|
    ensures var offset := (p.current - 1) * PageSize(setting);
      0 <= offset && offset + |p.results| <= |items| && p.results == items[offset..offset + |p.results|]
  {
    var size := PageSize(setting);
    var numPages := NumPages(|items|, size);
    var number := ServedPage(req, numPages);
    var bottom := (number - 1) * size;
    PageBounds(|items|, size, numPages, number);
    var top := if bottom + size >= |items| then |items| else bottom + size;
    Page(numPages, |items|, number, number < numPages, number > 1, items[bottom..top])
  }

  /** The results of pages 1 to `p`, one after another. */
  function PagesUpTo<T>(items: seq<T>, size: int, p: nat): seq<T>
    requires size > 0
  {
    if p == 0 then []
    else PagesUpTo(items, size, p - 1) + ResolvePaginated(items, Some(size), Number(p)).results
  }

  /** The end of the first `p` pages: `p * size`, capped at the item count. */
  function PagesEnd(count: nat, size: int, p: nat): nat
    requires size > 0
  {
    if p * size < count then p * size else count
  }

  /** Page `p` holds the items between the ends of pages `p - 1` and `p`. */
  lemma PageSlice<T>(items: seq<T>, size: int, p: nat)
    requires size > 0
    requires 1 <= p <= NumPages(|items|, size)
    ensures PagesEnd(|items|, size, p - 1) <= PagesEnd(|items|, size, p) <= |items|
    ensures ResolvePaginated(items, Some(size), Number(p)).results
         == items[PagesEnd(|items|, size, p - 1)..PagesEnd(|items|, size, p)]
  {
    var count, numPages := |items|, NumPages(|items|, size);
    PageBounds(count, size, numPages, p);
    var lo := (p - 1) * size;
    assert p * size == lo + size;
    assert PagesEnd(count, size, p - 1) == lo;
    var top := if lo + size >= count then count else lo + size;
    assert PagesEnd(count, size, p) == top;
    assert ServedPage(Number(p), numPages) == p;
  }

  lemma PrefixJoin<T>(s: seq<T>, lo: nat, hi: nat)
    requires lo <= hi <= |s|
    ensures s[..lo] + s[lo..hi] == s[..hi]
  {
  }

  lemma {:induction false} PagesUpToPrefix<T>(items: seq<T>, size: int, p: nat)
    requires size > 0
    requires p <= NumPages(|items|, size)
    ensures PagesEnd(|items|, size, p) <= |items|
    ensures PagesUpTo(items, size, p) == items[..PagesEnd(|items|, size, p)]
  {
    if p > 0 {
      PagesUpToPrefix(items, size, p - 1);
      PageSlice(items, size, p);
      PrefixJoin(items, PagesEnd(|items|, size, p - 1), PagesEnd(|items|, size, p));
    }
  }

  /** The pages partition the items: reading every page from the first to the
      last, in order, gives back exactly the item sequence. */
  lemma PagesCoverItems<T>(items: seq<T>, size: int)
    requires size > 0
    ensures PagesUpTo(items, size, NumPages(|items|, size)) == items
  {
    var n := NumPages(|items|, size);
    PagesUpToPrefix(items, size, n);
    assert PagesEnd(|items|, size, n) == |items|;
  }

  /** A request below 1 is served the last page, not the first. */
  lemma BelowOneServesLastPage<T>(items: seq<T>, setting: Option<int>, n: int)
    requires setting.Some? ==> setting.value > 0
    requires n < 1
    ensures ResolvePaginated(items, setting, Number(n)).current == NumPages(|items|, PageSize(setting))
    ensures !ResolvePaginated(items, setting, Number(n)).hasNext
  {
  }

  /** 95 items in pages of 20: five pages; page 0 and page 999 both serve the
      fifth page, which holds the last 15 items and has no next page. */
  lemma NinetyFiveItems()
    ensures var items := seq(95, i => i);
      && ResolvePaginated(items, ConfiguredPageSize, Number(0)).current == 5
      && ResolvePaginated(items, ConfiguredPageSize, Number(999))
         == Page(5, 95, 5, false, true, items[80..95])
      && ResolvePaginated(items, ConfiguredPageSize, NotAnInteger).current == 1
  {
  }

  /** An empty sequence still has one (empty) page. */
  lemma EmptyItems<T>(req: PageRequest)
    ensures ResolvePaginated<T>([], ConfiguredPageSize, req) == Page(1, 0, 1, false, false, [])
  {
  }
}
