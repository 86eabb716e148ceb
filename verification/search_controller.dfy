/** `SearchController::search`: comma-separated list parameters, the query rules,
    six conjunctive filters over the active products, pagination and the
    formatting of each product. */
module SearchController {
  import opened Common
  import opened Schema
  import Helpers
  import ApiResponse
  import ApiSearchResponse
  import ProductsController
  import Postgres

  // ---------------------------------------------------------------- comma lists

  /** `explode(',', $s)`: the pieces between commas, empty ones included. */
  function Explode(s: string): (r: seq<string>)
    ensures |r| >= 1
    ensures forall i :: 0 <= i < |r| ==> ',' !in r[i]
    decreases |s|
  {
    if s == [] then [""]
    else if s[0] == ',' then [""] + Explode(s[1..])
    else
      var rest := Explode(s[1..]);
      [[s[0]] + rest[0]] + rest[1..]
  }

  /** `implode(',', $pieces)`. */
  function Join(pieces: seq<string>): string
    requires |pieces| >= 1
    decreases |pieces|
  {
    if |pieces| == 1 then pieces[0] else pieces[0] + "," + Join(pieces[1..])
  }

  /** Splitting and joining again gives back the text. */
  lemma {:induction false} JoinExplode(s: string)
    ensures Join(Explode(s)) == s
    decreases |s|
  {
    if s == [] {
    } else if s[0] == ',' {
      JoinExplode(s[1..]);
      assert ([""] + Explode(s[1..]))[1..] == Explode(s[1..]);
      assert s == "" + "," + s[1..];
    } else {
      var rest := Explode(s[1..]);
      JoinExplode(s[1..]);
      var r := [[s[0]] + rest[0]] + rest[1..];
      assert r[1..] == rest[1..];
      if |rest| == 1 {
        assert s == [s[0]] + rest[0];
      } else {
        assert Join(rest) == rest[0] + "," + Join(rest[1..]);
        assert s == [s[0]] + (rest[0] + "," + Join(rest[1..]));
      }
    }
  }

  /** Text without a comma is one piece. */
  lemma {:induction false} ExplodeSingle(a: string)
    requires ',' !in a
    ensures Explode(a) == [a]
    decreases |a|
  {
    if a != [] {
      ExplodeSingle(a[1..]);
      assert [a[0]] + a[1..] == a;
    }
  }

  /** A comma after comma-free text ends the first piece. */
  lemma {:induction false} ExplodeCons(a: string, b: string)
    requires ',' !in a
    ensures Explode(a + "," + b) == [a] + Explode(b)
    decreases |a|
  {
    if a == [] {
      assert a + "," + b == [','] + b;
      assert ([','] + b)[1..] == b;
    } else {
      assert (a + "," + b)[1..] == a[1..] + "," + b;
      ExplodeCons(a[1..], b);
      assert [a[0]] + a[1..] == a;
    }
  }

  /** Joining comma-free pieces and splitting again gives back the pieces. */
  lemma {:induction false} ExplodeJoin(pieces: seq<string>)
    requires |pieces| >= 1 && forall i :: 0 <= i < |pieces| ==> ',' !in pieces[i]
    ensures Explode(Join(pieces)) == pieces
    decreases |pieces|
  {
    if |pieces| == 1 {
      ExplodeSingle(pieces[0]);
    } else {
      ExplodeJoin(pieces[1..]);
      ExplodeCons(pieces[0], Join(pieces[1..]));
      assert [pieces[0]] + pieces[1..] == pieces;
    }
  }

  /** The `array_filter` callback: `!empty(trim($value))`, so a blank piece and a
      piece that trims to "0" are dropped. */
  predicate Kept(piece: string)
  {
    !EmptyString(Trim(piece))
  }

  /** The elements `keep` accepts, in their order (`array_filter`, and a `where` over a scan). */
  function Filter<T>(s: seq<T>, keep: T -> bool): (r: seq<T>)
    ensures |r| <= |s|
  {
    if s == [] then []
    else (if keep(s[0]) then [s[0]] else []) + Filter(s[1..], keep)
  }

  /** `Filter` keeps exactly the accepted elements. */
  lemma {:induction false} FilterKeepsExactly<T>(s: seq<T>, keep: T -> bool)
    ensures forall i :: 0 <= i < |Filter(s, keep)| ==> keep(Filter(s, keep)[i]) && Filter(s, keep)[i] in s
    ensures forall x :: x in s && keep(x) ==> x in Filter(s, keep)
    decreases |s|
  {
    if s != [] {
      FilterKeepsExactly(s[1..], keep);
      FilterStep(s, keep);
    }
  }

  lemma FilterStep<T>(s: seq<T>, keep: T -> bool)
    requires s != []
    ensures Filter(s, keep) == (if keep(s[0]) then [s[0]] else []) + Filter(s[1..], keep)
  {
  }

  /** Filtering keeps order: it distributes over concatenation. */
  lemma {:induction false} FilterAppend<T>(a: seq<T>, b: seq<T>, keep: T -> bool)
    ensures Filter(a + b, keep) == Filter(a, keep) + Filter(b, keep)
    decreases |a|
  {
    if a == [] {
      assert a + b == b;
    } else {
      var head := if keep(a[0]) then [a[0]] else [];
      assert (a + b)[0] == a[0] && (a + b)[1..] == a[1..] + b;
      FilterStep(a + b, keep);
      FilterStep(a, keep);
      FilterAppend(a[1..], b, keep);
      assert head + (Filter(a[1..], keep) + Filter(b, keep)) == (head + Filter(a[1..], keep)) + Filter(b, keep);
    }
  }

  /** The `foreach` over `sku` and `name`: unset gives `[]`; otherwise
      the comma-separated pieces that are not blank, untrimmed, in order. */
  function ParseCommaList(raw: Option<string>): (r: seq<string>)
    ensures raw.None? ==> r == []
    ensures raw.Some? ==> forall i :: 0 <= i < |r| ==> Kept(r[i]) && r[i] in Explode(raw.value)
    ensures raw.Some? ==> forall p :: p in Explode(raw.value) && Kept(p) ==> p in r
  {
    match raw
    case None => []
    case Some(s) =>
      FilterKeepsExactly(Explode(s), Kept);
      Filter(Explode(s), Kept)
  }

  // ---------------------------------------------------------------- the query

  /** A numeric query parameter: absent, present but not a number of the rule's kind
      (text `size` characters long that is not `numeric` for prices, not `integer`
      for the others), or a value. Prices are in cents. */
  datatype Param = Absent | Malformed(size: nat) | Given(value: int)

  /** The query string, as PHP hands it over. PHP turns `.` in query keys into `_`,
      so `category.id` and `category.name` arrive as `category_id` and
      `category_name` and never go through the comma-list step. The bracketed keys
      (`price[start]`, `category[id]`, ...) arrive as nested arrays, which the rules
      never look at but the filters read under `price.start`, `category.id`, .... */
  datatype SearchQuery = SearchQuery(
    sku: Option<string>,
    name: Option<string>,
    priceStart: Param,
    priceEnd: Param,
    stockStart: Param,
    stockEnd: Param,
    categoryId: Option<string>,
    categoryName: Option<string>,
    page: Param,
    size: Param,
    priceStartBracket: Param,
    priceEndBracket: Param,
    stockStartBracket: Param,
    stockEndBracket: Param,
    categoryIdBracket: Option<string>,
    categoryNameBracket: Option<string>)

  /** The query string with no parameter at all. */
  const EmptyQuery: SearchQuery := SearchQuery(
    None, None, Absent, Absent, Absent, Absent, None, None, Absent, Absent,
    Absent, Absent, Absent, Absent, None, None)

  /** `min:0` on a range start, after `numeric`/`integer`. */
  predicate StartPasses(start: Param)
  {
    start.Absent? || (start.Given? && start.value >= 0)
  }

  /** Laravel's `gte:<start>` on a present end. An absent start fails (null and text
      are not of the same type); two numbers compare as numbers; otherwise each side
      is measured by `getSize`, which reads a number as its value and any other
      text as its length. `scale` turns a length into the parameter's unit (100
      for prices in cents, 1 for stock). */
  predicate GtePasses(start: Param, end: Param, scale: nat)
    requires !end.Absent?
  {
    match start
    case Absent => false
    case Given(w) => if end.Given? then end.value >= w else end.size * scale >= w
    case Malformed(m) => if end.Given? then end.value >= m * scale else end.size >= m
  }

  /** `min:0|gte:<start>` on a range end, after `numeric`/`integer`. */
  predicate EndPasses(start: Param, end: Param, scale: nat)
  {
    end.Absent? || (end.Given? && end.value >= 0 && GtePasses(start, end, scale))
  }

  predicate PagePasses(page: Param)
  {
    page.Absent? || (page.Given? && page.value >= 1)
  }

  predicate SizePasses(size: Param)
  {
    size.Absent? || (size.Given? && 1 <= size.value <= 100)
  }

  predicate QueryValid(q: SearchQuery)
  {
    && StartPasses(q.priceStart) && EndPasses(q.priceStart, q.priceEnd, 100)
    && StartPasses(q.stockStart) && EndPasses(q.stockStart, q.stockEnd, 1)
    && PagePasses(q.page) && SizePasses(q.size)
  }

  const PriceEndMessage: string := "The maximum price must be greater than or equal to the minimum price"
  const StockEndMessage: string := "The maximum stock must be greater than or equal to the minimum stock"
  const SizeMaxMessage: string := "The page size may not be greater than 100"

  /** Messages for one parameter. A rule without a custom message is shown by its
      translation key. `min:0` measures malformed text by its length, so it never
      fails there. */
  function StartErrors(start: Param, typeRule: string): (r: seq<string>)
    ensures r == [] <==> StartPasses(start)
  {
    match start
    case Absent => []
    case Malformed(_) => ["validation." + typeRule]
    case Given(v) => if v < 0 then ["validation.min"] else []
  }

  function EndErrors(start: Param, end: Param, typeRule: string, gteMessage: string, scale: nat): (r: seq<string>)
    ensures r == [] <==> EndPasses(start, end, scale)
  {
    match end
    case Absent => []
    case Malformed(_) =>
      ["validation." + typeRule] + (if GtePasses(start, end, scale) then [] else [gteMessage])
    case Given(v) =>
      (if v < 0 then ["validation.min"] else [])
      + (if GtePasses(start, end, scale) then [] else [gteMessage])
  }

  function PageErrors(page: Param): (r: seq<string>)
    ensures r == [] <==> PagePasses(page)
  {
    match page
    case Absent => []
    case Malformed(_) => ["validation.integer"]
    case Given(v) => if v < 1 then ["validation.min"] else []
  }

  function SizeErrors(size: Param): (r: seq<string>)
    ensures r == [] <==> SizePasses(size)
  {
    match size
    case Absent => []
    case Malformed(_) => ["validation.integer"]
    case Given(v) =>
      if v < 1 then ["validation.min"] else if v > 100 then [SizeMaxMessage] else []
  }

  function AddErrors(bag: map<string, seq<string>>, key: string, errors: seq<string>): (r: map<string, seq<string>>)
    ensures r == map[] <==> bag == map[] && errors == []
    ensures forall k :: k in r <==> k in bag || (k == key && errors != [])
    ensures errors != [] ==> r[key] == errors
  {
    if errors == [] then bag
    else
      assert key in bag[key := errors];
      bag[key := errors]
  }

  /** The validator's message bag: failing parameter to its messages. */
  function ErrorBag(q: SearchQuery): (bag: map<string, seq<string>>)
    ensures bag == map[] <==> QueryValid(q)
    ensures "price_end" in bag <==> !EndPasses(q.priceStart, q.priceEnd, 100)
    ensures "stock_end" in bag <==> !EndPasses(q.stockStart, q.stockEnd, 1)
  {
    var bag := AddErrors(map[], "price_start", StartErrors(q.priceStart, "numeric"));
    var bag := AddErrors(bag, "price_end", EndErrors(q.priceStart, q.priceEnd, "numeric", PriceEndMessage, 100));
    var bag := AddErrors(bag, "stock_start", StartErrors(q.stockStart, "integer"));
    var bag := AddErrors(bag, "stock_end", EndErrors(q.stockStart, q.stockEnd, "integer", StockEndMessage, 1));
    var bag := AddErrors(bag, "page", PageErrors(q.page));
    AddErrors(bag, "size", SizeErrors(q.size))
  }

  function Texts(messages: seq<string>): PhpValue
  {
    List(seq(|messages|, i requires 0 <= i < |messages| => Str(messages[i])))
  }

  /** `gte` measures a start that is not a number by its length: with `price_start=abc`
      an end of 3.00 or more passes, although the start itself is refused. */
  lemma MalformedStartComparedByLength(q: SearchQuery)
    requires q.priceStart.Malformed? && q.priceEnd.Given? && q.priceEnd.value >= 0
    ensures "price_end" !in ErrorBag(q) <==> q.priceEnd.value >= 100 * q.priceStart.size
    ensures "price_start" in ErrorBag(q)
  {
  }

  // ---------------------------------------------------------------- the filters

  datatype ProductEntry = ProductEntry(id: Id, row: ProductRow)

  /** `applySkuFilter`: `whereIn('sku', $list)` when the list is not empty. */
  predicate SkuMatches(terms: seq<string>, row: ProductRow)
  {
    terms == [] || row.sku in terms
  }

  /** `applyNameFilter`: `name LIKE '%term%'` for at least one term. */
  predicate NameMatches(terms: seq<string>, row: ProductRow)
  {
    terms == [] || exists t :: t in terms && Postgres.Like(Postgres.Substring(t), row.name)
  }

  /** A term free of LIKE's special characters filters by plain substring. */
  lemma LiteralNameTerm(t: string, row: ProductRow)
    requires Postgres.Literal(t)
    ensures NameMatches([t], row) <==> Contains(row.name, t)
  {
    Postgres.LiteralTermIsSubstring(t, row.name);
  }

  /** `name=_` is a wildcard, not a search for an underscore: every non-empty name matches. */
  lemma UnderscoreNameMatchesAll(row: ProductRow)
    ensures NameMatches(["_"], row) <==> row.name != []
  {
    Postgres.UnderscoreMatchesAnyText(row.name);
  }

  /** `$request->input('price.start', $request->input('price_start'))`: the bracketed
      parameter, when present, wins over the flat one. */
  function Bound(bracket: Param, flat: Param): (r: Param)
    ensures !bracket.Absent? ==> r == bracket
    ensures bracket.Absent? ==> r == flat
  {
    if bracket.Absent? then flat else bracket
  }

  /** `applyPriceFilter` / `applyStockFilter`: inclusive bounds, each only when given. */
  predicate InRange(start: Param, end: Param, v: int)
  {
    (start.Given? ==> v >= start.value) && (end.Given? ==> v <= end.value)
  }

  /** A bound the database cannot read as a number of the column's type. The rules
      never see bracketed bounds, so only those can reach the database malformed. */
  predicate BoundCastFails(q: SearchQuery)
  {
    || Bound(q.priceStartBracket, q.priceStart).Malformed?
    || Bound(q.priceEndBracket, q.priceEnd).Malformed?
    || Bound(q.stockStartBracket, q.stockStart).Malformed?
    || Bound(q.stockEndBracket, q.stockEnd).Malformed?
  }

  /** `$request->has($key) && !empty($request->input($key))` for a text parameter. */
  predicate NonEmpty(p: Option<string>)
  {
    p.Some? && !EmptyString(p.value)
  }

  /** The comma pieces the category filters read: always from the flat parameter,
      whichever of the two switched the filter on (`explode` reads null as ""). */
  function Pieces(flat: Option<string>): (r: seq<string>)
    ensures |r| >= 1
  {
    Explode(if flat.Some? then flat.value else "")
  }

  /** The id filter is on: `has('category.id')` always holds, since `search` merges a
      literal `category.id` key, so `category[id]` or `category_id` must be non-empty. */
  predicate CategoryIdFilterOn(q: SearchQuery)
  {
    NonEmpty(q.categoryIdBracket) || NonEmpty(q.categoryId)
  }

  /** `whereIn('category_id', $pieces)` on the `uuid` column: some piece is not
      `uuid` input, so the query raises before any row is read. */
  predicate CategoryIdCastFails(q: SearchQuery)
  {
    CategoryIdFilterOn(q) && exists p :: p in Pieces(q.categoryId) && Postgres.PgUuid(p).None?
  }

  /** `applyCategoryIdFilter`: the row's category is one of the pieces, compared as
      `uuid` values, so letter case and braces do not matter. */
  predicate CategoryIdMatches(q: SearchQuery, row: ProductRow)
  {
    || !CategoryIdFilterOn(q)
    || exists p :: p in Pieces(q.categoryId) && Postgres.PgUuid(p).Some? && Postgres.PgUuid(p) == Postgres.PgUuid(row.categoryId)
  }

  /** A product is found by its category's id typed in capitals. */
  lemma UpperCaseIdMatches(q: SearchQuery, row: ProductRow)
    requires CategoryIdFilterOn(q) && Postgres.PgUuid(row.categoryId).Some?
    requires Postgres.UpperText(row.categoryId) in Pieces(q.categoryId)
    ensures CategoryIdMatches(q, row)
  {
    Postgres.UuidIgnoresCase(row.categoryId);
  }

  predicate CategoryNameFilterOn(q: SearchQuery)
  {
    NonEmpty(q.categoryNameBracket) || NonEmpty(q.categoryName)
  }

  /** `applyCategoryNameFilter`: `whereHas('category', ...)` needs an active category
      whose name is `LIKE '%piece%'` for one of the pieces (an empty piece matches any name). */
  predicate CategoryNameMatches(q: SearchQuery, row: ProductRow, categories: CategoryTable)
  {
    || !CategoryNameFilterOn(q)
    || (&& row.categoryId in categories && categories[row.categoryId].Active()
        && exists t :: t in Pieces(q.categoryName) && Postgres.Like(Postgres.Substring(t), categories[row.categoryId].name))
  }

  /** The conjunction of the six filters, over the rows `SoftDeletes` leaves visible. */
  predicate Matches(q: SearchQuery, categories: CategoryTable, row: ProductRow)
  {
    && row.Active()
    && SkuMatches(ParseCommaList(q.sku), row)
    && NameMatches(ParseCommaList(q.name), row)
    && InRange(Bound(q.priceStartBracket, q.priceStart), Bound(q.priceEndBracket, q.priceEnd), row.price)
    && InRange(Bound(q.stockStartBracket, q.stockStart), Bound(q.stockEndBracket, q.stockEnd), row.stock)
    && CategoryIdMatches(q, row)
    && CategoryNameMatches(q, row, categories)
  }

  /** The query's rows, in the order the database scans `rows`. */
  function Filtered(q: SearchQuery, categories: CategoryTable, rows: seq<ProductEntry>): (r: seq<ProductEntry>)
    ensures |r| <= |rows|
    ensures forall i :: 0 <= i < |r| ==> r[i] in rows && Matches(q, categories, r[i].row)
    ensures forall e :: e in rows && Matches(q, categories, e.row) ==> e in r
  {
    var keep := (e: ProductEntry) => Matches(q, categories, e.row);
    FilterKeepsExactly(rows, keep);
    Filter(rows, keep)
  }

  /** The query with no filter at all. */
  function NoFilters(q: SearchQuery): SearchQuery
  {
    q.(sku := None, name := None, priceStart := Absent, priceEnd := Absent, stockStart := Absent,
       stockEnd := Absent, categoryId := None, categoryName := None,
       priceStartBracket := Absent, priceEndBracket := Absent, stockStartBracket := Absent,
       stockEndBracket := Absent, categoryIdBracket := None, categoryNameBracket := None)
  }

  /** Omitting every filter keeps every active row. */
  lemma NoFilterKeepsActive(q: SearchQuery, categories: CategoryTable, row: ProductRow)
    ensures Matches(NoFilters(q), categories, row) <==> row.Active()
  {
  }

  /** Each filter can only narrow the result: a row the full query keeps is kept
      when any one filter, flat and bracketed, is dropped. */
  lemma DroppingAFilterWidens(q: SearchQuery, categories: CategoryTable, rows: seq<ProductEntry>, e: ProductEntry)
    requires e in Filtered(q, categories, rows)
    ensures e in Filtered(q.(sku := None), categories, rows)
    ensures e in Filtered(q.(name := None), categories, rows)
    ensures e in Filtered(q.(priceStart := Absent, priceEnd := Absent, priceStartBracket := Absent, priceEndBracket := Absent), categories, rows)
    ensures e in Filtered(q.(stockStart := Absent, stockEnd := Absent, stockStartBracket := Absent, stockEndBracket := Absent), categories, rows)
    ensures e in Filtered(q.(categoryId := None, categoryIdBracket := None), categories, rows)
    ensures e in Filtered(q.(categoryName := None, categoryNameBracket := None), categories, rows)
  {
  }

  /** A row whose price equals both bounds is kept: the bounds are inclusive. */
  lemma RangesAreInclusive(v: int)
    ensures InRange(Given(v), Given(v), v)
    ensures !InRange(Given(v + 1), Absent, v) && !InRange(Absent, Given(v - 1), v)
  {
  }

  /** A bracketed bound filters although no rule checked it: `price[start]` wins over
      `price_start`, and a negative or reversed pair passes validation. */
  lemma BracketedBoundsBypassRules(q: SearchQuery, categories: CategoryTable, row: ProductRow, a: int, b: int)
    requires q.priceStartBracket == Given(a) && q.priceEndBracket == Given(b)
    ensures QueryValid(q) <==> QueryValid(q.(priceStartBracket := Absent, priceEndBracket := Absent))
    ensures Matches(q, categories, row) ==> a <= row.price <= b
  {
  }

  // ---------------------------------------------------------------- pagination

  /** `min($request->input('size', 10), 100)`. */
  function PerPage(size: Param): int
  {
    var requested := if size.Given? then size.value else 10;
    if requested < 100 then requested else 100
  }

  /** `$request->input('page', 1)`. */
  function CurrentPage(page: Param): int
  {
    if page.Given? then page.value else 1
  }

  /** Once the rules pass the clamp changes nothing: `size` is already at most 100. */
  lemma PerPageAfterValidation(q: SearchQuery)
    requires QueryValid(q)
    ensures PerPage(q.size) == (if q.size.Given? then q.size.value else 10)
    ensures 1 <= PerPage(q.size) <= 100 && CurrentPage(q.page) >= 1
  {
  }

  /** The page `paginate` returns: the items from offset `(page - 1) * perPage`. */
  function PageOf<T>(items: seq<T>, page: int, perPage: int): (r: seq<T>)
    requires page >= 1 && perPage >= 1
    ensures |r| <= perPage
    ensures forall i :: 0 <= i < |r| ==> (page - 1) * perPage + i < |items| && r[i] == items[(page - 1) * perPage + i]
    ensures |r| == if (page - 1) * perPage >= |items| then 0 else if page * perPage <= |items| then perPage else |items| - (page - 1) * perPage
  {
    var from := (page - 1) * perPage;
    var to := page * perPage;
    if from >= |items| then [] else if to <= |items| then items[from..to] else items[from..]
  }

  /** Pages 1..n, one after the other. */
  function FirstPages<T>(items: seq<T>, perPage: int, n: nat): seq<T>
    requires perPage >= 1
  {
    if n == 0 then [] else FirstPages(items, perPage, n - 1) + PageOf(items, n, perPage)
  }

  /** The first n pages tile the listing: nothing skipped, nothing repeated. */
  lemma {:induction false} PagesTile<T>(items: seq<T>, perPage: int, n: nat)
    requires perPage >= 1
    ensures FirstPages(items, perPage, n) == items[..if n * perPage <= |items| then n * perPage else |items|]
  {
    if n > 0 {
      PagesTile(items, perPage, n - 1);
      var prev := if (n - 1) * perPage <= |items| then (n - 1) * perPage else |items|;
      var next := if n * perPage <= |items| then n * perPage else |items|;
      assert items[..prev] + items[prev..next] == items[..next];
      assert PageOf(items, n, perPage) == items[prev..next];
    }
  }

  // ---------------------------------------------------------------- formatting

  /** One product as `formatProducts` writes it. */
  function FormatProduct(e: ProductEntry, category: CategoryRow): PhpValue
  {
    Assoc(map[
      "id" := Str(e.id),
      "sku" := Str(e.row.sku),
      "name" := Str(e.row.name),
      "price" := Str(Helpers.FormatDecimal(e.row.price)),
      "stock" := Int(e.row.stock),
      "category" := Assoc(map["id" := Str(e.row.categoryId), "name" := Str(category.name)]),
      "createdAt" := Int(e.row.createdAt * 1000)])
  }

  /** `formatProducts`: `None` when some product's category is missing or deleted
      (reading `->id` of null throws). */
  function FormatAll(items: seq<ProductEntry>, categories: CategoryTable): (r: Option<seq<PhpValue>>)
    ensures r.Some? <==> forall i :: 0 <= i < |items| ==> ProductsController.LoadCategory(categories, items[i].row.categoryId).Some?
    ensures r.Some? ==> |r.value| == |items| && forall i :: 0 <= i < |items| ==>
      r.value[i] == FormatProduct(items[i], categories[items[i].row.categoryId])
  {
    if items == [] then Some([])
    else
      match ProductsController.LoadCategory(categories, items[0].row.categoryId)
      case None => None
      case Some(category) =>
        match FormatAll(items[1..], categories)
        case None => None
        case Some(rest) => Some([FormatProduct(items[0], category)] + rest)
  }

  /** The search listing shows a product exactly as `show` does. */
  lemma FormatMatchesShow(e: ProductEntry, category: CategoryRow)
    ensures FormatProduct(e, category) == ProductsController.Formatted(e.id, e.row, category)
  {
  }

  // ---------------------------------------------------------------- search

  /** The body `search` builds: `data` and `paging`. */
  function Payload(items: seq<PhpValue>, perPage: int, total: int, current: int): PhpValue
  {
    Assoc(map[
      "data" := List(items),
      "paging" := Assoc(map["size" := Int(perPage), "total" := Int(total), "current" := Int(current)])])
  }

  /** The query reaches the database with a value its column cannot read. */
  predicate CastFails(q: SearchQuery)
  {
    BoundCastFails(q) || CategoryIdCastFails(q)
  }

  function SearchFailed(): Response
  {
    ApiResponse.ErrorResponse(Str("Failed to search products"), 500)
  }

  /** Everything `search` computes before choosing an envelope: the failure
      response, or the page payload. */
  function Run(q: SearchQuery, categories: CategoryTable, rows: seq<ProductEntry>): (r: Result<PhpValue, Response>)
    ensures r.Failure? ==> r.error.code == 422 || r.error.code == 500
    ensures r.Failure? && r.error.code == 422 <==> !QueryValid(q)
    ensures QueryValid(q) && CastFails(q) ==> r == Failure(SearchFailed())
  {
    if !QueryValid(q) then
      var bag := ErrorBag(q);
      Failure(ApiResponse.ErrorResponse(Object(map k | k in bag :: Texts(bag[k])), 422))
    else if CastFails(q) then
      Failure(SearchFailed())
    else
      var found := Filtered(q, categories, rows);
      var perPage := PerPage(q.size);
      var page := CurrentPage(q.page);
      match FormatAll(PageOf(found, page, perPage), categories)
      case None => Failure(SearchFailed())
      case Some(items) => Success(Payload(items, perPage, |found|, page))
  }

  const ExistsMessage: string := "The selected category does not exist"

  /** `exists:categories,id`: a category row, deleted or not, has this id as a `uuid` value. */
  predicate CategoryExists(categories: CategoryTable, p: string)
  {
    exists id :: id in categories && Postgres.PgUuid(id) == Postgres.PgUuid(p)
  }

  /** The `category_id.*` rules, had they applied to the pieces: a piece that is not a
      UUID gets the `uuid` message; a UUID no category holds gets the custom `exists` one. */
  function CategoryIdErrors(q: SearchQuery, categories: CategoryTable): (r: seq<string>)
    ensures r == [] <==> !CategoryIdFilterOn(q) || forall p :: p in Pieces(q.categoryId) ==> IsUuid(p) && CategoryExists(categories, p)
  {
    if !CategoryIdFilterOn(q) then []
    else
      var pieces := Pieces(q.categoryId);
      (if exists p :: p in pieces && !IsUuid(p) then ["validation.uuid"] else [])
      + (if exists p :: p in pieces && IsUuid(p) && !CategoryExists(categories, p) then [ExistsMessage] else [])
  }

  /** Every piece of an accepted id list is valid `uuid` input. */
  lemma CheckedIdsNeverFailCast(q: SearchQuery, categories: CategoryTable)
    requires CategoryIdErrors(q, categories) == []
    ensures !CategoryIdCastFails(q)
  {
    if CategoryIdFilterOn(q) {
      forall p | p in Pieces(q.categoryId)
        ensures Postgres.PgUuid(p).Some?
      {
        Postgres.StandardUuidAccepted(p);
      }
    }
  }

  /** `search` with the check the `category_id.*` rules evidently meant: the id
      pieces are validated with the other parameters, so a malformed or unknown id
      is a 422 and never reaches the database. */
  function RunChecked(q: SearchQuery, categories: CategoryTable, rows: seq<ProductEntry>): (r: Result<PhpValue, Response>)
    ensures r.Failure? ==> r.error.code == 422 || r.error.code == 500
    ensures r.Failure? && r.error.code == 422 <==> !QueryValid(q) || CategoryIdErrors(q, categories) != []
    ensures CategoryIdErrors(q, categories) == [] ==> r == Run(q, categories, rows)
    ensures r.Failure? && r.error.code == 500 ==> !CategoryIdCastFails(q)
  {
    var bag := AddErrors(ErrorBag(q), "category_id", CategoryIdErrors(q, categories));
    if bag != map[] then
      Failure(ApiResponse.ErrorResponse(Object(map k | k in bag :: Texts(bag[k])), 422))
    else
      CheckedIdsNeverFailCast(q, categories);
      Run(q, categories, rows)
  }

  /** `search` as written: the payload goes through `ApiResponse::successResponse`,
      which nests it as `{status, message, data: {data, paging}}`. */
  function SearchAsWritten(q: SearchQuery, categories: CategoryTable, rows: seq<ProductEntry>): (r: Response)
  {
    match Run(q, categories, rows)
    case Failure(response) => response
    case Success(payload) => ApiResponse.SuccessResponse(payload)
  }

  /** `search` with the `ApiSearchResponse` envelope and the id check: `data` and
      `paging` at the top level. */
  function Search(q: SearchQuery, categories: CategoryTable, rows: seq<ProductEntry>): (r: Response)
  {
    match RunChecked(q, categories, rows)
    case Failure(response) => response
    case Success(payload) => ApiSearchResponse.SuccessResponse(payload)
  }

  /** As written, a malformed id piece passes the rules and makes the query raise:
      the answer is a 500. */
  lemma MalformedCategoryIdFailsAsWritten(q: SearchQuery, categories: CategoryTable, rows: seq<ProductEntry>)
    requires QueryValid(q) && CategoryIdCastFails(q)
    ensures SearchAsWritten(q, categories, rows) == SearchFailed()
  {
  }

  /** The unit test's request `category_id=invalid-uuid`, with no other parameter, is
      answered 500 as written. */
  lemma InvalidCategoryIdFailsAsWritten(q: SearchQuery, categories: CategoryTable, rows: seq<ProductEntry>)
    requires q == EmptyQuery.(categoryId := Some("invalid-uuid"))
    ensures SearchAsWritten(q, categories, rows).code == 500
  {
    var id := q.categoryId.value;
    ExplodeSingle(id);
    assert Postgres.PgUuid(id).None? by {
      assert !IsHexDigit(id[0]);
    }
    assert id in Pieces(q.categoryId);
    MalformedCategoryIdFailsAsWritten(q, categories, rows);
  }

  /** A trailing comma leaves an empty piece, which is not `uuid` input either. */
  lemma TrailingCommaFailsAsWritten(q: SearchQuery, categories: CategoryTable, rows: seq<ProductEntry>, ids: string)
    requires QueryValid(q) && ',' !in ids && q.categoryId == Some(ids + ",")
    ensures SearchAsWritten(q, categories, rows) == SearchFailed()
  {
    ExplodeCons(ids, "");
    assert ids + "," + "" == ids + ",";
    assert Pieces(q.categoryId)[1] == "";
    assert Postgres.PgUuid("").None?;
    MalformedCategoryIdFailsAsWritten(q, categories, rows);
  }

  /** With the id check, every id list that made the written code raise is a 422 instead. */
  lemma MalformedCategoryIdRejected(q: SearchQuery, categories: CategoryTable, rows: seq<ProductEntry>)
    requires CategoryIdCastFails(q)
    ensures Search(q, categories, rows).code == 422
  {
    var p :| p in Pieces(q.categoryId) && Postgres.PgUuid(p).None?;
    if IsUuid(p) {
      Postgres.StandardUuidAccepted(p);
    }
  }

  /** A bracketed bound that is not a number passes the rules and makes the query raise. */
  lemma MalformedBracketFails(q: SearchQuery, categories: CategoryTable, rows: seq<ProductEntry>)
    requires QueryValid(q) && (q.priceStartBracket.Malformed? || q.stockEndBracket.Malformed?)
    ensures SearchAsWritten(q, categories, rows) == SearchFailed()
  {
  }

  /** As written, a successful search has no top-level `paging`: it sits under `data`. */
  lemma AsWrittenNestsPaging(q: SearchQuery, categories: CategoryTable, rows: seq<ProductEntry>)
    requires Run(q, categories, rows).Success?
    ensures var r := SearchAsWritten(q, categories, rows);
      r.code == 200 && "paging" !in r.body.entries && r.body.entries["data"] == Run(q, categories, rows).value
  {
  }

  /** With the search envelope the page is answered at the top level. */
  lemma {:induction false} SearchAnswersPaging(q: SearchQuery, categories: CategoryTable, rows: seq<ProductEntry>)
    requires RunChecked(q, categories, rows).Success?
    ensures var r := Search(q, categories, rows);
      r.code == 200 && r.body == RunChecked(q, categories, rows).value && "data" in r.body.entries && "paging" in r.body.entries
  {
    assert RunChecked(q, categories, rows) == Run(q, categories, rows);
    RunSucceeded(q, categories, rows);
    var payload := Run(q, categories, rows).value;
    assert ApiSearchResponse.IsSearchPayload(payload);
  }

  /** The rows shown on the requested page. */
  function PageRows(q: SearchQuery, categories: CategoryTable, rows: seq<ProductEntry>): seq<ProductEntry>
    requires QueryValid(q)
  {
    PageOf(Filtered(q, categories, rows), CurrentPage(q.page), PerPage(q.size))
  }

  /** What a successful run is made of. */
  lemma RunSucceeded(q: SearchQuery, categories: CategoryTable, rows: seq<ProductEntry>)
    requires Run(q, categories, rows).Success?
    ensures QueryValid(q)
    ensures FormatAll(PageRows(q, categories, rows), categories).Some?
    ensures Run(q, categories, rows).value == Payload(
      FormatAll(PageRows(q, categories, rows), categories).value,
      PerPage(q.size), |Filtered(q, categories, rows)|, CurrentPage(q.page))
  {
  }

  /** A successful page holds at most `perPage` rows, each of them a matching row. */
  lemma PageRowsMatch(q: SearchQuery, categories: CategoryTable, rows: seq<ProductEntry>)
    requires QueryValid(q)
    ensures |PageRows(q, categories, rows)| <= PerPage(q.size)
    ensures forall e :: e in PageRows(q, categories, rows) ==> e in rows && Matches(q, categories, e.row)
  {
    var found := Filtered(q, categories, rows);
    var page := PageRows(q, categories, rows);
    forall e | e in page
      ensures e in found
    {
      var i :| 0 <= i < |page| && page[i] == e;
      assert page[i] == found[(CurrentPage(q.page) - 1) * PerPage(q.size) + i];
    }
  }

  /** `paging` reports the page size, the number of matching rows and the page. */
  lemma PagingReported(q: SearchQuery, categories: CategoryTable, rows: seq<ProductEntry>)
    requires Run(q, categories, rows).Success?
    ensures QueryValid(q)
    ensures Run(q, categories, rows).value.entries["paging"] == Assoc(map[
      "size" := Int(PerPage(q.size)), "total" := Int(|Filtered(q, categories, rows)|), "current" := Int(CurrentPage(q.page))])
  {
    RunSucceeded(q, categories, rows);
  }

  /** Each shown product's `createdAt` is its creation time in milliseconds: the
      `data` of a successful run (see `RunSucceeded`) is this list. */
  lemma ShownCreatedAt(q: SearchQuery, categories: CategoryTable, rows: seq<ProductEntry>)
    requires QueryValid(q) && FormatAll(PageRows(q, categories, rows), categories).Some?
    ensures var page := PageRows(q, categories, rows);
      var items := FormatAll(page, categories).value;
      |items| == |page| && forall i :: 0 <= i < |items| ==>
        items[i].entries["createdAt"] == Int(Helpers.ToMilliseconds(page[i].row.createdAt))
  {
  }

  /** An end below its start, or an end without a start, fails with 422. */
  lemma RangeRulesReject(q: SearchQuery, categories: CategoryTable, rows: seq<ProductEntry>)
    requires
      || (q.priceStart.Given? && q.priceEnd.Given? && q.priceEnd.value < q.priceStart.value)
      || (q.stockStart.Given? && q.stockEnd.Given? && q.stockEnd.value < q.stockStart.value)
      || (q.priceStart.Absent? && !q.priceEnd.Absent?)
      || (q.stockStart.Absent? && !q.stockEnd.Absent?)
    ensures SearchAsWritten(q, categories, rows).code == 422 && Search(q, categories, rows).code == 422
  {
  }

  /** `size` outside 1..100 or `page` below 1 fails with 422. */
  lemma PagingRulesReject(q: SearchQuery, categories: CategoryTable, rows: seq<ProductEntry>)
    requires (q.size.Given? && (q.size.value < 1 || q.size.value > 100)) || (q.page.Given? && q.page.value < 1)
    ensures SearchAsWritten(q, categories, rows).code == 422 && Search(q, categories, rows).code == 422
  {
  }
}
