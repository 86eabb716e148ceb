# core-api-medical in Dafny

This project models the core of a Laravel CRUD API for medical-supply categories and products. The API is built on a command/query split:

- The HTTP controllers write a primary ("command") PostgreSQL database.
- `CategoriesController` publishes every category change to the RabbitMQ queue `data_sync`.
- A long-running consumer (`RabbitMQConsumer`) projects those events onto a secondary ("query") database.

The model covers the following, one Dafny module per source file:

- **`RabbitMQConsumer`**: the routing of a decoded message, the upsert and delete handlers over a `map` table, the bounded connection retry loop, and the acknowledgement outcome of each delivery. The consumer is a `Consumer` class whose fields are the two query tables and the connection flag.
- **`CategoriesController`** and **`ProductsController`**: classes over a shared `Database` object whose `categories`/`products` fields are maps from UUID to row, with soft-delete timestamps. Categories also hold an `Outbox` whose `messages` sequence stands for the queue. Each handler method is proved equal to a pure transition function (`StoreOutcome`, `UpdateOutcome`, `DestroyOutcome`), and the lemmas state what those transitions promise.
- **`SearchController`**: the comma-list parsing, the query rules, the six conjunctive filters (including the bracketed `price[start]`-style bounds the rules never see), page-size clamping, pagination and the product formatting, all as pure functions.
- **`Postgres`**: the database behaviours the handlers and filters depend on:
  - PostgreSQL's `uuid` input syntax, and how a `uuid` column prints its values;
  - `where id = ?` on a `uuid` key (`Find`): the text is cast to `uuid` (an error when it cannot be) and compared as a value, so `{...}`, capitals and the hyphen-free form find the same row;
  - `LIKE` matching with its `%`, `_` and `\` characters.

  Table keys are kept in the form PostgreSQL prints them (`Postgres.Stored`), as every id read back from the database is.
- **`CategoryRequest`** and **`ProductRequest`**: the validation rules and the SQL-injection screen.
- **`ValidateApiKey`**: the `Authorization` header decision, including PHP's `str_replace` semantics.
- **`Helpers`**: `toMilliseconds`, `validate_balance`, and `format_decimal`/`format_currency` over integer cents, each with a round-trip proof.
- **`ApiResponse`** and **`ApiSearchResponse`**: the JSON envelope builders.
- **`SyncPipeline`**: ties the write side to the consumer. While every publish succeeds, replaying the events a category handler publishes keeps the query `categories` table equal to the projection of the primary's active rows. A failed publish after `destroy`'s commit breaks that.

PHP values (`json_decode(..., true)` output and response payloads) are the `Common.PhpValue` datatype. The module also models:

- PHP's `isset`, truthiness and loose `==` against a word literal;
- `trim`;
- PCRE's `\s` and `\b`;
- the RFC 4122 text form of a UUID (section 3 of RFC 4122), which is what `Str::isUuid` accepts.

Money is integer cents, since the price column is `decimal(10,2)`. Instants are epoch seconds. Things outside the program are parameters:

- the clock;
- the UUIDs `HasUuids` generates;
- whether a broker publish, a log write or a query-database write fails;
- the sequence of connection outcomes.

## Model

| member | source | states |
|---|---|---|
| ApiResponse.SuccessResponse | app/Traits/ApiResponse.php:10-17 | the response carries the given code (200 by default) and a body with exactly `status`, `message`, `data`, where status is "success" |
| ApiResponse.ErrorResponse | app/Traits/ApiResponse.php:22-35 | the response carries the given code (400 by default) and status "error"; an array argument goes under `errors` with no `message`, anything else under `message` with no `errors` |
| ApiResponse.RespondWithToken | app/Traits/ApiResponse.php:40-50 | code 200; `data` holds exactly `access_token` (the token), `token_type` "bearer" and `expires_in`, which is the ttl in minutes times 60 |
| ApiResponse.SuccessRoundTrip | app/Traits/ApiResponse.php:10-17 | a client reading a success envelope gets back exactly the payload and message it was built from |
| ApiResponse.ErrorRoundTrip | app/Traits/ApiResponse.php:22-35 | a client reading an error envelope gets back the argument, as `errors` for an array and as `message` otherwise |
| ApiResponse.SuccessIsNotError | app/Traits/ApiResponse.php:10-35 | no success body equals any error body |
| ApiSearchResponse.SuccessResponse | app/Traits/ApiSearchResponse.php:10-23 | a payload with non-null `data` and `paging` is returned unchanged; any other payload is wrapped as `{status: "success", message, data}`; the code is the given one |
| ApiSearchResponse.ErrorResponse | app/Traits/ApiSearchResponse.php:28-42 | status "error" and the given code (400 by default); an array keeps `message` "Validation failed" and adds it under `errors`; anything else replaces `message` and adds no `errors` |
| ApiSearchResponse.RespondWithToken | app/Traits/ApiSearchResponse.php:47-57 | equal to `ApiResponse.RespondWithToken` for every token and ttl |
| ApiSearchResponse.SuccessAgreesWithApiResponse | app/Traits/ApiSearchResponse.php:18-22 | outside the pass-through case both traits build the same success response |
| ApiSearchResponse.ErrorAgreesWithApiResponse | app/Traits/ApiSearchResponse.php:28-42 | for a non-array message both traits build the same error response; for any message a client reads the same errors or message from both |
| ApiSearchResponse.PassThroughKeepsPaging | app/Traits/ApiSearchResponse.php:12-15 | a `{data, paging}` payload keeps both keys at the top level of the response |
| Helpers.ToMilliseconds | app/Helpers/functions.php:61-68 | the result is a multiple of 1000 whose quotient by 1000 is the epoch second |
| Helpers.ToMillisecondsMonotone | app/Helpers/functions.php:67 | the conversion preserves order and distinctness in both directions |
| Helpers.FormatDecimal | app/Helpers/functions.php:13-16 | the text ends in '.' plus two digits, and has no other '.' and no ',' (no grouping) |
| Helpers.FormatDecimalRoundTrip | app/Helpers/functions.php:15 | parsing `format_decimal`'s text gives back the amount in cents, sign included |
| Helpers.GroupedRoundTrip | app/Helpers/functions.php:28 | the integer part is a leading group of one to three digits followed by ".ddd" groups, and it reads back as the number |
| Helpers.FormatCurrencyShape | app/Helpers/functions.php:28 | `format_currency` writes ',' plus two digits at the end, preceded by well-formed '.'-separated thousands groups |
| Helpers.FormatCurrencyRoundTrip | app/Helpers/functions.php:28 | parsing `format_currency`'s text gives back the amount in cents, sign included |
| Helpers.ValidateBalance | app/Helpers/functions.php:41-51 | success (true) exactly when balance >= amount; otherwise an `InsufficientBalanceException` with code 422 whose message contains both amounts formatted by `format_decimal` |
| ValidateApiKey.StripWithoutOccurrence | app/Http/Middleware/ValidateApiKey.php:15 | text with no "Bearer " is left unchanged by `str_replace` |
| ValidateApiKey.StripSplits | app/Http/Middleware/ValidateApiKey.php:14-16 | every occurrence is removed wherever it stands: stripping `s + "Bearer " + t` is stripping `s`, then `t` |
| ValidateApiKey.Handle | app/Http/Middleware/ValidateApiKey.php:10-30 | the request passes exactly when the log call succeeds and the stripped token is truthy and equals the configured key; every refusal is 401 "Token not provided" or "Invalid token"; "Token not provided" exactly when the log call succeeds and the header is missing or the stripped token is falsy |
| ValidateApiKey.MissingHeader | app/Http/Middleware/ValidateApiKey.php:13-20 | no header gives 401 "Token not provided" |
| ValidateApiKey.FalsyTokens | app/Http/Middleware/ValidateApiKey.php:14-20 | the headers "Bearer ", "Bearer 0" and "0" give 401 "Token not provided" |
| ValidateApiKey.KeyAccepted | app/Http/Middleware/ValidateApiKey.php:14-26 | the key passes bare, after "Bearer ", and after "Bearer " twice |
| ValidateApiKey.WrongKey | app/Http/Middleware/ValidateApiKey.php:22-24 | a truthy token that differs from the key gives 401 "Invalid token" |
| ValidateApiKey.ExceptionIsInvalidToken | app/Http/Middleware/ValidateApiKey.php:27-29 | an exception inside the handler always gives 401 "Invalid token" |
| CategoryRequest.NameErrors | app/Http/Requests/CategoryRequest.php:26-40 | no message exactly when the name is a non-blank string of at most 255 characters over `[a-zA-Z0-9\s-]` that no other active category holds; a missing, null or blank name gives only the `required` message, since that implicit rule stops the rest; `unique` is reported only when `max` and `regex` pass, and then alone |
| CategoryRequest.ShapeErrors | app/Http/Requests/CategoryRequest.php:30-31 | a non-blank name gets the `max` message exactly when it is longer than 255 characters and the `regex` message exactly when it leaves the charset, and no other message |
| CategoryRequest.Validate | app/Http/Requests/CategoryRequest.php:24-119 | accepted (returning the name) exactly when the injection screen and every rule pass; every failure is a 422 `{status: "error", errors}`; a name the screen matches gets the "invalid characters or SQL keywords" body |
| CategoryRequest.ValidateForUpdate | app/Http/Requests/CategoryRequest.php:36-40 | the update rule with the row the path's id names ignored, that id compared as a `uuid` value: acceptance exactly as for `Validate` with that row excused, and a category that keeps a name no other active category holds is accepted, whatever spelling of its id the path uses |
| CategoryRequest.UpdateKeepingNameRejectedAsWritten | app/Http/Requests/CategoryRequest.php:39 | as written, an update that repeats an active category's own name is refused |
| CategoryRequest.QuoteRejected | app/Http/Requests/CategoryRequest.php:100 | a `'`, `"` or `;` anywhere gives the injection failure |
| CategoryRequest.KeywordRejected | app/Http/Requests/CategoryRequest.php:100-102 | any keyword of the statement, clause or object lists, standing as a whole word in any letter case, gives the injection failure |
| CategoryRequest.KeywordNeedsBoundary | app/Http/Requests/CategoryRequest.php:101-103 | a keyword followed by a word character (as in "Updated") is not a match |
| CategoryRequest.ConnectiveRejected | app/Http/Requests/CategoryRequest.php:104 | `or` or `and` starting a word and followed by whitespace and a quote or digit, anywhere in the name, gives the injection failure |
| CategoryRequest.ConnectiveIsCaseSensitive | app/Http/Requests/CategoryRequest.php:104 | an upper-case "OR" is never a connective match |
| CategoryRequest.DoubleHyphenRejected | app/Http/Requests/CategoryRequest.php:105 | a name containing "--" gives the injection failure |
| CategoryRequest.SingleHyphenInCharset | app/Http/Requests/CategoryRequest.php:31 | two names within the charset joined by a single hyphen are within it too |
| CategoryRequest.PostRejectsTakenName | app/Http/Requests/CategoryRequest.php:36-37 | on POST, a name held by an active category is refused |
| CategoryRequest.DeletedNamesAreFree | app/Http/Requests/CategoryRequest.php:37 | a soft-deleted category does not affect whether a name is taken |
| ProductRequest.FailingFields | app/Http/Requests/ProductRequest.php:16-22 | each field is reported exactly when its rule fails: sku required and unique over all rows; name required, at most 255 characters, over `[a-zA-Z0-9\s]`; price and stock at least 0; category_id a UUID (`Str::isUuid`) whose `uuid` value is a key of `categories`, in either letter case |
| ProductRequest.Validate | app/Http/Requests/ProductRequest.php:14-23 | accepted exactly when no field fails, and the validated fields are the input's; otherwise the failing set, which is non-empty |
| ProductRequest.UpperCaseCategoryPasses | app/Http/Requests/ProductRequest.php:21 | a category id written in capitals passes `uuid|exists` exactly when the id as stored is a category |
| ProductRequest.ValidateIgnoring | app/Http/Requests/ProductRequest.php:17 | the same rules with one row excused from `unique`: accepted exactly when no field fails, and the accepted SKU is held by no other row |
| ProductRequest.ValidateForUpdate | app/Http/Requests/ProductRequest.php:17 | the update rule with the product's own id excused: a product that keeps its own SKU (held by no other row), with every other field valid, is accepted |
| ProductRequest.UpdateKeepingSkuRejectedAsWritten | app/Http/Requests/ProductRequest.php:17 | as written, an update body that repeats the product's own SKU fails on `sku` |
| ProductRequest.SkuRuleSubsumesActiveCheck | app/Http/Requests/ProductRequest.php:17 | an accepted SKU is held by no active product, so the controller's own duplicate check cannot fire |
| ProductRequest.HyphenRejected | app/Http/Requests/ProductRequest.php:18 | a hyphen anywhere fails the product name rule |
| ProductRequest.DeletedSkuStillTaken | app/Http/Requests/ProductRequest.php:17 | a SKU held only by a soft-deleted product still fails validation |
| PrimaryDatabase.Outbox.Publish | app/Helpers/RabbitMQProducer.php:10-27 | a publish either appends exactly the message to the queue or fails and leaves it unchanged |
| CategoriesController.CategoriesController.Store | app/Http/Controllers/CategoriesController.php:99-137 | the response, the new table and the appended events are those of `StoreOutcome`; products are untouched |
| CategoriesController.CategoriesController.Update | app/Http/Controllers/CategoriesController.php:181-233 | the response, the new table and the appended events are those of `UpdateOutcome`, which finds the row by the id's `uuid` value: 500 when the id is not `uuid` input, 404 when no active row has that value, then 422 when the id is not in `Str::isUuid` form; products are untouched |
| CategoriesController.CategoriesController.Destroy | app/Http/Controllers/CategoriesController.php:261-289 | the response, the new table and the appended events are those of `DestroyOutcome`, which looks the row up as `update` does (500, 404, then 422); products are untouched |
| CategoriesController.StoreRejectsDuplicate | app/Http/Controllers/CategoriesController.php:105-108 | a name held by an active category gives 422 with `errors.name`; the table is unchanged and nothing is published |
| CategoriesController.StoreCreates | app/Http/Controllers/CategoriesController.php:110-131 | success is 201; exactly one new active row carries the name, old rows are kept, and exactly one `create` event `{id, name, created_at, updated_at}` is published |
| CategoriesController.StoreIsAtomic | app/Http/Controllers/CategoriesController.php:101-136 | `store` changes the table only when it publishes; it publishes at most one event, and does so exactly when it answers 201; a failed publish leaves the table as it was |
| CategoriesController.UpdateIsAtomic | app/Http/Controllers/CategoriesController.php:193-232 | the same for `update`, whose success is 200 |
| CategoriesController.NotFoundComesFirst | app/Http/Controllers/CategoriesController.php:184-191 | an id that is `uuid` input but whose value no active category has gives 404 from `update`, and likewise from `destroy` (lines 264-271), whatever its spelling; nothing changes and nothing is published |
| CategoriesController.CastFailureAnswers500 | app/Http/Controllers/CategoriesController.php:184-232 | an id that is not `uuid` input makes `find` raise; `update` and `destroy` (lines 264-288) then answer 500 "Failed to update/delete category", change nothing and publish nothing |
| CategoriesController.SpellingIrrelevant | app/Http/Controllers/CategoriesController.php:184-191 | two ids with the same `uuid` value that `Str::isUuid` judges alike get the same answer, table and events from `update` and `destroy` |
| CategoriesController.UpperCaseIdFound | app/Http/Controllers/CategoriesController.php:184-191 | an id written in capitals gets the same answer, table and events as the id itself |
| CategoriesController.BracedIdRejected | app/Http/Controllers/CategoriesController.php:184-191 | the braced spelling `{id}` of an active category's id is found by `find` and then refused with 422 "Invalid UUID format" by `update` and `destroy` (lines 264-271); nothing changes and nothing is published |
| CategoriesController.UpdateToOwnName | app/Http/Controllers/CategoriesController.php:196-206 | renaming a category to its current name succeeds (200), leaves the table as it was, and publishes the row |
| CategoriesController.UpdateChangesOnlyName | app/Http/Controllers/CategoriesController.php:204-227 | a successful update finds its row by the id's `uuid` value, the id being in `Str::isUuid` form; it keeps every other row and the row's creation and deletion times; it sets the name, publishes one `update` event with the full row, and nests the answer under `data.data` |
| CategoriesController.DestroySoftDeletes | app/Http/Controllers/CategoriesController.php:273-283 | success is 204 with a null body; the row stays, with its name, flagged deleted; other rows are kept; one `delete` event carrying only the id is published |
| CategoriesController.DestroyPublishFailureKeepsDelete | app/Http/Controllers/CategoriesController.php:274-287 | when the post-commit publish fails the answer is 500, yet the row stays soft-deleted and no event is published |
| CategoriesController.StorePreservesValid | app/Http/Controllers/CategoriesController.php:105-112 | `store` keeps the table invariant: every key is a UUID in the form PostgreSQL prints it and no two active rows share a name |
| CategoriesController.UpdatePreservesValid | app/Http/Controllers/CategoriesController.php:196-206 | `update` keeps the table invariant |
| CategoriesController.DestroyPreservesValid | app/Http/Controllers/CategoriesController.php:274 | `destroy` keeps the table invariant |
| ProductsController.LoadCategory | app/Models/Product.php:93-101 | the category is found exactly when it exists and is not soft-deleted, and it is that row |
| ProductsController.ProductsController.Store | app/Http/Controllers/ProductsController.php:118-152 | the response and the new table are those of `StoreOutcome`; categories are untouched |
| ProductsController.ProductsController.Show | app/Http/Controllers/ProductsController.php:190-212 | the response is `ShowOutcome`'s, which finds the product through `ActiveProduct`; nothing changes |
| ProductsController.ProductsController.Update | app/Http/Controllers/ProductsController.php:265-293 | the response and the new table are those of `UpdateOutcome`, which finds the product through `ActiveProduct`; categories are untouched |
| ProductsController.ProductsController.Destroy | app/Http/Controllers/ProductsController.php:331-353 | the response and the new table are those of `DestroyOutcome`: 422 for an id not in `Str::isUuid` form, then a lookup through `ActiveProduct`; categories are untouched |
| ProductsController.ActiveProduct | app/Http/Controllers/ProductsController.php:340-343 | a product is found only for an id in `Str::isUuid` form (the `HasUuids` binding answers 404 before any query otherwise); a found product is active and has the id's `uuid` value; when none is found, no active product stored under a printed key has that value |
| ProductsController.StoreRejectsActiveDuplicate | app/Http/Controllers/ProductsController.php:124-126 | a SKU held by an active product gives 422 with `errors.sku`, and no row is added |
| ProductsController.StoreCreates | app/Http/Controllers/ProductsController.php:128-146 | 201 exactly when the database accepts the row (the foreign key compares `uuid` values) and the category with the sent id's value is active; then the table gains exactly that row, holding that category's key, and the answer embeds the category's id and name and `createdAt` in milliseconds; `price` and `stock` are echoed exactly as the client sent them |
| ProductsController.ShowAfterStoreReadsColumns | app/Http/Controllers/ProductsController.php:132-146 | after a successful `store`, `show` of the new product answers 200 with the price as the decimal column's text and the stock as an integer, while `store` itself answered the price as sent |
| ProductsController.UpdateOverwrites | app/Http/Controllers/ProductsController.php:268-287 | a 200 update finds the product by the id's `uuid` value and writes every validated field of that product only; it keeps the id, the creation time and the active flag |
| ProductsController.DestroyChecksUuidFirst | app/Http/Controllers/ProductsController.php:335-337 | a malformed id gives 422 before any lookup, and nothing changes |
| ProductsController.DestroyNotFound | app/Http/Controllers/ProductsController.php:340-343 | an id in `Str::isUuid` form whose `uuid` value no active product has gives 404, in any spelling, and nothing changes |
| ProductsController.SpellingIrrelevant | app/Http/Controllers/ProductsController.php:335-343 | two ids with the same `uuid` value that `Str::isUuid` judges alike get the same answer and table from `show`, `update` and `destroy` |
| ProductsController.UpperCaseIdFound | app/Http/Controllers/ProductsController.php:335-343 | a product id written in capitals gets the same answer and table from `show`, `update` and `destroy` as the id itself |
| ProductsController.DestroySoftDeletes | app/Http/Controllers/ProductsController.php:346-348 | success is 204 with `data: null`; the row stays, flagged deleted, and other rows are kept |
| ProductsController.FailedStoreChangesNothing | app/Http/Controllers/ProductsController.php:147-151 | a `store` that does not answer 201 leaves the table as it was |
| ProductsController.FailedUpdateChangesNothing | app/Http/Controllers/ProductsController.php:288-292 | an `update` that does not answer 200 leaves the table as it was |
| ProductsController.FailedDestroyChangesNothing | app/Http/Controllers/ProductsController.php:331-353 | a `destroy` that does not answer 204 leaves the table as it was |
| ProductsController.ValidatedStore | app/Http/Controllers/ProductsController.php:118-129 | after `ProductRequest` accepts a body, `store` succeeds exactly when the category the sent id names (by `uuid` value) is active and the values fit the columns |
| Postgres.UuidBytes | app/Http/Controllers/SearchController.php:303 | reading byte i onwards yields 2*(16-i) lower-case hexadecimal digits |
| Postgres.PgUuid | app/Http/Controllers/SearchController.php:303 | a readable `uuid` is 32 hexadecimal digits |
| Postgres.StandardUuidAccepted | app/Http/Controllers/SearchController.php:192 | every text `Str::isUuid` accepts is readable as a `uuid`, and reads as its own hexadecimal digits, lower-cased |
| Postgres.PrintedReadsBack | database/migrations/2025_04_11_014215_create_categories_table.php:15 | the 8-4-4-4-12 lower-case text PostgreSQL prints for a `uuid` reads back as the same value |
| Postgres.Key | database/migrations/2025_04_11_014215_create_categories_table.php:15 | the key a `uuid` column holds for a text exists exactly when the text is `uuid` input; it has the text's value and is in `Str::isUuid` form |
| Postgres.StoredIsUuid | database/migrations/2025_04_11_041700_create_products_table.php:15 | a key in printed form is in `Str::isUuid` form and has no brace |
| Postgres.Find | app/Http/Controllers/CategoriesController.php:184 | `where id = ?` raises exactly when the text is not `uuid` input; a found key is in the table with the text's value; when nothing is found, no printed key has that value |
| Postgres.FindBySameValue | app/Http/Controllers/CategoriesController.php:184 | two texts with the same `uuid` value find the same row |
| Postgres.BracesIgnored | app/Http/Controllers/CategoriesController.php:184 | braces around a text do not change the `uuid` value it is read as |
| Postgres.UpperKeepsUuid | app/Http/Controllers/ProductsController.php:335 | `Str::isUuid` accepts a UUID written in capitals |
| Postgres.UuidIgnoresCase | app/Http/Controllers/SearchController.php:303 | upper-casing the text does not change the `uuid` read from it, nor whether it is readable |
| Postgres.PercentMatchesAll | app/Http/Controllers/SearchController.php:260 | `%` matches every text |
| Postgres.LiteralPrefix | app/Http/Controllers/SearchController.php:260 | a literal term followed by `%` matches exactly the texts it starts |
| Postgres.LiteralTermIsSubstring | app/Http/Controllers/SearchController.php:260 | for a literal term, `LIKE '%term%'` holds exactly when the text contains the term |
| Postgres.UnderscoreMatchesAnyText | app/Http/Controllers/SearchController.php:260 | `LIKE '%_%'` holds exactly for non-empty texts |
| SearchController.Explode | app/Http/Controllers/SearchController.php:171 | `explode(',')` yields at least one piece, and no piece contains a comma |
| SearchController.JoinExplode | app/Http/Controllers/SearchController.php:171 | joining the pieces with ',' gives back the text |
| SearchController.ExplodeJoin | app/Http/Controllers/SearchController.php:171 | splitting comma-free pieces joined with ',' gives back the pieces |
| SearchController.FilterKeepsExactly | app/Http/Controllers/SearchController.php:172-174 | the filtered list holds exactly the accepted elements of the input |
| SearchController.FilterAppend | app/Http/Controllers/SearchController.php:172-174 | filtering keeps order: it distributes over concatenation |
| SearchController.ParseCommaList | app/Http/Controllers/SearchController.php:169-176 | an unset parameter gives []; otherwise the result holds exactly the comma pieces that are not blank or "0" after trimming, untrimmed |
| SearchController.StartErrors | app/Http/Controllers/SearchController.php:187-189 | a range start has messages exactly when it is present and not a non-negative number |
| SearchController.EndErrors | app/Http/Controllers/SearchController.php:188-199 | a range end has messages exactly when it is present and is malformed, negative, or fails `gte`: `gte` fails with no start, compares two numbers as numbers, and otherwise measures malformed text by its length |
| SearchController.PageErrors | app/Http/Controllers/SearchController.php:195 | `page` has messages exactly when it is present and not an integer of at least 1 |
| SearchController.SizeErrors | app/Http/Controllers/SearchController.php:196-201 | `size` has messages exactly when it is present and not an integer in 1..100 |
| SearchController.ErrorBag | app/Http/Controllers/SearchController.php:182-205 | the message bag is empty exactly when the query passes every rule |
| SearchController.AddErrors | app/Http/Controllers/SearchController.php:204-205 | a parameter appears in the bag exactly when it was there already or has messages, and then with those messages |
| SearchController.MalformedStartComparedByLength | app/Http/Controllers/SearchController.php:187-188 | with a malformed `price_start`, `price_start` has messages, and a non-negative `price_end` has none exactly when it is at least the start's length in units (`price_start=abc&price_end=5` leaves `price_end` without messages) |
| SearchController.Filtered | app/Http/Controllers/SearchController.php:209-217 | the result holds exactly the input rows that are active and satisfy all six filters (names by `LIKE`, ids as `uuid` values, bounds bracketed-first) |
| SearchController.NoFilterKeepsActive | app/Http/Controllers/SearchController.php:212-217 | with no filter supplied, a row is kept exactly when it is active |
| SearchController.DroppingAFilterWidens | app/Http/Controllers/SearchController.php:212-217 | the filters are conjunctive: a kept row stays kept when any one filter is dropped |
| SearchController.RangesAreInclusive | app/Http/Controllers/SearchController.php:271-293 | a value equal to both bounds passes; one below the start or above the end does not |
| SearchController.LiteralNameTerm | app/Http/Controllers/SearchController.php:257-261 | a `name` term with no `%`, `_` or `\` keeps exactly the products whose name contains it |
| SearchController.UnderscoreNameMatchesAll | app/Http/Controllers/SearchController.php:260 | `name=_` keeps exactly the products with a non-empty name, since `_` is a wildcard |
| SearchController.Bound | app/Http/Controllers/SearchController.php:271-279 | a present bracketed bound (`price[start]`, ...) is the one used, and the flat parameter is used only when it is absent |
| SearchController.BracketedBoundsBypassRules | app/Http/Controllers/SearchController.php:182-199 | bracketed price bounds change nothing in validation, yet every kept row lies within them |
| SearchController.UpperCaseIdMatches | app/Http/Controllers/SearchController.php:299-305 | a product is found by its category id written in capitals |
| SearchController.PerPageAfterValidation | app/Http/Controllers/SearchController.php:220-221 | after validation the page size is `size` (10 by default), within 1..100, and the page is at least 1 |
| SearchController.PageOf | app/Http/Controllers/SearchController.php:222 | the page holds at most `perPage` items, which are the listing's items from offset (page-1)*perPage on, and exactly as many as remain up to `perPage` |
| SearchController.PagesTile | app/Http/Controllers/SearchController.php:222 | pages 1..n together are the first n*perPage items: nothing skipped, nothing repeated |
| SearchController.FormatAll | app/Http/Controllers/SearchController.php:327-343 | formatting succeeds exactly when every product's category is active; each item is that product formatted |
| SearchController.FormatMatchesShow | app/Http/Controllers/SearchController.php:329-341 | a listed product is formatted exactly as `show` formats it |
| SearchController.Run | app/Http/Controllers/SearchController.php:155-240 | every failure is 422 or 500; it is 422 exactly when the query breaks a rule; a valid query whose id pieces or bracketed bounds the database cannot read is the 500 "Failed to search products" |
| SearchController.CategoryIdErrors | app/Http/Controllers/SearchController.php:191-192 | no message exactly when the id filter is off or every piece is a UUID held by some category row |
| SearchController.CheckedIdsNeverFailCast | app/Http/Controllers/SearchController.php:299-305 | an id list with no message never makes the `uuid` cast fail |
| SearchController.RunChecked | app/Http/Controllers/SearchController.php:182-205 | with the id pieces validated: 422 exactly when a rule fails or some id piece is not a UUID of a category; otherwise as `Run`; and a 500 never comes from a malformed id |
| SearchController.MalformedCategoryIdFailsAsWritten | app/Http/Controllers/SearchController.php:299-305 | as written, a valid query with an id piece that is not `uuid` input is answered with the 500 |
| SearchController.InvalidCategoryIdFailsAsWritten | app/Http/Controllers/SearchController.php:299-305 | as written, `category_id=invalid-uuid` is answered with 500 |
| SearchController.TrailingCommaFailsAsWritten | app/Http/Controllers/SearchController.php:302 | as written, a trailing comma after the ids leaves an empty piece and the answer is the 500 |
| SearchController.MalformedCategoryIdRejected | app/Http/Controllers/SearchController.php:191-192 | with the id check, every id list that makes the written code fail is answered 422 |
| SearchController.MalformedBracketFails | app/Http/Controllers/SearchController.php:269-293 | a bracketed bound that is not a number passes the rules and the answer is the 500 |
| SearchController.RunSucceeded | app/Http/Controllers/SearchController.php:204-234 | a successful run had a valid query, and its payload is the formatted page with `size`, `total` (the number of matches) and `current` |
| SearchController.PageRowsMatch | app/Http/Controllers/SearchController.php:209-222 | the page holds at most `perPage` rows, each an active input row matching every filter |
| SearchController.PagingReported | app/Http/Controllers/SearchController.php:227-233 | `paging.size` is the effective page size, `paging.total` the number of matching rows, and `paging.current` the page |
| SearchController.ShownCreatedAt | app/Http/Controllers/SearchController.php:340 | each listed product's `createdAt` is its creation time in milliseconds |
| SearchController.AsWrittenNestsPaging | app/Http/Controllers/SearchController.php:227-234 | as written, a successful search answers 200 with no top-level `paging`; the payload sits under `data` |
| SearchController.SearchAnswersPaging | app/Http/Controllers/SearchController.php:227-234 | with the search envelope and the id check, a successful search answers 200 with the payload itself, `data` and `paging` at the top level |
| SearchController.RangeRulesReject | app/Http/Controllers/SearchController.php:187-206 | an end below its start, or an end with no start, gives 422 |
| SearchController.PagingRulesReject | app/Http/Controllers/SearchController.php:195-206 | a `size` outside 1..100 or a `page` below 1 gives 422 |
| RabbitMQConsumer.Upsert | app/Services/RabbitMQConsumer.php:163-168 | `updateOrInsert` by id: the row keyed by `data.id` holds every column of `data`; an existing row keeps its other columns; no other row changes |
| RabbitMQConsumer.Delete | app/Services/RabbitMQConsumer.php:210-213 | the keyed row is gone and every other row is unchanged |
| RabbitMQConsumer.RouteOf | app/Services/RabbitMQConsumer.php:99-139 | an undecodable message, or one without `action` or `data`, is malformed |
| RabbitMQConsumer.UpsertHandler | app/Services/RabbitMQConsumer.php:154-175 | the upsert succeeds exactly when `name` and `id` are set and the write does not fail, and its effect is `Upsert` |
| RabbitMQConsumer.DeleteHandler | app/Services/RabbitMQConsumer.php:200-222 | the delete succeeds exactly when `id` is set and the write does not fail, and its effect is `Delete` |
| RabbitMQConsumer.Process | app/Services/RabbitMQConsumer.php:96-152 | every delivery gets exactly one outcome, ack or reject-with-requeue, and a requeued delivery leaves the store unchanged |
| RabbitMQConsumer.TypeErrorEscapesAsWritten | app/Services/RabbitMQConsumer.php:107-113 | as written, a `categories` message whose `data` is a string gets neither ack nor reject |
| RabbitMQConsumer.ArrayActionAckedTwiceAsWritten | app/Services/RabbitMQConsumer.php:124-143 | as written, a `products` message whose `action` is an array is acked and then rejected |
| RabbitMQConsumer.ProcessAgreesAsWritten | app/Services/RabbitMQConsumer.php:96-152 | outside those two cases the code as written and the intended behaviour agree |
| RabbitMQConsumer.MalformedRequeued | app/Services/RabbitMQConsumer.php:99-103 | an undecodable message, or one without `action` or `data`, is requeued and the store is unchanged |
| RabbitMQConsumer.MessageRoute | app/Services/RabbitMQConsumer.php:105-139 | the table picks the target (any other table is unknown); create/update upsert, delete deletes; any other action is unknown on `categories` and falls through on `products` |
| RabbitMQConsumer.UnknownTableOrAction | app/Services/RabbitMQConsumer.php:109-139 | an unknown table is requeued, as is an unknown action on `categories`; an unknown action on `products` is acked; none changes the store |
| RabbitMQConsumer.CreateIsUpdate | app/Services/RabbitMQConsumer.php:111-117 | `create` and `update` have the same outcome and effect |
| RabbitMQConsumer.UpsertEffect | app/Services/RabbitMQConsumer.php:163-168 | a well-formed upsert is acked; its row holds every field of `data`, and the other table and all other rows are unchanged |
| RabbitMQConsumer.UpsertNeedsName | app/Services/RabbitMQConsumer.php:159-161 | an upsert whose data lacks `name` is requeued and changes nothing |
| RabbitMQConsumer.DeleteEffect | app/Services/RabbitMQConsumer.php:205-213 | a delete with `id` is acked and leaves no row with that id, other rows kept, and an absent id changes nothing; a delete without `id` is requeued and changes nothing |
| RabbitMQConsumer.ProcessEffect | app/Services/RabbitMQConsumer.php:141-150 | a delivery either completes its handler and is acked, or leaves the store exactly as it was |
| RabbitMQConsumer.UpsertIdempotent | app/Services/RabbitMQConsumer.php:163-168 | upserting the same data twice equals upserting it once |
| RabbitMQConsumer.ProcessIdempotent | app/Services/RabbitMQConsumer.php:96-152 | delivering the same message twice leaves the store as delivering it once |
| RabbitMQConsumer.UpsertKeepsKeys | app/Services/RabbitMQConsumer.php:165-167 | an upsert keeps every row under the value of its own `id` column |
| RabbitMQConsumer.ProcessKeepsKeys | app/Services/RabbitMQConsumer.php:96-152 | every delivery keeps both query tables keyed by their rows' ids |
| RabbitMQConsumer.Consumer.InitializeConnection | app/Services/RabbitMQConsumer.php:25-55 | 1 to 3 attempts; connected exactly when the last attempt succeeded, every earlier one having failed; 5 seconds slept between attempts only; after three failures it gives up unconnected; the tables are untouched |
| RabbitMQConsumer.Consumer.InsertOrUpdate | app/Services/RabbitMQConsumer.php:154-198 | the tables become `UpsertHandler`'s result when it succeeds and stay as they were when it throws |
| RabbitMQConsumer.Consumer.DeleteRow | app/Services/RabbitMQConsumer.php:200-246 | the tables become `DeleteHandler`'s result when it succeeds and stay as they were when it throws |
| RabbitMQConsumer.Consumer.ProcessMessage | app/Services/RabbitMQConsumer.php:96-152 | the outcome and the new tables are those of `Process` |
| SyncPipeline.ProjectionKeyedById | app/Http/Controllers/CategoriesController.php:115-124 | the projection of the primary's active categories is keyed by each row's own `id`, as the consumer's upserts keep it |
| SyncPipeline.ReplayUpsert | app/Services/RabbitMQConsumer.php:109-117 | consuming a category `create` or `update` event upserts exactly its data into the query `categories` table |
| SyncPipeline.ReplayDelete | app/Services/RabbitMQConsumer.php:118-119 | consuming a category `delete` event removes exactly that id from the query table |
| SyncPipeline.ProjectionPut | app/Http/Controllers/CategoriesController.php:110-112 | writing an active row into the primary writes its event data into the projection |
| SyncPipeline.ProjectionDrop | app/Http/Controllers/CategoriesController.php:274 | soft-deleting a row drops it from the projection |
| SyncPipeline.UpsertReplaces | app/Services/RabbitMQConsumer.php:163-168 | an upsert of data with the same columns as the existing row replaces that row by the data |
| SyncPipeline.ProjectionUpsert | app/Http/Controllers/CategoriesController.php:204-218 | upserting an active row's event data into the projection gives the projection of the primary with that row written |
| SyncPipeline.StoreCreatedKeepsSync | app/Http/Controllers/CategoriesController.php:110-126 | consuming the `create` event of a successful store turns the old projection into the new one |
| SyncPipeline.StoreKeepsSync | app/Http/Controllers/CategoriesController.php:99-137 | for every outcome of `store`, consuming its events keeps the query table equal to the projection of the primary |
| SyncPipeline.UpdateKeepsSync | app/Http/Controllers/CategoriesController.php:181-233 | for every outcome of `update`, consuming its events keeps the query table equal to the projection |
| SyncPipeline.DestroyKeepsSync | app/Http/Controllers/CategoriesController.php:261-289 | when its publish succeeds, `destroy`'s event keeps the query table equal to the projection |
| SyncPipeline.DestroyPublishFailureDiverges | app/Http/Controllers/CategoriesController.php:274-287 | when `destroy`'s publish fails the answer is 500 and the query table keeps a row the primary no longer shows |
| SyncPipeline.ProductStorePublishesNothing | app/Http/Controllers/ProductsController.php:118-152 | a product `store` publishes nothing on `data_sync`, whatever it does to the primary (a 201 adds the new row) |

## Left out

- `RabbitMQProducer::publish` is modelled only as `Outbox.Publish`: it appends the message, or fails as one exception. The AMQP connection, queue declaration and channel teardown are network I/O.
- `RabbitMQConsumer::consume`, `close`, the reconnect-by-recursion and `app/Console/Commands/ConsumeRabbitMQ.php` are broker plumbing. `sleep` in `initializeConnection` becomes the `slept` counter. The exception thrown after the third failure becomes "not connected after three attempts".
- The consumer's `DB::beginTransaction`/`commit`/`rollBack` run on the default connection, not the query connection. The model gives them no effect beyond the single write. Every failure of the query database (for example the foreign key's `restrict`) is the `storeFails` flag.
- JSON encoding and decoding are taken as lossless. `SyncPipeline.Replay` hands the published values to the consumer as decoded.
- Timestamps in events are epoch seconds. Carbon's ISO-8601 text and PostgreSQL's parsing of it back into `timestamp` columns are not modelled.
- Logging is left out, except in two places:
  - the middleware's `Log::info`, whose failure is the `logFails` parameter;
  - the post-ack `Log::info` in `processMessage`, whose array-to-string warning is finding 2 below.
- The validator engine, Eloquent and `paginate` are modelled only through the rules and queries these files state.
  - Messages of rules without a custom message are shown by their translation keys (`validation.min`, `validation.numeric`, ...), because the language files are not part of this model.
  - SearchController.EndErrors, StartErrors, PageErrors and SizeErrors state only when a parameter has messages, not their exact text or order.
- CategoryRequest.Validate: a `name` given as a number, boolean or array is not modelled. The input is missing, null or a string.
- ProductRequest.Validate: `numeric` and `integer` are modelled by the type of the parsed value (`Input.Invalid` for anything else). Prices with more than two decimals are not representable in integer cents.
- Helpers.FormatDecimal and Helpers.FormatCurrency take integer cents. `number_format`'s rounding of floats and its handling of `null` are not modelled.
- Helpers.ValidateBalance compares integer amounts. The `(float)` casts are not modelled.
- Helpers.ToMilliseconds takes epoch seconds. Carbon's parsing of date strings happens before it and is not modelled.
- ProductsController.ProductsController.Update sets `updated_at` to the clock on every successful update. Eloquent skips the write, and the touch, when no field changes. No contract mentions `updated_at`.
- Route-model binding in `show` and `update` is modelled as `HasUuids`' `Str::isUuid` check followed by a lookup by `uuid` value among active products (`ProductsController.ActiveProduct`). The framework's 404 body is not modelled (`ModelNotFound` has a null body).
- Laravel's global `TrimStrings` and `ConvertEmptyStringsToNull` middleware run before every handler. Category and product names, `sku`, `category_id` and the search parameters are modelled as the values after that middleware: a body `{"name":" Alat Medis "}` is the name `Alat Medis`. The middleware itself is not modelled.
- SearchController.EndErrors: a stock bound that is numeric but not an integer ("1.5") is treated as malformed text, measured by its length; Laravel's `gte` compares it as a number.
- SearchController.SearchQuery holds each parameter as absent or non-empty text. `ConvertEmptyStringsToNull` turns an empty parameter into null, which fails `numeric` on a flat bound and becomes `whereNotNull` on a bracketed one; those paths are not modelled.
- Array-valued parameters (`sku[]=a`, `price[start][]=1`, `category[id][]=x`) are not modelled. `explode` on an array raises a `TypeError`, which the handler's `catch (\Exception)` does not catch.
- SearchController.Bound takes bracketed bounds as whole cents; a bracketed price with a fraction of a cent is not representable.
- ProductRequest.Validate carries `priceSent` and `stockSent` through unchanged but does not tie their text to the parsed `price` and `stock`. A JSON fraction (a PHP float) is outside `PhpValue`.
- The order of search results is the order of the `rows` argument, because the query has no `ORDER BY`.
- `Log::info($queryParams)` in `search` is not modelled.
- `CategoriesController::index`/`show`, `ProductsController::index`, `app/Repositories/CategoriesRepository.php`, the seeders, factories and Swagger annotations are not part of this model. They are read-only listings, dead code or data.
- Requests and deliveries are handled one at a time. Concurrency between HTTP requests and the consumer is not modelled.

## Findings

| source | as written | input that shows it | evidently intended | confidence | as-written member | corrected member |
|---|---|---|---|---|---|---|
| app/Services/RabbitMQConsumer.php:113 | the handlers declare `array $data`, so a non-array `data` raises a `TypeError`. `catch (\Exception $e)` does not catch it, so the delivery is neither acked nor rejected. | `{"action":"create","table":"categories","data":"x"}` | every failure is rejected with requeue | not executed | RabbitMQConsumer.TypeErrorEscapesAsWritten | RabbitMQConsumer.Process |
| app/Services/RabbitMQConsumer.php:142-143 | an unknown `products` action is acked. When the action is an array, interpolating it into the log line raises an array-to-string warning, which Laravel turns into an exception. The `catch` then rejects the already acked delivery. | `{"action":[],"table":"products","data":{}}` | each delivery gets exactly one outcome | not executed | RabbitMQConsumer.ArrayActionAckedTwiceAsWritten | RabbitMQConsumer.Process |
| app/Http/Requests/ProductRequest.php:17 | `unique:products,sku` excuses no row, and the same request class validates `update` | updating a product with a body that repeats its own SKU | a product may keep its SKU on update | not executed | ProductRequest.UpdateKeepingSkuRejectedAsWritten | ProductRequest.ValidateForUpdate |
| app/Http/Requests/CategoryRequest.php:39 | the update rule ignores `route('id')`, but `Route::apiResource('categories', ...)` (routes/web.php:20) names the parameter `category`, so no row is ignored | updating a category with its current name | a category may keep its name on update (as the controller's own check at CategoriesController.php:196-202 allows) | not executed | CategoryRequest.UpdateKeepingNameRejectedAsWritten | CategoryRequest.ValidateForUpdate |
| app/Http/Controllers/SearchController.php:19 | `search` uses the `ApiResponse` trait, whose `successResponse` nests the `{data, paging}` payload under `data` | any valid query | `data` and `paging` at the top level, as `ApiSearchResponse::successResponse` is written to return and the search tests read `data[0]` | not executed | SearchController.AsWrittenNestsPaging | SearchController.SearchAnswersPaging |
| app/Http/Controllers/SearchController.php:299-305 | the `category_id.*` rules never apply, since `category_id` is text, not an array; its raw comma pieces go to `whereIn` on the `uuid` column, so a piece that is not `uuid` input makes the query raise and the `catch` answers 500 | `category_id=invalid-uuid`, or a trailing comma as in `category_id=<uuid>,` | 422, as the rules at lines 191-192 and the unit test at tests/Unit/Http/Controllers/SearchControllerTest.php:183-190 expect | not executed | SearchController.InvalidCategoryIdFailsAsWritten | SearchController.MalformedCategoryIdRejected |
