# Storefront query handling, product filters and cart state, in Dafny

This project models the query-string layer of a small e-commerce storefront, along with the two pieces of logic built on it.

- **Codec.** A vendored query-string codec (`parse`, `stringify` and `stringifyUrl`) in comma array format. It rests on the `encode`/`decode` percent-coding helpers and `toArray`.
- **Query helpers.** The listing controls apply these helpers to a parsed query: `parseSearchParams`, `stringifyQuery`, `buildUrl`, `getQueryValues`, `setQueryValue`, `toggleQueryValue`, `removeQueryKeys` and `isQueryEmpty`.
- **Filter parsing.** `parseFilterParams` turns URL search params or a record of them into product filters. It uses `normalizeSearchParams`, `getFirst`, `collectValues`, `toUniqueArray`, `parseNumber`, the sort options and the price band table.
- **Query descriptor.** `buildProductQueryObject` turns those filters into a database query descriptor. The descriptor holds:
  - the list of where-conditions, in push order;
  - the order-by list;
  - limit, offset and the colour filter ids.
- **Cart and favourites.** The cart and favourites updaters of the commerce provider: `addToCart`, `toggleFavorite` and `isFavorite`.

A JavaScript object is modelled as an association list that keeps insertion order: `Records.Query`, a `seq<(string, QVal)>`. The value type `QVal` is `Undefined | Null | Str | Arr`. Property assignment keeps a key's position and appends a new key. `delete` removes the key.

Strings are sequences of Unicode scalar values. Percent-encoding is written out concretely:
- the `encodeURIComponent` unreserved set;
- UTF-8 encoding with upper-case hex;
- `decodeURIComponent`, which fails on a malformed escape, in which case `decode` falls back to the raw text.

Trimming follows the ECMAScript white space and line terminator set.

Modules:
- `Text`: splitting and joining on one character, `trim`, and the empty-string filter. Also the insertion-ordered `Set` (`Dedup`).
- `Percent`: `encode` and `decode`, with the round trip `Decode(Encode(s)) == s`.
- `Records`: objects as ordered association lists.
- `QueryString`: `toArray`, `parse` and `stringify` (each a method with a loop, proved against a specification function), and `stringifyUrl`.
- `RoundTrip`: what `parse` returns for the output of `stringify` and `stringifyUrl`.
- `QueryUtils`: the wrappers and query mutators.
- `FilterParams`: `normalizeSearchParams` through `parseFilterParams`.
- `ProductQuery`: `buildProductQueryObject`, with SQL `LIKE` matching made concrete.
- `Commerce`: the provider's cart and favourites as a class with two sequence fields.

## Model

| member | source | states |
|---|---|---|
| Text.Split | src/lib/vendor/query-string.ts:57 | `split` on one character gives at least one piece, no piece holds the separator, the pieces join back to the input, and there is exactly one piece iff the separator is absent |
| Text.SplitJoin | src/lib/vendor/query-string.ts:67 | splitting a join of separator-free pieces gives back the pieces (`rest.join("=")` inverts `split("=")`) |
| Text.SplitAtFirst | src/lib/vendor/query-string.ts:57 | the first piece of a split is the text before the first separator; the rest is the split of the remainder |
| Text.Trim | src/lib/vendor/query-string.ts:70 | `trim` returns the middle slice of the input with no white space at either end, only white space was removed, and a trimmed string is unchanged |
| Text.NonEmpty | src/lib/vendor/query-string.ts:71 | `filter((v) => v.length > 0)` keeps exactly the non-empty members |
| Text.NonEmptyAppend | src/lib/vendor/query-string.ts:74-77 | filtering distributes over concatenation |
| Text.NonEmptyIdempotent | src/lib/vendor/query-string.ts:71 | filtering twice is filtering once |
| Text.CommaPiecesOfJoin | src/lib/vendor/query-string.ts:70-71 | splitting on commas, trimming and dropping empties gives back comma-free, trimmed, non-empty items that were joined with commas |
| Text.CommaPiecesOfTrimmedJoin | src/lib/vendor/query-string.ts:70-71 | for comma-free trimmed items, the pieces are the items without the empty ones |
| Text.Dedup | src/lib/utils/query.ts:148-157 | the `Set` keeps exactly the members of its input |
| Text.DedupIsOrderedSet | src/lib/utils/query.ts:148-157 | `Array.from(new Set(...))` has no duplicates and lists members in order of first occurrence |
| Text.DedupOfDistinct | src/lib/utils/query.ts:148-157 | a duplicate-free list passes through the set unchanged |
| Percent.HexValueOfDigit | src/lib/vendor/query-string.ts:23 | reading back a hex digit written by the encoder gives its value |
| Percent.Utf8Decodes | src/lib/vendor/query-string.ts:23 | the UTF-8 bytes of a character have a valid lead byte and continuation bytes and decode to that character |
| Percent.EncodeByCharacter | src/lib/vendor/query-string.ts:29-31 | `encodeURIComponent(value).replace(/%20/g, "+")` equals encoding character by character with a space written as `+` |
| Percent.EncodeAvoidsDelimiters | src/lib/vendor/query-string.ts:29-31 | an encoded string contains none of `&`, `=`, `,`, `#`, `?` or a space |
| Percent.DecodeURIComponent | src/lib/vendor/query-string.ts:23 | text without a `%` decodes to itself |
| Percent.PlusAsSpace | src/lib/vendor/query-string.ts:23 | `replace(/\+/g, " ")` changes every `+` to a space and nothing else |
| Percent.DecodeEncodedPrefix | src/lib/vendor/query-string.ts:21-31 | decoding the encoding of `s` followed by any text decodes `s` first and then the text |
| Percent.DecodeEncode | src/lib/vendor/query-string.ts:21-31 | `decode(encode(s)) == s` for every string |
| Percent.DecodeJoinedList | src/lib/vendor/query-string.ts:135 | decoding the comma-join of encoded items gives the comma-join of the items |
| Records.PutGet | src/lib/vendor/query-string.ts:80-85 | after `result[key] = v`, reading `key` gives `v` and every other key reads as before |
| Records.Put | src/lib/vendor/query-string.ts:80-85 | assignment keeps the key order when the key exists and appends it otherwise |
| Records.PutUnique | src/lib/vendor/query-string.ts:80-85 | assignment keeps keys unique |
| Records.Delete | src/lib/utils/query.ts:94 | `delete next[key]` removes exactly that key and changes nothing when it is absent |
| Records.DeleteGet | src/lib/utils/query.ts:94 | after `delete`, the key reads `undefined` and every other key reads as before |
| Records.DeleteUniqueKeys | src/lib/utils/query.ts:94 | `delete` keeps keys unique |
| QueryString.Collapse | src/lib/vendor/query-string.ts:79-85 | the stored value is a string or an array, and reading it back with `toArray` gives the aggregated list, or `[""]` when that list is empty |
| QueryString.Parsed | src/lib/vendor/query-string.ts:45-89 | every parsed query has unique non-empty keys. Each value is `null`, `""`, one item, or an array of at least two items in which only the first may be `""` (a key first seen as `k=`). In comma format, items are non-empty, comma-free and trimmed |
| QueryString.Parse | src/lib/vendor/query-string.ts:45-89 | the segment loop computes the `parse` specification |
| QueryString.ApplySegment | src/lib/vendor/query-string.ts:55-85 | one loop iteration: skip an empty segment or empty key, store `null` for a bare key, otherwise append the cleaned values to the key's earlier values |
| QueryString.ParseStepShape | src/lib/vendor/query-string.ts:55-85 | each iteration keeps the shape invariant of the result |
| QueryString.SortKeys | src/lib/vendor/query-string.ts:100-102 | `keys.sort()` returns a permutation of the keys in UTF-16 code unit order |
| QueryString.StrLeTotal | src/lib/vendor/query-string.ts:101 | the sort order is total |
| QueryString.StrLeTransitive | src/lib/vendor/query-string.ts:101 | the sort order is transitive |
| QueryString.StrLeAntisymmetric | src/lib/vendor/query-string.ts:101 | the sort order is antisymmetric |
| QueryString.SortKeysDistinct | src/lib/vendor/query-string.ts:99-102 | sorting distinct keys gives distinct keys |
| QueryString.SortKeysOfSorted | src/lib/vendor/query-string.ts:100-102 | sorting an already sorted distinct key list changes nothing |
| QueryString.Stringify | src/lib/vendor/query-string.ts:91-148 | the key loop computes the `stringify` specification |
| QueryString.PushEntrySegments | src/lib/vendor/query-string.ts:107-144 | one key: skip `undefined`, a bare key for `null`, `key=` for an empty list, otherwise one comma segment, or one segment per item in `none` format |
| QueryString.StringifiedAvoids | src/lib/vendor/query-string.ts:91-148 | a stringified query contains no `#` and no `?` |
| QueryString.QueryPrefixShape | src/lib/vendor/query-string.ts:166-168 | the separator keeps the base as a prefix and always ends in `?` or `&`: a base without `?` gets `?`; a base with `?` that already ends in `?` or `&` is kept as it is; any other base with `?` gets `&` |
| QueryString.StringifyUrlShape | src/lib/vendor/query-string.ts:155-171 | splitting the result on `#` gives the base plus the joined query string, followed by the first hash piece when that piece is not empty |
| RoundTrip.ParseSegmentsAppend | src/lib/vendor/query-string.ts:54-86 | parsing concatenated segment lists is parsing one after the other |
| RoundTrip.ParseEntrySegments | src/lib/vendor/query-string.ts:106-145 | parsing the segments stringify writes for one key gives back that key's expected entry |
| RoundTrip.StringifyThenParse | src/lib/vendor/query-string.ts:45-148 | for a query with unique keys and comma-safe values, `parse(stringify(q))` gives the expected entries in the emitted key order: nulls stay `null` unless skipped, empty items are dropped, and a one-item list becomes a string |
| RoundTrip.StringifyThenParseRestores | src/lib/vendor/query-string.ts:45-148 | without key sorting, an object with unique non-empty keys whose values are non-empty comma-safe strings, or lists of at least two such items, survives `parse(stringify(q))` unchanged: same keys, order and values |
| RoundTrip.StringifyUrlThenParse | src/lib/vendor/query-string.ts:155-171 | for a base without `?`, the URL's front is the base, then `?`, then a query that parses back to the expected entries |
| QueryUtils.ParseSearchParams | src/lib/utils/query.ts:14-36 | the result has the parsed-query shape, and absent or empty input gives `{}` |
| QueryUtils.ParseSearchParamsOfRecord | src/lib/utils/query.ts:25-35 | a record with comma-safe values parses to the expected entries in its own key order |
| QueryUtils.ParseSearchParamsRestores | src/lib/utils/query.ts:25-35 | a record with unique non-empty keys whose values are non-empty comma-safe strings, or lists of at least two such items, parses back to exactly that record |
| QueryUtils.ParsedIsCommaSafe | src/lib/utils/query.ts:14-36 | every parsed query is comma-safe, so it round-trips |
| QueryUtils.BuildUrlThenParse | src/lib/utils/query.ts:46-51 | for any query with unique keys and comma-safe values, on a path without `?`, parsing the query part of `buildUrl(pathname, q)` gives back `q`'s expected entries |
| QueryUtils.GetQueryValues | src/lib/utils/query.ts:53-68 | the values are the non-empty strings stored under the key |
| QueryUtils.Stored | src/lib/utils/query.ts:93-116 | what `setQueryValue` stores is `undefined` exactly when no non-empty value remains, and it reads back as the non-empty values |
| QueryUtils.SetQueryValue | src/lib/utils/query.ts:86-117 | the key reads back as the stored value, all other keys are unchanged, and unique keys stay unique |
| QueryUtils.SetQueryValueKeys | src/lib/utils/query.ts:86-117 | assignment keeps the key order or appends the key; an empty value deletes it |
| QueryUtils.SetThenGetQueryValues | src/lib/utils/query.ts:53-117 | reading the key after setting it gives the non-empty values that were set |
| QueryUtils.SetQueryValueIdempotent | src/lib/utils/query.ts:86-117 | setting the same value twice is setting it once |
| QueryUtils.Toggled | src/lib/utils/query.ts:75-83 | the toggled set has no duplicates and holds the value iff it did not before |
| QueryUtils.ToggleQueryValue | src/lib/utils/query.ts:70-84 | after toggling, a non-empty `x` is among the key's values iff (it was) xor (it is the toggled value); the values have no duplicates; the key is deleted exactly when no value is left; other keys are unchanged |
| QueryUtils.ToggleAppends | src/lib/utils/query.ts:70-84 | toggling a new non-empty value appends it after the existing distinct values |
| QueryUtils.WithoutFilters | src/lib/utils/query.ts:77-78 | `delete` distributes over concatenation and drops a single entry exactly when it is the removed one, so the other values keep their order |
| QueryUtils.ToggleRemoves | src/lib/utils/query.ts:70-84 | toggling a value that is there leaves the other distinct values in their order; when it was the only value, the key is deleted |
| QueryUtils.ToggleTwice | src/lib/utils/query.ts:70-84 | toggling the same value twice restores the set of values |
| QueryUtils.RemoveQueryKeys | src/lib/utils/query.ts:119-130 | the delete loop computes the query without the listed keys |
| QueryUtils.WithoutKeysGet | src/lib/utils/query.ts:119-130 | removed keys read `undefined`; every other key reads as before |
| QueryUtils.WithoutKeysUnique | src/lib/utils/query.ts:119-130 | removing keys keeps keys unique |
| QueryUtils.IsQueryEmpty | src/lib/utils/query.ts:132-134 | true iff the query has no keys |
| QueryUtils.RemoveAllKeys | src/lib/utils/query.ts:119-134 | removing every key leaves an empty query |
| QueryUtils.SortSelection | src/components/Sort.tsx:46-49 | choosing a sort removes `page`, stores the option (nothing for `featured`), and leaves other keys alone |
| QueryUtils.ColorSelection | src/components/Filters.tsx:70-71 | choosing a colour stores it (nothing for the default colour) and leaves other keys alone |
| QueryUtils.ClearColorAndSize | src/components/Filters.tsx:81 | clearing removes `color` and `size` only |
| FilterParams.NormalizePairs | src/lib/utils/query.ts:171-178 | normalising URL params gives a map whose lists are non-empty and hold no empty string |
| FilterParams.NormalizePairsLookup | src/lib/utils/query.ts:171-178 | a key's list is its non-empty URL values in order |
| FilterParams.NormalizeRecord | src/lib/utils/query.ts:181-199 | normalising a record gives a map whose lists are non-empty and hold no empty string |
| FilterParams.NormalizeRecordLookup | src/lib/utils/query.ts:181-199 | a key's list is the comma pieces of its items, trimmed, with empties dropped, in order |
| FilterParams.NormalizeSearchParams | src/lib/utils/query.ts:164-202 | the loops compute the normalisation specification for no input, URL params and a record |
| FilterParams.PushRecordItems | src/lib/utils/query.ts:185-198 | the inner item loop appends each item's non-empty pieces to the key's list |
| FilterParams.GetFirst | src/lib/utils/query.ts:204-208 | the result is the key's first value, `m[key][0]`; on a normalised map it is absent iff the key is, and it is never the empty string |
| FilterParams.GetFirstIsHead | src/lib/utils/query.ts:204-208 | on a normalised map, `getFirst` is the head of `map.get(key) ?? []` |
| FilterParams.GetFirstOfPairs | src/lib/utils/query.ts:171-208 | from `URLSearchParams`, `getFirst` gives the first non-empty value given for the key, or nothing when there is none |
| FilterParams.RepeatedPageFirstWins | src/lib/utils/query.ts:171-208 | `?page=2&page=3` reads page `2` |
| FilterParams.GetFirstOfRecord | src/lib/utils/query.ts:181-208 | from a record, `getFirst` gives the first trimmed non-empty comma piece of the key's value, or nothing when there is none |
| FilterParams.ToUniqueArray | src/lib/utils/query.ts:148-157 | the loop returns the insertion-ordered set of the non-empty values |
| FilterParams.CollectValues | src/lib/utils/query.ts:210-222 | the loop gives the unique values of the keys' lists |
| FilterParams.CollectedIsUnion | src/lib/utils/query.ts:210-222 | the collected ids are exactly the non-empty values under any of the keys, without duplicates, in first-occurrence order |
| FilterParams.ParseInteger | src/lib/utils/query.ts:227 | a number is read exactly when the text is digits with an optional sign |
| FilterParams.ParseNumber | src/lib/utils/query.ts:224-230 | absent or empty input gives nothing; white space alone gives 0 |
| FilterParams.ParseNumberOfDecimal | src/lib/utils/query.ts:224-230 | the decimal text of any integer parses back to that integer |
| FilterParams.SortParam | src/lib/utils/query.ts:263 | `sort` wins over `sortBy` when present |
| FilterParams.NormalizeSort | src/lib/utils/query.ts:264-273 | the sort is price ascending iff `price_asc`, price descending iff `price_desc`, latest iff `latest` or `newest`; anything else gives no sort |
| FilterParams.PriceRangeOf | src/lib/utils/query.ts:138-146 | exactly the four band ids are known, only `200-plus` is unbounded, and every finite band has min below max |
| FilterParams.BandsMin | src/lib/utils/query.ts:289-296 | the minimum candidate exists iff some band is known, and it is the least known band minimum |
| FilterParams.BandsMax | src/lib/utils/query.ts:289-302 | the maximum candidate exists iff some finite band is chosen, and it is the greatest finite band maximum |
| FilterParams.BandsUnbounded | src/lib/utils/query.ts:298-299 | the infinite-maximum flag is set iff `200-plus` is chosen |
| FilterParams.FoldBands | src/lib/utils/query.ts:285-303 | the band loop computes the fold specification |
| FilterParams.PriceBoundsMeaning | src/lib/utils/query.ts:279-314 | with no known band, the explicit bounds stand; `200-plus` removes the maximum; the minimum is the least of the explicit minimum and every band minimum, and equals one of them; the maximum is the greatest of the explicit maximum and every finite band maximum, and equals one of them |
| FilterParams.TwoBandsExample | src/lib/utils/query.ts:279-314 | choosing `under-100` and `150-200` gives the bounds 0 and 200 |
| FilterParams.PageOf | src/lib/utils/query.ts:316 | the page is at least 1 and defaults to 1 |
| FilterParams.LimitOf | src/lib/utils/query.ts:317-318 | the limit defaults to 12 and is clamped to 1..60 |
| FilterParams.TrimmedField | src/lib/utils/query.ts:260-331 | search and gender are the trimmed first value, kept only when non-empty |
| FilterParams.ParseFilterParams | src/lib/utils/query.ts:255-358 | the method computes the filter specification |
| FilterParams.FilterParamsBounds | src/lib/utils/query.ts:316-331 | every parsed filter has page ≥ 1, limit within 1..60, and a trimmed non-empty search and gender |
| FilterParams.FilterParamsIds | src/lib/utils/query.ts:275-277 | category, brand and colour ids are duplicate-free and are exactly the values under their three alias keys |
| FilterParams.RecordCategoryIds | src/lib/utils/query.ts:181-275 | for a record, a category id is present iff it is a comma piece of one of the three alias fields |
| FilterParams.FilterParamsSort | src/lib/utils/query.ts:263-273 | parsed filters sort by latest iff the sort parameter is `latest` or `newest`, and `sort` takes precedence over `sortBy` |
| ProductQuery.SourceLikePatternMissesBackslash | src/lib/utils/query.ts:368 | the pattern as written does not match the text `\` against the search `\`, although the text contains it |
| ProductQuery.EscapedPrefix | src/lib/utils/query.ts:368 | an escaped string in a `LIKE` pattern matches exactly itself as a literal prefix |
| ProductQuery.LeadingPercent | src/lib/utils/query.ts:368 | a leading `%` matches any prefix of the text |
| ProductQuery.LikePatternFindsSubstring | src/lib/utils/query.ts:367-374 | the escaped pattern matches a text iff the search occurs in it as a substring |
| ProductQuery.ConditionsArePushed | src/lib/utils/query.ts:363-411 | the where list is the published condition followed by the seven conditional pushes in source order |
| ProductQuery.PushedMember | src/lib/utils/query.ts:363-411 | a condition is in the where list iff it was there at the start or its guard held |
| ProductQuery.ConditionPresent | src/lib/utils/query.ts:367-411 | each conditional condition is in the where list iff its guard holds |
| ProductQuery.ConditionsShape | src/lib/utils/query.ts:363-411 | the where list starts with the published condition, keeps source order, and holds each filter's condition iff that filter is set |
| ProductQuery.OrderOf | src/lib/utils/query.ts:413-434 | the order ends with newest first; a price sort adds the lowest or highest variant price in front |
| ProductQuery.BuildConditions | src/lib/utils/query.ts:363-411 | the pushes compute the condition specification |
| ProductQuery.BuildProductQueryObject | src/lib/utils/query.ts:360-445 | the method computes the descriptor specification |
| ProductQuery.Window | src/lib/utils/query.ts:436 | for a page and limit of at least 1, the offset is non-negative and the page ends at page × limit |
| ProductQuery.WindowOfParsedFilters | src/lib/utils/query.ts:316-436 | every parsed filter yields a limit within 1..60 and a valid window |
| Commerce.LineId | src/components/providers/commerce-provider.tsx:54 | the line id is the product id, a dash, the variant, a dash, and the size |
| Commerce.FindIndex | src/components/providers/commerce-provider.tsx:55 | `findIndex` returns the first line with the id, or -1 iff there is none |
| Commerce.Includes | src/components/providers/commerce-provider.tsx:89-98 | `includes` is membership |
| Commerce.RemoveAll | src/components/providers/commerce-provider.tsx:90 | the filter drops every occurrence of the id and keeps every other id |
| Commerce.RemoveAllFilters | src/components/providers/commerce-provider.tsx:90 | removal distributes over concatenation and drops a single id exactly when it is the removed one, so the other ids keep their order and number |
| Commerce.Store.constructor | src/components/providers/commerce-provider.tsx:49-50 | cart and favourites start empty, and the cart is valid |
| Commerce.Store.AddToCart | src/components/providers/commerce-provider.tsx:52-85 | the cart becomes the added-to cart; favourites are untouched; a valid cart stays valid and holds one more item |
| Commerce.Store.ToggleFavorite | src/components/providers/commerce-provider.tsx:87-95 | favourites become the toggled list; the cart is untouched |
| Commerce.Store.IsFavorite | src/components/providers/commerce-provider.tsx:97-100 | true iff the id is a favourite |
| Commerce.AddExisting | src/components/providers/commerce-provider.tsx:57-67 | adding a variant already in the cart bumps that line's quantity by one and changes nothing else |
| Commerce.AddNew | src/components/providers/commerce-provider.tsx:69-83 | adding a new variant appends a line with the payload's fields and quantity 1 |
| Commerce.AddKeepsValid | src/components/providers/commerce-provider.tsx:52-85 | adding keeps line ids unique and quantities positive |
| Commerce.AddCountsOne | src/components/providers/commerce-provider.tsx:52-85 | each add raises the total quantity by exactly one |
| Commerce.ToggleFlips | src/components/providers/commerce-provider.tsx:87-95 | toggling flips the id's membership, leaves every other id alone, appends an absent id, and filters a present one out |
| Commerce.ToggleTwice | src/components/providers/commerce-provider.tsx:87-95 | toggling twice restores membership, and restores the list exactly when the id was absent |

## Left out

- Prototype keys (`__proto__`, inherited properties) and JavaScript's integer-like key ordering of objects are not modelled; keys keep insertion order.
- Lone UTF-16 surrogates are out of scope. In the source they make `encodeURIComponent` throw. Characters here are Unicode scalar values.
- The options of `parse` and `stringify` are modelled as parameters: the comma and `none` array formats, skipping nulls, skipping empty strings, and sorting. The defaults are not modelled separately.
- Text after a second `#` in `stringifyUrl`'s URL is dropped, as `url.split("#")` does in src/lib/vendor/query-string.ts:159. This is modelled as written.
- FilterParams.ParseNumber: reads only an optionally signed decimal integer after trimming, because the filters only carry prices, pages and limits. JavaScript's `Number` also accepts fractions, exponents, hex and `Infinity`, which becomes `undefined` after the finiteness test. Those are not modelled.
- FilterParams.FilterParamsOf: an absent id list is modelled as the empty list. In the source the property is not set when the list is empty, and `buildProductQueryObject` reads the two forms the same way.
- `URLSearchParams` is modelled as its list of (key, value) pairs in order. The `instanceof` test is modelled as the choice of input variant.
- ProductQuery: SQL is not executed. The where and order-by lists are abstract descriptors: `ilike`, `inArray` and the `EXISTS` sub-queries become `Condition` values, and the sort expressions become `Order` values. `LIKE` matching is made concrete, but case-sensitively: the case folding of `ILIKE` is not modelled.
- ProductQuery.BuildConditions: uses the corrected pattern, `LikePattern`, which also escapes the backslash (see Findings). The pattern as written is `SourceLikePattern`.
- Commerce: React state, `useCallback` and `useMemo`, and the context object are not modelled. Each updater is a method on a `Store` whose fields are the two state arrays. Prices are whole numbers rather than JavaScript numbers.
- Commerce.LineId: is not injective when product or variant ids contain `-`. The source relies on ids that keep the pieces apart, and the model does not assume it.
- Database access, routing, rendering and the remaining components are not part of this model.

## Findings

| source | as written | input that shows it | evidently intended | confidence | as-written member | corrected member |
|---|---|---|---|---|---|---|
| src/lib/utils/query.ts:368 | the search text escapes `%` and `_` for `ILIKE` but not the escape character `\` itself | search `\` against a name `\`: the pattern `%\%` reads as a literal `%`, so the name does not match although it contains the search | the search matches any name or description that contains it as a substring | not executed | ProductQuery.SourceLikePatternMissesBackslash | ProductQuery.LikePatternFindsSubstring |
