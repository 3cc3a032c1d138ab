/**
 * The query helpers of the storefront: the comma-format wrappers around the
 * codec, and the mutators the listing controls apply to a parsed query. Every
 * mutator works on a copy (`{ ...query }`), so it is a function of the query it
 * is given and the caller's query is left as it was.
 */
module QueryUtils {
  import opened Text
  import opened Records
  import opened QueryString
  import opened RoundTrip

  // ---------------------------------------------------------------------------
  // wrappers
  // ---------------------------------------------------------------------------

  /** The options every wrapper passes: comma format, empty strings and nulls skipped, keys unsorted. */
  const QueryOptions := StringifyOptions(Comma, true, true, false)

  /** What `parseSearchParams` accepts: nothing, a query string, or a record of search params. */
  datatype SearchInput = Absent | Text(s: string) | Record(q: Query)

  /** `parseSearchParams(input)`. */
  function ParseSearchParams(input: SearchInput): (r: Query)
    ensures IsParsedQuery(r, Comma)
    ensures input.Absent? || input == Text("") ==> r == []
  {
    match input
    case Absent => []
    case Text(s) => if s == "" then [] else Parsed(s, Comma)
    case Record(q) =>
      var queryString := Stringified(q, QueryOptions);
      if queryString == "" then [] else Parsed(queryString, Comma)
  }

  /** `stringifyQuery(query)`. */
  function StringifyQuery(query: Query): string
  {
    Stringified(query, QueryOptions)
  }

  /** `buildUrl(pathname, query)`. */
  function BuildUrl(pathname: string, query: Query): string
  {
    StringifyUrl(pathname, query, QueryOptions)
  }

  /**
   * A record of search params reads back as its keys in order, dropping null,
   * undefined and empty values, with each value's comma-separated items.
   */
  lemma ParseSearchParamsOfRecord(q: Query)
    requires UniqueKeys(q)
    requires forall i :: 0 <= i < |q| ==> IsCommaSafeValue(q[i].1)
    ensures ParseSearchParams(Record(q)) == Expected(q, Keys(q), QueryOptions)
  {
    StringifyThenParse(q, QueryOptions);
    ParseRecordBranch(q);
  }

  /** A record whose entries are all restorable reads back as exactly that record. */
  lemma ParseSearchParamsRestores(q: Query)
    requires UniqueKeys(q)
    requires forall i :: 0 <= i < |q| ==> IsRestorable(q[i])
    ensures ParseSearchParams(Record(q)) == q
  {
    StringifyThenParseRestores(q, QueryOptions);
    ParseRecordBranch(q);
  }

  lemma ParseRecordBranch(q: Query)
    ensures ParseSearchParams(Record(q)) == Parsed(Stringified(q, QueryOptions), Comma)
    ensures OrderedKeys(q, QueryOptions.sort) == Keys(q)
  {
    if Stringified(q, QueryOptions) == "" {
      ParsedEmpty();
    }
  }

  lemma ParsedEmpty()
    ensures Parsed("", Comma) == []
  {
    assert WithoutQuestionMark("") == "";
  }

  /** What parse returns is safe to stringify and parse again. */
  lemma ParsedIsCommaSafe(q: Query)
    requires IsParsedQuery(q, Comma)
    ensures forall i :: 0 <= i < |q| ==> IsCommaSafeValue(q[i].1)
  {
    forall i | 0 <= i < |q| ensures IsCommaSafeValue(q[i].1) {
      assert IsParsedValue(q[i].1, Comma);
    }
  }

  /**
   * A URL built from a query with unique keys and comma-safe values (one-item
   * lists included, as `setQueryValue` stores them), on a path without `?`,
   * carries a query string that parses back to the query
   * without its nulls and empty values.
   */
  lemma BuildUrlThenParse(pathname: string, q: Query)
    requires UniqueKeys(q)
    requires forall i :: 0 <= i < |q| ==> IsCommaSafeValue(q[i].1)
    requires '?' !in UrlBase(pathname) && StringifyQuery(q) != ""
    ensures var front := Split(BuildUrl(pathname, q), '#')[0];
            var base := UrlBase(pathname);
            |base| < |front| && front[..|base|] == base && front[|base|] == '?' &&
            ParseSearchParams(Text(front[|base|..])) == Expected(q, Keys(q), QueryOptions)
  {
    StringifyUrlThenParse(pathname, q, QueryOptions);
  }

  // ---------------------------------------------------------------------------
  // reading and writing one key
  // ---------------------------------------------------------------------------

  /** `getQueryValues(query, key)`: the non-empty strings held under `key`, in order. */
  function GetQueryValues(query: Query, key: string): (r: seq<string>)
    ensures r == NonEmpty(ToArray(Get(query, key)))
  {
    match Get(query, key)
    case Undefined => []
    case Null => []
    case Str(s) => if |s| == 0 then [] else [s]
    case Arr(items) => NonEmpty(items)
  }

  /**
   * What `setQueryValue` stores for a value: nothing (undefined) when the value
   * has no non-empty string, a non-empty string as it is, an array without its
   * empty strings.
   */
  function Stored(value: QVal): (v: QVal)
    ensures v == Undefined <==> NonEmpty(ToArray(value)) == []
    ensures NonEmpty(ToArray(v)) == NonEmpty(ToArray(value))
  {
    match value
    case Undefined => Undefined
    case Null => Undefined
    case Arr(items) =>
      var clean := NonEmpty(items);
      NonEmptyIdempotent(items);
      if |clean| == 0 then Undefined else Arr(clean)
    case Str(s) => if |s| == 0 then Undefined else Str(s)
  }

  /**
   * `setQueryValue(query, key, value)`: the key is deleted when nothing is
   * stored for the value, and holds what is stored otherwise. Nothing else
   * changes, and a key already present keeps its place.
   */
  function SetQueryValue(query: Query, key: string, value: QVal): (r: Query)
    ensures Get(r, key) == Stored(value)
    ensures forall k :: k != key ==> Get(r, k) == Get(query, k)
    ensures UniqueKeys(query) ==> UniqueKeys(r)
  {
    var v := Stored(value);
    if v == Undefined then
      DeleteOthers(query, key);
      DeleteUnique(query, key);
      Delete(query, key)
    else
      PutOthers(query, key, v);
      PutUnique(query, key, v);
      Put(query, key, v)
  }

  /** A key that stays keeps its place, a new one goes last, a deleted one is the only key gone. */
  lemma SetQueryValueKeys(query: Query, key: string, value: QVal)
    ensures var r := SetQueryValue(query, key, value);
            (Stored(value) != Undefined && key in Keys(query) ==> Keys(r) == Keys(query)) &&
            (Stored(value) != Undefined && key !in Keys(query) ==> Keys(r) == Keys(query) + [key]) &&
            (Stored(value) == Undefined ==> forall k :: k in Keys(r) <==> k in Keys(query) && k != key)
  {
  }

  /** Reading a key back with `getQueryValues` gives the non-empty strings of the value set. */
  lemma SetThenGetQueryValues(query: Query, key: string, value: QVal)
    ensures GetQueryValues(SetQueryValue(query, key, value), key) == NonEmpty(ToArray(value))
  {
  }

  /** Deletion keeps keys unique, whatever the object (a wrapper to call from expressions). */
  lemma DeleteUnique(q: Query, k: string)
    ensures UniqueKeys(q) ==> UniqueKeys(Delete(q, k))
  {
    if UniqueKeys(q) {
        DeleteUniqueKeys(q, k);
    }
  }

  /** Setting the same value twice is setting it once. */
  lemma SetQueryValueIdempotent(query: Query, key: string, value: QVal)
    requires UniqueKeys(query)
    ensures SetQueryValue(SetQueryValue(query, key, value), key, value) == SetQueryValue(query, key, value)
  {
    var once := SetQueryValue(query, key, value);
    if Stored(value) == Undefined {
      assert key !in Keys(once);
    } else {
      var v := Get(once, key);
      assert key in Keys(once);
      PutExisting(once, key, v);
    }
  }

  /** Assigning a key the value it already holds changes nothing. */
  lemma {:induction false} PutExisting(q: Query, k: string, v: QVal)
    requires UniqueKeys(q) && k in Keys(q) && Get(q, k) == v
    ensures Put(q, k, v) == q
    decreases |q|
  {
    if q[0].0 != k {
      assert Keys(q[1..]) == Keys(q)[1..];
      assert UniqueKeys(q[1..]);
      PutExisting(q[1..], k, v);
      assert q == [q[0]] + q[1..];
    }
  }

  // ---------------------------------------------------------------------------
  // toggling a value
  // ---------------------------------------------------------------------------

  /** `set.delete(x)` on a duplicate-free list: every entry but `x`, in order. */
  function Without(xs: seq<string>, x: string): (r: seq<string>)
    ensures forall y :: y in r <==> y in xs && y != x
    ensures NoDuplicates(xs) ==> NoDuplicates(r)
    ensures |r| <= |xs|
  {
    if |xs| == 0 then []
    else if xs[0] == x then Without(xs[1..], x)
    else
      assert NoDuplicates(xs) ==> xs[0] !in xs[1..];
      [xs[0]] + Without(xs[1..], x)
  }

  /**
   * `delete` keeps the other entries in their order: removal distributes over
   * concatenation, and a single entry is dropped exactly when it is the
   * removed one. The two facts fix `Without` on every list.
   */
  lemma {:induction false} WithoutFilters(xs: seq<string>, ys: seq<string>, x: string)
    ensures Without(xs + ys, x) == Without(xs, x) + Without(ys, x)
    ensures forall y :: Without([y], x) == if y == x then [] else [y]
    decreases |xs|
  {
    forall y ensures Without([y], x) == if y == x then [] else [y] {
      assert [y][1..] == [];
    }
    if |xs| == 0 {
      assert xs + ys == ys;
    } else {
      assert (xs + ys)[0] == xs[0];
      assert (xs + ys)[1..] == xs[1..] + ys;
      WithoutFilters(xs[1..], ys, x);
    }
  }

  /**
   * `toggleQueryValue(query, key, value)`: the distinct values under `key`
   * with `value` removed when it is there and appended when it is not, stored
   * back with `setQueryValue`.
   */
  function ToggleQueryValue(query: Query, key: string, value: string): (r: Query)
    ensures forall x :: x in GetQueryValues(r, key) <==>
              x != "" && ((x in GetQueryValues(query, key)) != (x == value))
    ensures NoDuplicates(GetQueryValues(r, key))
    ensures Get(r, key) == Undefined <==> GetQueryValues(r, key) == []
    ensures forall k :: k != key ==> Get(r, k) == Get(query, k)
    ensures UniqueKeys(query) ==> UniqueKeys(r)
  {
    var next := Toggled(GetQueryValues(query, key), value);
    ToggledValuesRead(query, key, next);
    SetQueryValue(query, key, Arr(next))
  }

  /** The distinct values with `value` removed when it is among them and appended when it is not. */
  function Toggled(values: seq<string>, value: string): (next: seq<string>)
    ensures NoDuplicates(next)
    ensures forall x :: x in next <==> (x in values) != (x == value)
  {
    var current := Dedup(values);
    DedupIsOrderedSet(values);
    if value in current then Without(current, value) else current + [value]
  }

  /** A duplicate-free list stored under a key reads back as its non-empty strings. */
  lemma ToggledValuesRead(query: Query, key: string, next: seq<string>)
    requires NoDuplicates(next)
    ensures GetQueryValues(SetQueryValue(query, key, Arr(next)), key) == NonEmpty(next)
    ensures NoDuplicates(NonEmpty(next))
  {
    NonEmptyDistinct(next);
  }

  /** Filtering keeps a duplicate-free list duplicate-free. */
  lemma {:induction false} NonEmptyDistinct(xs: seq<string>)
    requires NoDuplicates(xs)
    ensures NoDuplicates(NonEmpty(xs))
    decreases |xs|
  {
    if |xs| > 0 {
      NonEmptyDistinct(xs[1..]);
      assert xs[0] !in xs[1..];
    }
  }

  /** A value that is not there yet goes after the distinct values already there. */
  lemma ToggleAppends(query: Query, key: string, value: string)
    requires value != "" && value !in GetQueryValues(query, key)
    ensures GetQueryValues(ToggleQueryValue(query, key, value), key) ==
            Dedup(GetQueryValues(query, key)) + [value]
  {
    var current := Dedup(GetQueryValues(query, key));
    assert forall i :: 0 <= i < |current| ==> current[i] in current;
    NonEmptyKeepsFull(current + [value]);
  }

  /**
   * A value that is there is taken out of the distinct values, which keep
   * their order; when it was the only value, the key is deleted.
   */
  lemma ToggleRemoves(query: Query, key: string, value: string)
    requires value in GetQueryValues(query, key)
    ensures GetQueryValues(ToggleQueryValue(query, key, value), key) ==
            Without(Dedup(GetQueryValues(query, key)), value)
    ensures (forall x :: x in GetQueryValues(query, key) ==> x == value) ==>
            Get(ToggleQueryValue(query, key, value), key) == Undefined &&
            key !in Keys(ToggleQueryValue(query, key, value))
  {
    var rest := Without(Dedup(GetQueryValues(query, key)), value);
    assert forall i :: 0 <= i < |rest| ==> rest[i] in rest;
    NonEmptyKeepsFull(rest);
  }

  /** Toggling the same value twice gives back the same set of values under the key. */
  lemma ToggleTwice(query: Query, key: string, value: string)
    ensures forall x :: x in GetQueryValues(ToggleQueryValue(ToggleQueryValue(query, key, value), key, value), key) <==>
              x in GetQueryValues(query, key)
  {
  }

  // ---------------------------------------------------------------------------
  // removing keys
  // ---------------------------------------------------------------------------

  /** The entries of `q` whose key is not in `keys`, in order. */
  function WithoutKeys(q: Query, keys: seq<string>): Query
    decreases |q|
  {
    if |q| == 0 then []
    else if q[0].0 in keys then WithoutKeys(q[1..], keys)
    else [q[0]] + WithoutKeys(q[1..], keys)
  }

  /** A removed key reads as undefined, every other key as before. */
  lemma {:induction false} WithoutKeysGet(q: Query, keys: seq<string>, k: string)
    ensures Get(WithoutKeys(q, keys), k) == if k in keys then Undefined else Get(q, k)
    decreases |q|
  {
    if |q| > 0 {
      WithoutKeysGet(q[1..], keys, k);
    }
  }

  /** Removal keeps only entries of the query whose key is not removed. */
  lemma {:induction false} WithoutKeysEntries(q: Query, keys: seq<string>)
    ensures forall e :: e in WithoutKeys(q, keys) ==> e in q && e.0 !in keys
    decreases |q|
  {
    if |q| > 0 {
      WithoutKeysEntries(q[1..], keys);
    }
  }

  /** Removal keeps keys unique. */
  lemma {:induction false} WithoutKeysUnique(q: Query, keys: seq<string>)
    requires UniqueKeys(q)
    ensures UniqueKeys(WithoutKeys(q, keys))
    decreases |q|
  {
    if |q| > 0 {
      assert UniqueKeys(q[1..]);
      WithoutKeysUnique(q[1..], keys);
      var rest := WithoutKeys(q[1..], keys);
      if q[0].0 !in keys {
        WithoutKeysEntries(q[1..], keys);
        forall e | e in rest ensures e.0 != q[0].0 {
          var j :| 0 <= j < |q[1..]| && q[1..][j] == e;
          assert q[j + 1] == e;
        }
        var r := [q[0]] + rest;
        forall i, j | 0 <= i < j < |r| ensures r[i].0 != r[j].0 {
          if i == 0 { assert r[j] in rest; } else { assert r[i] == rest[i - 1] && r[j] == rest[j - 1]; }
        }
      }
    }
  }

  /** Deleting one more key from a filtered object is filtering by one more key. */
  lemma {:induction false} DeleteWithoutKeys(q: Query, keys: seq<string>, k: string)
    ensures Delete(WithoutKeys(q, keys), k) == WithoutKeys(q, keys + [k])
    decreases |q|
  {
    if |q| > 0 {
      DeleteWithoutKeys(q[1..], keys, k);
    }
  }

  /** `removeQueryKeys(query, keys)`: a copy of the query with each key deleted in turn. */
  method RemoveQueryKeys(query: Query, keys: seq<string>) returns (next: Query)
    ensures next == WithoutKeys(query, keys)
  {
    next := query;
    WithoutNoKeys(query);
    assert keys[..0] == [];
    for i := 0 to |keys|
      invariant next == WithoutKeys(query, keys[..i])
    {
      RemoveStep(query, keys, i);
      next := Delete(next, keys[i]);
    }
    assert keys[..|keys|] == keys;
  }

  lemma RemoveStep(q: Query, keys: seq<string>, i: nat)
    requires i < |keys|
    ensures Delete(WithoutKeys(q, keys[..i]), keys[i]) == WithoutKeys(q, keys[..i + 1])
  {
    DeleteWithoutKeys(q, keys[..i], keys[i]);
    assert keys[..i] + [keys[i]] == keys[..i + 1];
  }

  /** Filtering by no key keeps every entry. */
  lemma {:induction false} WithoutNoKeys(q: Query)
    ensures WithoutKeys(q, []) == q
    decreases |q|
  {
    if |q| > 0 {
      WithoutNoKeys(q[1..]);
    }
  }

  /** `isQueryEmpty(query)`: the query has no key. */
  function IsQueryEmpty(query: Query): (r: bool)
    ensures r <==> Keys(query) == []
  {
    |query| == 0
  }

  /** Removing every key of a query leaves it empty. */
  lemma RemoveAllKeys(q: Query)
    ensures IsQueryEmpty(WithoutKeys(q, Keys(q)))
  {
    WithoutKeysEntries(q, Keys(q));
  }

  // ---------------------------------------------------------------------------
  // how the listing controls compose the mutators
  // ---------------------------------------------------------------------------

  /**
   * Choosing a sort option: `sort` is set to the option ("featured" clears it)
   * and `page` is dropped; every other key stays as it was.
   */
  lemma SortSelection(query: Query, option: string)
    ensures var next := WithoutKeys(SetQueryValue(query, "sort", if option == "featured" then Null else Str(option)), ["page"]);
            Get(next, "page") == Undefined &&
            Get(next, "sort") == (if option == "featured" || option == "" then Undefined else Str(option)) &&
            forall k :: k != "sort" && k != "page" ==> Get(next, k) == Get(query, k)
  {
    var set_ := SetQueryValue(query, "sort", if option == "featured" then Null else Str(option));
    WithoutKeysGet(set_, ["page"], "page");
    WithoutKeysGet(set_, ["page"], "sort");
    forall k | k != "sort" && k != "page" ensures Get(WithoutKeys(set_, ["page"]), k) == Get(query, k) {
      WithoutKeysGet(set_, ["page"], k);
    }
  }

  /** Picking a colour: the default colour clears `color`, any other is stored; nothing else changes. */
  lemma ColorSelection(query: Query, color: string, defaultColor: string)
    ensures var next := SetQueryValue(query, "color", if color == defaultColor then Null else Str(color));
            Get(next, "color") == (if color == defaultColor || color == "" then Undefined else Str(color)) &&
            forall k :: k != "color" ==> Get(next, k) == Get(query, k)
  {
  }

  /** Clearing the filters drawer drops `color` and `size` and nothing else. */
  lemma ClearColorAndSize(query: Query)
    ensures var next := WithoutKeys(query, ["color", "size"]);
            Get(next, "color") == Undefined && Get(next, "size") == Undefined &&
            forall k :: k != "color" && k != "size" ==> Get(next, k) == Get(query, k)
  {
    WithoutKeysGet(query, ["color", "size"], "color");
    WithoutKeysGet(query, ["color", "size"], "size");
    forall k | k != "color" && k != "size" ensures Get(WithoutKeys(query, ["color", "size"]), k) == Get(query, k) {
      WithoutKeysGet(query, ["color", "size"], k);
    }
  }
}
