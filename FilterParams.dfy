/**
 * The filter resolver of the product listing: raw search params are flattened
 * into a map from key to the list of values seen under it, and a typed filter
 * record is derived from that map (search text, gender, sort, id lists merged
 * over synonym keys, a price window from explicit bounds and price bands, and a
 * page/limit window with defaults and clamps).
 */
module FilterParams {
  import opened Wrappers
  import opened Text
  import opened Records
  import opened QueryString

  // ---------------------------------------------------------------------------
  // normalizeSearchParams
  // ---------------------------------------------------------------------------

  /** A `Map<string, string[]>`; only lookups are made on it, never iteration. */
  type ParamMap = map<string, seq<string>>

  /** `map.get(key) ?? []`. */
  function Lookup(m: ParamMap, key: string): seq<string>
  {
    if key in m then m[key] else []
  }

  /** What normalizeSearchParams stores: only non-empty lists of non-empty strings. */
  predicate IsNormalMap(m: ParamMap)
  {
    forall k :: k in m ==> m[k] != [] && forall i :: 0 <= i < |m[k]| ==> m[k][i] != ""
  }

  /** The search params `parseFilterParams` accepts: none, a `URLSearchParams`, or a record. */
  datatype ParamsInput = NoParams | UrlParams(pairs: seq<(string, string)>) | RecordParams(entries: Query)

  /** `existing.push(...parts); map.set(key, existing)`. */
  function Push(m: ParamMap, key: string, parts: seq<string>): ParamMap
  {
    m[key := Lookup(m, key) + parts]
  }

  /** The `URLSearchParams` branch: each non-empty value pushed whole under its key. */
  function NormalizePairs(pairs: seq<(string, string)>): (r: ParamMap)
    ensures IsNormalMap(r)
    decreases |pairs|
  {
    if |pairs| == 0 then map[]
    else
      var m := NormalizePairs(pairs[..|pairs| - 1]);
      var (key, value) := pairs[|pairs| - 1];
      if value == "" then m else Push(m, key, [value])
  }

  /** The pieces one record item contributes: none for an empty item, else its comma pieces. */
  function ItemParts(item: string): (parts: seq<string>)
    ensures forall i :: 0 <= i < |parts| ==> parts[i] != ""
    ensures item == "" ==> parts == []
  {
    if item == "" then [] else CommaPieces(item)
  }

  /** Every piece of every chunk is non-empty. */
  predicate NonEmptyChunks(chunks: seq<seq<string>>)
  {
    forall i, j :: 0 <= i < |chunks| && 0 <= j < |chunks[i]| ==> chunks[i][j] != ""
  }

  /** The pieces of each item, item by item. */
  function ItemChunks(items: seq<string>): (chunks: seq<seq<string>>)
    ensures |chunks| == |items|
    ensures forall i :: 0 <= i < |items| ==> chunks[i] == ItemParts(items[i])
    ensures NonEmptyChunks(chunks)
  {
    seq(|items|, i requires 0 <= i < |items| => ItemParts(items[i]))
  }

  /** The item loop of the record branch: each non-empty chunk appended under `key`. */
  function PushChunks(m: ParamMap, key: string, chunks: seq<seq<string>>): (r: ParamMap)
    ensures IsNormalMap(m) && NonEmptyChunks(chunks) ==> IsNormalMap(r)
    decreases |chunks|
  {
    if |chunks| == 0 then m
    else
      var init := chunks[..|chunks| - 1];
      assert NonEmptyChunks(chunks) ==> NonEmptyChunks(init) by {
        forall i, j | 0 <= i < |init| && 0 <= j < |init[i]| ensures init[i][j] == chunks[i][j] { }
      }
      var before := PushChunks(m, key, init);
      var parts := chunks[|chunks| - 1];
      if |parts| == 0 then before else Push(before, key, parts)
  }

  /** The record branch: every entry's items, undefined entries skipped. */
  function NormalizeRecord(entries: Query): (r: ParamMap)
    ensures IsNormalMap(r)
    decreases |entries|
  {
    if |entries| == 0 then map[]
    else
      var m := NormalizeRecord(entries[..|entries| - 1]);
      var (key, rawValue) := entries[|entries| - 1];
      if rawValue == Undefined then m else PushChunks(m, key, ItemChunks(ToArray(rawValue)))
  }

  /** The map `normalizeSearchParams(input)` returns. */
  function Normalized(input: ParamsInput): (r: ParamMap)
    ensures IsNormalMap(r)
  {
    match input
    case NoParams => map[]
    case UrlParams(pairs) => NormalizePairs(pairs)
    case RecordParams(entries) => NormalizeRecord(entries)
  }

  /** `normalizeSearchParams(input)`: one pass over the pairs or the record entries, filling a map. */
  method NormalizeSearchParams(input: ParamsInput) returns (m: ParamMap)
    ensures m == Normalized(input)
  {
    m := map[];
    if input.NoParams? {
      return;
    }
    if input.UrlParams? {
      var pairs := input.pairs;
      for i := 0 to |pairs|
        invariant m == NormalizePairs(pairs[..i])
      {
        assert pairs[..i + 1][..i] == pairs[..i];
        var (key, value) := pairs[i];
        if value == "" {
          continue;
        }
        var existing := if key in m then m[key] else [];
        m := m[key := existing + [value]];
      }
      assert pairs[..|pairs|] == pairs;
      return;
    }
    var entries := input.entries;
    for i := 0 to |entries|
      invariant m == NormalizeRecord(entries[..i])
    {
      assert entries[..i + 1][..i] == entries[..i];
      var (key, rawValue) := entries[i];
      if rawValue == Undefined {
        continue;
      }
      m := PushRecordItems(m, key, ToArray(rawValue));
    }
    assert entries[..|entries|] == entries;
  }

  /** The item loop of the record branch of `normalizeSearchParams`. */
  method PushRecordItems(m0: ParamMap, key: string, values: seq<string>) returns (m: ParamMap)
    ensures m == PushChunks(m0, key, ItemChunks(values))
  {
    m := m0;
    ghost var chunks := ItemChunks(values);
    for j := 0 to |values|
      invariant m == PushChunks(m0, key, chunks[..j])
    {
      PushChunksStep(m0, key, chunks, j);
      var item := values[j];
      if item == "" {
        continue;
      }
      var parts := CommaPieces(item);
      assert parts == chunks[j];
      if |parts| == 0 {
        continue;
      }
      var existing := if key in m then m[key] else [];
      m := m[key := existing + parts];
    }
    assert chunks[..|values|] == chunks;
  }

  lemma PushChunksStep(m0: ParamMap, key: string, chunks: seq<seq<string>>, j: nat)
    requires j < |chunks|
    ensures var before := PushChunks(m0, key, chunks[..j]);
            PushChunks(m0, key, chunks[..j + 1]) == if |chunks[j]| == 0 then before else Push(before, key, chunks[j])
  {
    assert chunks[..j + 1][..j] == chunks[..j];
  }

  // ---------------------------------------------------------------------------
  // what the map holds
  // ---------------------------------------------------------------------------

  /** The values of `key` among the pairs, in order. */
  function ValuesOf(pairs: seq<(string, string)>, key: string): seq<string>
    decreases |pairs|
  {
    if |pairs| == 0 then []
    else
      ValuesOf(pairs[..|pairs| - 1], key) +
      (if pairs[|pairs| - 1].0 == key then [pairs[|pairs| - 1].1] else [])
  }

  /** From `URLSearchParams`, a key maps to its non-empty values, in order and kept whole. */
  lemma {:induction false} NormalizePairsLookup(pairs: seq<(string, string)>, key: string)
    ensures Lookup(NormalizePairs(pairs), key) == NonEmpty(ValuesOf(pairs, key))
    decreases |pairs|
  {
    if |pairs| > 0 {
      var init := pairs[..|pairs| - 1];
      var (k, v) := pairs[|pairs| - 1];
      NormalizePairsLookup(init, key);
      var tail := if k == key then [v] else [];
      NonEmptyAppend(ValuesOf(init, key), tail);
    }
  }

  /** The chunks one after the other. */
  function Flatten(chunks: seq<seq<string>>): seq<string>
    decreases |chunks|
  {
    if |chunks| == 0 then []
    else Flatten(chunks[..|chunks| - 1]) + chunks[|chunks| - 1]
  }

  /** The trimmed non-empty comma pieces of all the items, in order. */
  function Pieces(items: seq<string>): seq<string>
  {
    Flatten(ItemChunks(items))
  }

  lemma {:induction false} PushChunksLookup(m: ParamMap, key: string, chunks: seq<seq<string>>, k: string)
    ensures Lookup(PushChunks(m, key, chunks), k) == Lookup(m, k) + (if k == key then Flatten(chunks) else [])
    decreases |chunks|
  {
    if |chunks| > 0 {
      var init := chunks[..|chunks| - 1];
      var parts := chunks[|chunks| - 1];
      PushChunksLookup(m, key, init, k);
      PushPartsLookup(PushChunks(m, key, init), key, parts, k);
      AppendAssoc(Lookup(m, k), Flatten(init), parts);
    }
  }

  lemma PushPartsLookup(m: ParamMap, key: string, parts: seq<string>, k: string)
    ensures Lookup(if |parts| == 0 then m else Push(m, key, parts), k)
         == Lookup(m, k) + (if k == key then parts else [])
  {
  }

  lemma AppendAssoc(a: seq<string>, b: seq<string>, c: seq<string>)
    ensures a + b + c == a + (b + c)
  {
  }

  /** One more record entry: skipped when undefined, else its item chunks pushed. */
  lemma NormalizeRecordStep(entries: Query)
    requires |entries| > 0
    ensures var e := entries[|entries| - 1];
            var m := NormalizeRecord(entries[..|entries| - 1]);
            NormalizeRecord(entries) == if e.1 == Undefined then m else PushChunks(m, e.0, ItemChunks(ToArray(e.1)))
  {
  }

  /**
   * From a record (whose keys are unique), a key maps to the trimmed non-empty
   * comma pieces of its value's items, in order.
   */
  lemma {:induction false} NormalizeRecordLookup(entries: Query, key: string)
    requires UniqueKeys(entries)
    ensures Lookup(NormalizeRecord(entries), key) == Pieces(ToArray(Get(entries, key)))
    decreases |entries|
  {
    if |entries| > 0 {
      var init := entries[..|entries| - 1];
      var e := entries[|entries| - 1];
      var m := NormalizeRecord(init);
      GetLast(entries, key);
      NormalizeRecordLookup(init, key);
      NormalizeRecordStep(entries);
      if e.1 != Undefined {
        var chunks := ItemChunks(ToArray(e.1));
        PushChunksLookup(m, e.0, chunks, key);
        if e.0 == key {
          assert Lookup(m, key) == [] by {
            assert Get(init, key) == Undefined;
            assert ItemChunks([]) == [];
          }
          assert [] + Flatten(chunks) == Flatten(chunks);
        }
      }
    }
  }

  // ---------------------------------------------------------------------------
  // getFirst, toUniqueArray, collectValues
  // ---------------------------------------------------------------------------

  /** `map.get(key)?.[0]`. */
  function GetFirst(m: ParamMap, key: string): (r: Option<string>)
    ensures IsNormalMap(m) ==> (r.None? <==> key !in m)
    ensures r.Some? ==> r.value != "" || !IsNormalMap(m)
    ensures key in m && m[key] != [] ==> r == Some(m[key][0])
  {
    if key in m && |m[key]| > 0 then Some(m[key][0]) else None
  }

  /** The head of a list, if any. */
  function Head(xs: seq<string>): Option<string>
  {
    if xs == [] then None else Some(xs[0])
  }

  /** On a normalised map, `getFirst` is the head of the key's list. */
  lemma GetFirstIsHead(m: ParamMap, key: string)
    requires IsNormalMap(m)
    ensures GetFirst(m, key) == Head(Lookup(m, key))
  {
  }

  /**
   * From `URLSearchParams`, the first non-empty value given for a key wins:
   * `?page=2&page=3` reads page `2`, and a key whose values are all empty reads
   * as absent.
   */
  lemma GetFirstOfPairs(pairs: seq<(string, string)>, key: string)
    ensures GetFirst(Normalized(UrlParams(pairs)), key) == Head(NonEmpty(ValuesOf(pairs, key)))
  {
    NormalizePairsLookup(pairs, key);
    GetFirstIsHead(NormalizePairs(pairs), key);
  }

  /** `?page=2&page=3` reads page `2`. */
  lemma RepeatedPageFirstWins()
    ensures GetFirst(Normalized(UrlParams([("page", "2"), ("page", "3")])), "page") == Some("2")
  {
    var pairs := [("page", "2"), ("page", "3")];
    GetFirstOfPairs(pairs, "page");
    assert pairs[..1] == [("page", "2")];
    assert [("page", "2")][..0] == [];
    assert ValuesOf(pairs, "page") == ["2", "3"];
    assert NonEmpty(["2", "3"]) == ["2", "3"] by {
      NonEmptyKeepsFull(["2", "3"]);
    }
  }

  /** From a record, the first trimmed non-empty comma piece of the key's value wins. */
  lemma GetFirstOfRecord(entries: Query, key: string)
    requires UniqueKeys(entries)
    ensures GetFirst(Normalized(RecordParams(entries)), key) == Head(Pieces(ToArray(Get(entries, key))))
  {
    NormalizeRecordLookup(entries, key);
    GetFirstIsHead(NormalizeRecord(entries), key);
  }

  /** `toUniqueArray(values)`: a Set filled with the non-empty values, read back in insertion order. */
  method ToUniqueArray(values: seq<string>) returns (r: seq<string>)
    ensures r == Dedup(NonEmpty(values))
  {
    r := [];
    for i := 0 to |values|
      invariant r == Dedup(NonEmpty(values[..i]))
    {
      var value := values[i];
      assert values[..i + 1] == values[..i] + [value];
      NonEmptyAppend(values[..i], [value]);
      if value == "" {
        assert NonEmpty([value]) == [];
        assert NonEmpty(values[..i]) + [] == NonEmpty(values[..i]);
        continue;
      }
      assert NonEmpty([value]) == [value];
      if value !in r {
        r := r + [value];
      }
    }
    assert values[..|values|] == values;
  }

  /** The lists under the given keys, one after the other. */
  function Concatenated(m: ParamMap, keys: seq<string>): seq<string>
    decreases |keys|
  {
    if |keys| == 0 then []
    else Concatenated(m, keys[..|keys| - 1]) + Lookup(m, keys[|keys| - 1])
  }

  /** What `collectValues(map, keys)` returns. */
  function Collected(m: ParamMap, keys: seq<string>): seq<string>
  {
    Dedup(NonEmpty(Concatenated(m, keys)))
  }

  /** `collectValues(map, keys)`: the lists under the keys gathered in key order, then made unique. */
  method CollectValues(m: ParamMap, keys: seq<string>) returns (r: seq<string>)
    ensures r == Collected(m, keys)
  {
    var collected: seq<string> := [];
    for i := 0 to |keys|
      invariant collected == Concatenated(m, keys[..i])
    {
      assert keys[..i + 1][..i] == keys[..i];
      var key := keys[i];
      if key !in m {
        continue;
      }
      collected := collected + m[key];
    }
    assert keys[..|keys|] == keys;
    r := ToUniqueArray(collected);
  }

  lemma {:induction false} ConcatenatedMembers(m: ParamMap, keys: seq<string>, x: string)
    ensures x in Concatenated(m, keys) <==> exists i :: 0 <= i < |keys| && x in Lookup(m, keys[i])
    decreases |keys|
  {
    if |keys| > 0 {
      var n := |keys| - 1;
      var init := keys[..n];
      ConcatenatedMembers(m, init, x);
      assert x in Concatenated(m, keys) <==> x in Concatenated(m, init) || x in Lookup(m, keys[n]);
      if exists i :: 0 <= i < |keys| && x in Lookup(m, keys[i]) {
        var i :| 0 <= i < |keys| && x in Lookup(m, keys[i]);
        if i < n {
          assert init[i] == keys[i];
        }
      }
      if x in Concatenated(m, init) {
        var i :| 0 <= i < |init| && x in Lookup(m, init[i]);
        assert keys[i] == init[i];
      }
    }
  }

  /**
   * The collected values are the union of the lists under the keys: each
   * non-empty value found under one of the keys appears exactly once, in the
   * order of first occurrence scanning the keys in order.
   */
  lemma CollectedIsUnion(m: ParamMap, keys: seq<string>)
    ensures forall x :: x in Collected(m, keys) <==>
              x != "" && exists i :: 0 <= i < |keys| && x in Lookup(m, keys[i])
    ensures NoDuplicates(Collected(m, keys))
    ensures forall i, j :: 0 <= i < j < |Collected(m, keys)| ==>
              FirstIndex(NonEmpty(Concatenated(m, keys)), Collected(m, keys)[i]) <
              FirstIndex(NonEmpty(Concatenated(m, keys)), Collected(m, keys)[j])
  {
    forall x ensures x in Collected(m, keys) <==>
                     x != "" && exists i :: 0 <= i < |keys| && x in Lookup(m, keys[i]) {
      ConcatenatedMembers(m, keys, x);
    }
    DedupIsOrderedSet(NonEmpty(Concatenated(m, keys)));
  }

  // ---------------------------------------------------------------------------
  // parseNumber
  // ---------------------------------------------------------------------------

  predicate IsDigit(c: char)
  {
    '0' <= c <= '9'
  }

  predicate AllDigits(s: string)
  {
    forall i :: 0 <= i < |s| ==> IsDigit(s[i])
  }

  /** The value of a run of decimal digits, most significant first. */
  function DigitsValue(ds: string): nat
    requires AllDigits(ds)
    decreases |ds|
  {
    if |ds| == 0 then 0
    else DigitsValue(ds[..|ds| - 1]) * 10 + (ds[|ds| - 1] as int - '0' as int)
  }

  /** The decimal digits of `n`, without leading zeros. */
  function Digits(n: nat): (s: string)
    ensures |s| >= 1 && AllDigits(s)
    decreases n
  {
    if n < 10 then [('0' as int + n) as char]
    else Digits(n / 10) + [('0' as int + n % 10) as char]
  }

  /** How an integer is written in decimal, with a leading `-` when negative. */
  function DecimalString(n: int): (s: string)
    ensures |s| >= 1
  {
    if n < 0 then "-" + Digits(-n) else Digits(n)
  }

  /** An optionally signed run of decimal digits; anything else is not a number here. */
  function ParseInteger(t: string): (r: Option<int>)
    ensures r.Some? <==> (AllDigits(t) && t != []) || (|t| >= 2 && (t[0] == '-' || t[0] == '+') && AllDigits(t[1..]))
  {
    if |t| >= 2 && t[0] == '-' && AllDigits(t[1..]) then Some(-(DigitsValue(t[1..]) as int))
    else if |t| >= 2 && t[0] == '+' && AllDigits(t[1..]) then Some(DigitsValue(t[1..]))
    else if t != [] && AllDigits(t) then Some(DigitsValue(t))
    else None
  }

  /**
   * `parseNumber(value)`: undefined for a missing or empty value; otherwise
   * `Number(value)` when finite. Surrounding whitespace is ignored and a blank
   * string reads as 0, as `Number` does.
   */
  function ParseNumber(value: Option<string>): (r: Option<int>)
    ensures value.None? || value == Some("") ==> r.None?
    ensures value.Some? && value.value != "" && Trim(value.value) == "" ==> r == Some(0)
  {
    match value
    case None => None
    case Some(s) =>
      if s == "" then None
      else
        var t := Trim(s);
        if t == "" then Some(0) else ParseInteger(t)
  }

  lemma {:induction false} DigitsValueOfDigits(n: nat)
    ensures DigitsValue(Digits(n)) == n
    decreases n
  {
    if n >= 10 {
      var front := Digits(n / 10);
      var ds := front + [('0' as int + n % 10) as char];
      assert ds[..|ds| - 1] == front;
      DigitsValueOfDigits(n / 10);
    }
  }

  /** Decimal text has no whitespace at either end. */
  lemma DecimalTrimmed(n: int)
    ensures IsTrimmed(DecimalString(n))
  {
    var s := DecimalString(n);
    var ds := Digits(if n < 0 then -n else n);
    assert IsDigit(ds[|ds| - 1]) && s[|s| - 1] == ds[|ds| - 1];
    assert s[0] == '-' || (s[0] == ds[0] && IsDigit(ds[0]));
  }

  lemma ParseIntegerOfDecimal(n: int)
    ensures ParseInteger(DecimalString(n)) == Some(n)
  {
    var s := DecimalString(n);
    var ds := Digits(if n < 0 then -n else n);
    DigitsValueOfDigits(if n < 0 then -n else n);
    if n < 0 {
      assert s[1..] == ds;
    } else {
      assert s[0] != '-' && s[0] != '+' by {
        assert IsDigit(ds[0]);
      }
    }
  }

  /** Every integer, written in decimal, parses back to itself. */
  lemma ParseNumberOfDecimal(n: int)
    ensures ParseNumber(Some(DecimalString(n))) == Some(n)
  {
    DecimalTrimmed(n);
    ParseIntegerOfDecimal(n);
  }

  // ---------------------------------------------------------------------------
  // the sort option
  // ---------------------------------------------------------------------------

  /** `SortByOption`. */
  datatype SortBy = PriceAsc | PriceDesc | Latest

  /** The sort read from `sort`, or from `sortBy` when `sort` is absent. */
  function SortParam(m: ParamMap): (r: Option<string>)
    ensures "sort" in m && m["sort"] != [] ==> r == Some(m["sort"][0])
    ensures "sort" !in m ==> r == GetFirst(m, "sortBy")
  {
    match GetFirst(m, "sort")
    case Some(v) => Some(v)
    case None => GetFirst(m, "sortBy")
  }

  /** `featured` means no sort, `newest` means `latest`, and only the three options are kept. */
  function NormalizeSort(param: Option<string>): (r: Option<SortBy>)
    ensures r == Some(PriceAsc) <==> param == Some("price_asc")
    ensures r == Some(PriceDesc) <==> param == Some("price_desc")
    ensures r == Some(Latest) <==> param == Some("latest") || param == Some("newest")
  {
    var normalized := if param == Some("featured") then None
                      else if param == Some("newest") then Some("latest")
                      else param;
    match normalized
    case Some("price_asc") => Some(PriceAsc)
    case Some("price_desc") => Some(PriceDesc)
    case Some("latest") => Some(Latest)
    case _ => None
  }

  // ---------------------------------------------------------------------------
  // price bands
  // ---------------------------------------------------------------------------

  /** A band's upper bound: a number, or `Number.POSITIVE_INFINITY`. */
  datatype Bound = Finite(value: int) | Unbounded

  datatype Band = Band(min: int, max: Bound)

  /** `PRICE_RANGE_LOOKUP[id]`. */
  function PriceRangeOf(id: string): (r: Option<Band>)
    ensures r.Some? <==> id in {"under-100", "100-150", "150-200", "200-plus"}
    ensures r.Some? ==> (r.value.max.Unbounded? <==> id == "200-plus")
    ensures r.Some? && r.value.max.Finite? ==> r.value.min < r.value.max.value
  {
    if id == "under-100" then Some(Band(0, Finite(100)))
    else if id == "100-150" then Some(Band(100, Finite(150)))
    else if id == "150-200" then Some(Band(150, Finite(200)))
    else if id == "200-plus" then Some(Band(200, Unbounded))
    else None
  }

  /** The loop state: `minCandidate`, `maxCandidate`, `hasInfiniteMax`. */
  datatype BandAcc = BandAcc(minCandidate: Option<int>, maxCandidate: Option<int>, hasInfiniteMax: bool)

  function MinOpt(a: Option<int>, b: int): int
  {
    if a.None? then b else if a.value <= b then a.value else b
  }

  function MaxOpt(a: Option<int>, b: int): int
  {
    if a.None? then b else if a.value >= b then a.value else b
  }

  /** One price value folded into the candidates; unknown ids change nothing. */
  function BandStep(acc: BandAcc, value: string): BandAcc
  {
    match PriceRangeOf(value)
    case None => acc
    case Some(band) =>
      var minCandidate := Some(MinOpt(acc.minCandidate, band.min));
      if band.max.Unbounded? then BandAcc(minCandidate, acc.maxCandidate, true)
      else BandAcc(minCandidate, Some(MaxOpt(acc.maxCandidate, band.max.value)), acc.hasInfiniteMax)
  }

  /** The candidates after the loop over `values`. */
  function Bands(values: seq<string>): BandAcc
    decreases |values|
  {
    if |values| == 0 then BandAcc(None, None, false)
    else BandStep(Bands(values[..|values| - 1]), values[|values| - 1])
  }

  predicate IsKnownBand(value: string)
  {
    PriceRangeOf(value).Some?
  }

  predicate IsFiniteBand(value: string)
  {
    PriceRangeOf(value).Some? && PriceRangeOf(value).value.max.Finite?
  }

  /** The least minimum of the known bands among `values`, when there is one. */
  lemma {:induction false} BandsMin(values: seq<string>)
    ensures Bands(values).minCandidate.Some? <==> exists i :: 0 <= i < |values| && IsKnownBand(values[i])
    ensures Bands(values).minCandidate.Some? ==>
              (forall i :: 0 <= i < |values| && IsKnownBand(values[i]) ==>
                 Bands(values).minCandidate.value <= PriceRangeOf(values[i]).value.min) &&
              (exists i :: 0 <= i < |values| && IsKnownBand(values[i]) &&
                 Bands(values).minCandidate.value == PriceRangeOf(values[i]).value.min)
    decreases |values|
  {
    if |values| > 0 {
      var init := values[..|values| - 1];
      BandsMin(init);
      assert forall i :: 0 <= i < |init| ==> init[i] == values[i];
      var last := |values| - 1;
      if Bands(init).minCandidate.Some? && !IsKnownBand(values[last]) {
        var j :| 0 <= j < |init| && IsKnownBand(init[j]) && Bands(init).minCandidate.value == PriceRangeOf(init[j]).value.min;
        assert values[j] == init[j];
      }
      if Bands(init).minCandidate.Some? && IsKnownBand(values[last]) {
        var j :| 0 <= j < |init| && IsKnownBand(init[j]) && Bands(init).minCandidate.value == PriceRangeOf(init[j]).value.min;
        assert values[j] == init[j];
      }
    }
  }

  /** The greatest finite maximum of the known bands among `values`, when there is one. */
  lemma {:induction false} BandsMax(values: seq<string>)
    ensures Bands(values).maxCandidate.Some? <==> exists i :: 0 <= i < |values| && IsFiniteBand(values[i])
    ensures Bands(values).maxCandidate.Some? ==>
              (forall i :: 0 <= i < |values| && IsFiniteBand(values[i]) ==>
                 PriceRangeOf(values[i]).value.max.value <= Bands(values).maxCandidate.value) &&
              (exists i :: 0 <= i < |values| && IsFiniteBand(values[i]) &&
                 Bands(values).maxCandidate.value == PriceRangeOf(values[i]).value.max.value)
    decreases |values|
  {
    if |values| > 0 {
      var init := values[..|values| - 1];
      BandsMax(init);
      assert forall i :: 0 <= i < |init| ==> init[i] == values[i];
      var last := |values| - 1;
      if Bands(init).maxCandidate.Some? {
        var j :| 0 <= j < |init| && IsFiniteBand(init[j]) && Bands(init).maxCandidate.value == PriceRangeOf(init[j]).value.max.value;
        assert values[j] == init[j];
      }
    }
  }

  /** The unbounded band is among `values` exactly when the upper candidate is cleared. */
  lemma {:induction false} BandsUnbounded(values: seq<string>)
    ensures Bands(values).hasInfiniteMax <==> "200-plus" in values
    decreases |values|
  {
    if |values| > 0 {
      var init := values[..|values| - 1];
      BandsUnbounded(init);
      assert values == init + [values[|values| - 1]];
    }
  }

  /** The price window: the explicit bounds widened by the matched bands. */
  function PriceBounds(explicitMin: Option<int>, explicitMax: Option<int>, values: seq<string>): (Option<int>, Option<int>)
  {
    if |values| == 0 then (explicitMin, explicitMax)
    else
      var acc := Bands(values);
      var lo := if acc.minCandidate.None? then explicitMin else Some(MinOpt(explicitMin, acc.minCandidate.value));
      var hi := if acc.hasInfiniteMax then None
                else if acc.maxCandidate.None? then explicitMax
                else Some(MaxOpt(explicitMax, acc.maxCandidate.value));
      (lo, hi)
  }

  /**
   * What the price window means: the lower bound is the least of the explicit
   * minimum and the known band minimums, the upper bound the greatest of the
   * explicit maximum and the finite band maximums (each attained by one of
   * them); with no known band the explicit bounds stand; the unbounded band
   * clears the upper bound, even an explicit one.
   */
  lemma PriceBoundsMeaning(explicitMin: Option<int>, explicitMax: Option<int>, values: seq<string>)
    ensures var (lo, hi) := PriceBounds(explicitMin, explicitMax, values);
            && ((forall i :: 0 <= i < |values| ==> !IsKnownBand(values[i])) ==> lo == explicitMin && hi == explicitMax)
            && ("200-plus" in values ==> hi.None?)
            && ("200-plus" !in values ==>
                  (hi.None? <==> explicitMax.None? && forall i :: 0 <= i < |values| ==> !IsFiniteBand(values[i])))
            && (lo.None? <==> explicitMin.None? && forall i :: 0 <= i < |values| ==> !IsKnownBand(values[i]))
            && (explicitMin.Some? && lo.Some? ==> lo.value <= explicitMin.value)
            && (forall i :: 0 <= i < |values| && IsKnownBand(values[i]) ==> lo.Some? && lo.value <= PriceRangeOf(values[i]).value.min)
            && (explicitMax.Some? && hi.Some? ==> explicitMax.value <= hi.value)
            && (forall i :: 0 <= i < |values| && IsFiniteBand(values[i]) && hi.Some? ==> PriceRangeOf(values[i]).value.max.value <= hi.value)
            && (lo.Some? ==>
                  (explicitMin.Some? && lo.value == explicitMin.value) ||
                  exists i :: 0 <= i < |values| && IsKnownBand(values[i]) && lo.value == PriceRangeOf(values[i]).value.min)
            && (hi.Some? ==>
                  (explicitMax.Some? && hi.value == explicitMax.value) ||
                  exists i :: 0 <= i < |values| && IsFiniteBand(values[i]) && hi.value == PriceRangeOf(values[i]).value.max.value)
  {
    BandsMin(values);
    BandsMax(values);
    BandsUnbounded(values);
  }

  /** `under-100` together with `150-200` gives the window 0..200. */
  lemma TwoBandsExample()
    ensures PriceBounds(None, None, ["under-100", "150-200"]) == (Some(0), Some(200))
  {
    var vs := ["under-100", "150-200"];
    assert Bands(vs[..1]) == BandAcc(Some(0), Some(100), false) by {
      assert vs[..1][..0] == [];
      assert vs[..1][0] == "under-100";
    }
    assert Bands(vs) == BandAcc(Some(0), Some(200), false);
  }

  /** The loop over the price values of `parseFilterParams`. */
  method FoldBands(values: seq<string>) returns (acc: BandAcc)
    ensures acc == Bands(values)
  {
    var minCandidate: Option<int> := None;
    var maxCandidate: Option<int> := None;
    var hasInfiniteMax := false;
    for i := 0 to |values|
      invariant BandAcc(minCandidate, maxCandidate, hasInfiniteMax) == Bands(values[..i])
    {
      assert values[..i + 1][..i] == values[..i];
      var range := PriceRangeOf(values[i]);
      if range.None? {
        continue;
      }
      var band := range.value;
      minCandidate := if minCandidate.None? then Some(band.min) else Some(MinOpt(minCandidate, band.min));
      if band.max.Unbounded? {
        hasInfiniteMax := true;
      } else {
        maxCandidate := if maxCandidate.None? then Some(band.max.value) else Some(MaxOpt(maxCandidate, band.max.value));
      }
    }
    assert values[..|values|] == values;
    acc := BandAcc(minCandidate, maxCandidate, hasInfiniteMax);
  }

  // ---------------------------------------------------------------------------
  // page, limit, search, gender
  // ---------------------------------------------------------------------------

  /** `Math.max(parsed ?? 1, 1)`. */
  function PageOf(parsed: Option<int>): (page: int)
    ensures page >= 1
    ensures parsed.None? ==> page == 1
    ensures parsed.Some? && parsed.value >= 1 ==> page == parsed.value
    ensures parsed.Some? && parsed.value < 1 ==> page == 1
  {
    var raw := parsed.GetOr(1);
    if raw >= 1 then raw else 1
  }

  /** `Math.max(1, Math.min(parsed ?? 12, 60))`. */
  function LimitOf(parsed: Option<int>): (limit: int)
    ensures 1 <= limit <= 60
    ensures parsed.None? ==> limit == 12
    ensures parsed.Some? && 1 <= parsed.value <= 60 ==> limit == parsed.value
    ensures parsed.Some? && parsed.value > 60 ==> limit == 60
    ensures parsed.Some? && parsed.value < 1 ==> limit == 1
  {
    var raw := parsed.GetOr(12);
    var capped := if raw <= 60 then raw else 60;
    if capped >= 1 then capped else 1
  }

  /** `getFirst(map, key)?.trim()`, kept only when non-empty. */
  function TrimmedField(m: ParamMap, key: string): (r: Option<string>)
    ensures r.Some? ==> r.value != "" && IsTrimmed(r.value)
    ensures r.None? <==> GetFirst(m, key).None? || Trim(GetFirst(m, key).value) == ""
    ensures r.Some? ==> r.value == Trim(GetFirst(m, key).value)
  {
    match GetFirst(m, key)
    case None => None
    case Some(v) => var t := Trim(v); if t == "" then None else Some(t)
  }

  // ---------------------------------------------------------------------------
  // parseFilterParams
  // ---------------------------------------------------------------------------

  /**
   * `ProductFilterParams`. An absent optional field is `None`; an absent id
   * list is `[]`, the only list the source leaves out.
   */
  datatype Filters = Filters(
    search: Option<string>,
    categoryIds: seq<string>,
    brandIds: seq<string>,
    gender: Option<string>,
    colorIds: seq<string>,
    priceMin: Option<int>,
    priceMax: Option<int>,
    sortBy: Option<SortBy>,
    page: int,
    limit: int)

  const CategoryKeys: seq<string> := ["category", "categoryId", "categoryIds"]
  const BrandKeys: seq<string> := ["brand", "brandId", "brandIds"]
  const ColorKeys: seq<string> := ["color", "colorId", "colorIds"]
  const PriceKeys: seq<string> := ["price", "priceId", "priceIds"]

  /** The filters derived from a normalised map. */
  function FiltersOf(m: ParamMap): Filters
  {
    var (lo, hi) := PriceBounds(ParseNumber(GetFirst(m, "priceMin")), ParseNumber(GetFirst(m, "priceMax")),
                                Collected(m, PriceKeys));
    Filters(
      search := TrimmedField(m, "search"),
      categoryIds := Collected(m, CategoryKeys),
      brandIds := Collected(m, BrandKeys),
      gender := TrimmedField(m, "gender"),
      colorIds := Collected(m, ColorKeys),
      priceMin := lo,
      priceMax := hi,
      sortBy := NormalizeSort(SortParam(m)),
      page := PageOf(ParseNumber(GetFirst(m, "page"))),
      limit := LimitOf(ParseNumber(GetFirst(m, "limit"))))
  }

  /** What `parseFilterParams(searchParams)` returns. */
  function FilterParamsOf(input: ParamsInput): Filters
  {
    FiltersOf(Normalized(input))
  }

  /** `parseFilterParams(searchParams)`. */
  method ParseFilterParams(input: ParamsInput) returns (params: Filters)
    ensures params == FilterParamsOf(input)
  {
    var m := NormalizeSearchParams(input);

    var search := TrimmedField(m, "search");
    var gender := TrimmedField(m, "gender");
    var sortBy := NormalizeSort(SortParam(m));

    var categoryIds := CollectValues(m, CategoryKeys);
    var brandIds := CollectValues(m, BrandKeys);
    var colorIds := CollectValues(m, ColorKeys);

    var priceMin := ParseNumber(GetFirst(m, "priceMin"));
    var priceMax := ParseNumber(GetFirst(m, "priceMax"));
    ghost var explicitMin, explicitMax := priceMin, priceMax;
    var priceValues := CollectValues(m, PriceKeys);
    if |priceValues| > 0 {
      var acc := FoldBands(priceValues);
      if acc.minCandidate.Some? {
        priceMin := Some(MinOpt(priceMin, acc.minCandidate.value));
      }
      if acc.hasInfiniteMax {
        priceMax := None;
      } else if acc.maxCandidate.Some? {
        priceMax := Some(MaxOpt(priceMax, acc.maxCandidate.value));
      }
    }
    assert (priceMin, priceMax) == PriceBounds(explicitMin, explicitMax, priceValues);

    var page := PageOf(ParseNumber(GetFirst(m, "page")));
    var limit := LimitOf(ParseNumber(GetFirst(m, "limit")));

    params := Filters(search, categoryIds, brandIds, gender, colorIds, priceMin, priceMax, sortBy, page, limit);
  }

  /** The page/limit window always lies within its clamps, and the text fields are trimmed and non-empty. */
  lemma FilterParamsBounds(input: ParamsInput)
    ensures var f := FilterParamsOf(input);
            && f.page >= 1 && 1 <= f.limit <= 60
            && (f.search.Some? ==> f.search.value != "" && IsTrimmed(f.search.value))
            && (f.gender.Some? ==> f.gender.value != "" && IsTrimmed(f.gender.value))
  {
  }

  /**
   * The category ids are the union of the lists under the three category
   * keys, duplicate-free (and likewise for brands and colours).
   */
  lemma FilterParamsIds(input: ParamsInput)
    ensures var f := FilterParamsOf(input);
            var m := Normalized(input);
            && NoDuplicates(f.categoryIds) && NoDuplicates(f.brandIds) && NoDuplicates(f.colorIds)
            && (forall x :: x in f.categoryIds <==> x != "" && exists i :: 0 <= i < 3 && x in Lookup(m, CategoryKeys[i]))
            && (forall x :: x in f.brandIds <==> x != "" && exists i :: 0 <= i < 3 && x in Lookup(m, BrandKeys[i]))
            && (forall x :: x in f.colorIds <==> x != "" && exists i :: 0 <= i < 3 && x in Lookup(m, ColorKeys[i]))
  {
    var m := Normalized(input);
    CollectedIsUnion(m, CategoryKeys);
    CollectedIsUnion(m, BrandKeys);
    CollectedIsUnion(m, ColorKeys);
  }

  /**
   * From a record, a category id is selected exactly when it is one of the
   * comma pieces of a value under `category`, `categoryId` or `categoryIds`.
   */
  lemma RecordCategoryIds(entries: Query)
    requires UniqueKeys(entries)
    ensures forall x :: x in FilterParamsOf(RecordParams(entries)).categoryIds <==>
              exists i :: 0 <= i < 3 && x in Pieces(ToArray(Get(entries, CategoryKeys[i])))
  {
    var m := Normalized(RecordParams(entries));
    CollectedIsUnion(m, CategoryKeys);
    forall i | 0 <= i < 3 ensures Lookup(m, CategoryKeys[i]) == Pieces(ToArray(Get(entries, CategoryKeys[i]))) {
      NormalizeRecordLookup(entries, CategoryKeys[i]);
    }
    forall x | x in Pieces(ToArray(Get(entries, CategoryKeys[0]))) + Pieces(ToArray(Get(entries, CategoryKeys[1]))) + Pieces(ToArray(Get(entries, CategoryKeys[2])))
      ensures x != ""
    {
      PiecesNonEmpty(ToArray(Get(entries, CategoryKeys[0])));
      PiecesNonEmpty(ToArray(Get(entries, CategoryKeys[1])));
      PiecesNonEmpty(ToArray(Get(entries, CategoryKeys[2])));
    }
  }

  lemma {:induction false} FlattenNonEmpty(chunks: seq<seq<string>>)
    requires NonEmptyChunks(chunks)
    ensures "" !in Flatten(chunks)
    decreases |chunks|
  {
    if |chunks| > 0 {
      var init := chunks[..|chunks| - 1];
      assert NonEmptyChunks(init) by {
        forall i, j | 0 <= i < |init| && 0 <= j < |init[i]| ensures init[i][j] != "" {
          assert init[i] == chunks[i];
        }
      }
      FlattenNonEmpty(init);
      var last := chunks[|chunks| - 1];
      assert forall j :: 0 <= j < |last| ==> last[j] != "";
    }
  }

  lemma PiecesNonEmpty(items: seq<string>)
    ensures "" !in Pieces(items)
  {
    FlattenNonEmpty(ItemChunks(items));
  }

  /** The sort read through the map, from `sort` first and `sortBy` only when `sort` is absent. */
  lemma FilterParamsSort(input: ParamsInput)
    ensures var m := Normalized(input);
            var f := FilterParamsOf(input);
            && (f.sortBy == Some(Latest) <==> SortParam(m) == Some("latest") || SortParam(m) == Some("newest"))
            && ("sort" in m ==> SortParam(m) == Some(m["sort"][0]))
            && ("sort" !in m ==> SortParam(m) == GetFirst(m, "sortBy"))
  {
  }
}
