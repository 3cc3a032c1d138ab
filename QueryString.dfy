/**
 * The vendored query-string module: `parse`, `stringify` and `stringifyUrl`
 * with the two array formats the application uses ("comma", the default, and
 * "none"), over the object model of the Records module.
 */
module QueryString {
  import opened Text
  import opened Percent
  import opened Records

  /** `"comma"` joins the items of an array with commas; `"none"` repeats the key. */
  datatype ArrayFormat = Comma | NoFormat

  /** Stringify options, with the defaults of the source already applied. */
  datatype StringifyOptions = StringifyOptions(
    arrayFormat: ArrayFormat,
    skipEmptyString: bool,
    skipNull: bool,
    sort: bool)

  /** `toArray(value)`: undefined and null hold no item, a string holds one. */
  function ToArray(v: QVal): seq<string>
  {
    match v
    case Undefined => []
    case Null => []
    case Str(s) => [s]
    case Arr(items) => items
  }

  /** How parse stores what it gathered under a key: nothing is "", one item a string, more an array. */
  function Collapse(xs: seq<string>): (v: QVal)
    ensures v.Str? || v.Arr?
    ensures ToArray(v) == if xs == [] then [""] else xs
  {
    if |xs| == 0 then Str("")
    else if |xs| == 1 then Str(xs[0])
    else Arr(xs)
  }

  // ---------------------------------------------------------------------------
  // parse
  // ---------------------------------------------------------------------------

  /** `input` without one leading `?`. */
  function WithoutQuestionMark(input: string): string
  {
    if |input| > 0 && input[0] == '?' then input[1..] else input
  }

  /** The items a decoded value contributes: its trimmed non-empty comma pieces, or the whole value. */
  function CleanValues(decoded: string, arrayFormat: ArrayFormat): (r: seq<string>)
    ensures forall i :: 0 <= i < |r| ==> IsParsedItem(r[i], arrayFormat)
  {
    if arrayFormat == Comma then CommaPieces(decoded) else NonEmpty([decoded])
  }

  /** What one `&`-separated segment does to the object being built. */
  function ParseStep(acc: Query, segment: string, arrayFormat: ArrayFormat): Query
  {
    if segment == "" then acc
    else
      var pieces := Split(segment, '=');
      var key := Decode(pieces[0]);
      if key == "" then acc
      else if |pieces| == 1 then Put(acc, key, Null)
      else
        var decoded := Decode(Join(pieces[1..], '='));
        Put(acc, key, Collapse(ToArray(Get(acc, key)) + CleanValues(decoded, arrayFormat)))
  }

  /** The segments applied in order to `acc`. */
  function ParseSegments(acc: Query, segments: seq<string>, arrayFormat: ArrayFormat): (r: Query)
    ensures IsParsedQuery(acc, arrayFormat) ==> IsParsedQuery(r, arrayFormat)
    decreases |segments|
  {
    if |segments| == 0 then acc
    else
      ParseStepShape(acc, segments[0], arrayFormat);
      ParseSegments(ParseStep(acc, segments[0], arrayFormat), segments[1..], arrayFormat)
  }

  /** The object `parse(input, { arrayFormat })` returns. */
  function Parsed(input: string, arrayFormat: ArrayFormat): (r: Query)
    ensures IsParsedQuery(r, arrayFormat)
  {
    var source := WithoutQuestionMark(input);
    if source == "" then []
    else ParseSegments([], Split(source, '&'), arrayFormat)
  }

  /** `parse`: one pass over the `&`-separated segments, updating the result object in place. */
  method Parse(input: string, arrayFormat: ArrayFormat) returns (result: Query)
    ensures result == Parsed(input, arrayFormat)
  {
    var source := if |input| > 0 && input[0] == '?' then input[1..] else input;
    result := [];
    if source == "" {
      return;
    }
    result := ApplySegments(Split(source, '&'), arrayFormat);
  }

  /** The segment loop of `parse`: each segment applied in turn to an object that starts empty. */
  method ApplySegments(segments: seq<string>, arrayFormat: ArrayFormat) returns (result: Query)
    ensures result == ParseSegments([], segments, arrayFormat)
  {
    result := [];
    assert segments[0..] == segments;
    for i := 0 to |segments|
      invariant ParseSegments(result, segments[i..], arrayFormat) == ParseSegments([], segments, arrayFormat)
    {
      ParseSegmentsStep(result, segments, i, arrayFormat);
      result := ApplySegment(result, segments[i], arrayFormat);
    }
    assert segments[|segments|..] == [];
  }

  lemma ParseSegmentsStep(acc: Query, segments: seq<string>, i: nat, arrayFormat: ArrayFormat)
    requires i < |segments|
    ensures ParseSegments(acc, segments[i..], arrayFormat)
         == ParseSegments(ParseStep(acc, segments[i], arrayFormat), segments[i + 1..], arrayFormat)
  {
    assert segments[i..][1..] == segments[i + 1..];
  }

  /** The body of the segment loop of `parse`: one segment applied to the object. */
  method ApplySegment(result: Query, segment: string, arrayFormat: ArrayFormat) returns (next: Query)
    ensures next == ParseStep(result, segment, arrayFormat)
  {
    next := result;
    if segment == "" {
      return;
    }
    var pieces := Split(segment, '=');
    var key := Decode(pieces[0]);
    if key == "" {
      return;
    }
    if |pieces| == 1 {
      next := Put(result, key, Null);
      return;
    }
    var rawValue := Join(pieces[1..], '=');
    var decoded := Decode(rawValue);
    var values := if arrayFormat == Comma then TrimAll(Split(decoded, ',')) else [decoded];
    var cleanValues := NonEmpty(values);
    assert cleanValues == CleanValues(decoded, arrayFormat);
    var existing := Get(result, key);
    var aggregated := ToArray(existing) + cleanValues;
    if |aggregated| == 0 {
      next := Put(result, key, Str(""));
    } else if |aggregated| == 1 {
      next := Put(result, key, Str(aggregated[0]));
    } else {
      next := Put(result, key, Arr(aggregated));
    }
  }

  // ---------------------------------------------------------------------------
  // the shape of what parse returns
  // ---------------------------------------------------------------------------

  /** An item parse stores after the first: non-empty, and in comma mode comma-free and trimmed. */
  predicate IsParsedItem(x: string, arrayFormat: ArrayFormat)
  {
    x != "" && (arrayFormat == Comma ==> ',' !in x && IsTrimmed(x))
  }

  /**
   * A value parse can store: null, "" or one item, or an array of at least two
   * items of which only the first may be "" (a key first seen as `k=`).
   */
  predicate IsParsedValue(v: QVal, arrayFormat: ArrayFormat)
  {
    match v
    case Undefined => false
    case Null => true
    case Str(s) => s == "" || IsParsedItem(s, arrayFormat)
    case Arr(xs) =>
      |xs| >= 2 && (xs[0] == "" || IsParsedItem(xs[0], arrayFormat)) &&
      forall i :: 1 <= i < |xs| ==> IsParsedItem(xs[i], arrayFormat)
  }

  /** An object parse can return: keys unique and non-empty, every value of the parsed shape. */
  predicate IsParsedQuery(q: Query, arrayFormat: ArrayFormat)
  {
    UniqueKeys(q) &&
    forall i :: 0 <= i < |q| ==> q[i].0 != "" && IsParsedValue(q[i].1, arrayFormat)
  }

  /** Appending clean items to what a parsed key held gives a value of the parsed shape again. */
  lemma AggregateShape(old_: QVal, clean: seq<string>, arrayFormat: ArrayFormat)
    requires old_ == Undefined || IsParsedValue(old_, arrayFormat)
    requires forall i :: 0 <= i < |clean| ==> IsParsedItem(clean[i], arrayFormat)
    ensures IsParsedValue(Collapse(ToArray(old_) + clean), arrayFormat)
  {
    var xs := ToArray(old_) + clean;
    assert forall i :: 1 <= i < |xs| ==> IsParsedItem(xs[i], arrayFormat);
  }

  /** What a parsed object holds under a key is undefined or of the parsed shape. */
  lemma GetShape(acc: Query, key: string, arrayFormat: ArrayFormat)
    requires IsParsedQuery(acc, arrayFormat)
    ensures Get(acc, key) == Undefined || IsParsedValue(Get(acc, key), arrayFormat)
  {
    if key in Keys(acc) {
      var i :| 0 <= i < |acc| && Keys(acc)[i] == key;
    }
  }

  /** Storing a parsed value under a non-empty key keeps the parsed shape. */
  lemma PutShape(acc: Query, key: string, v: QVal, arrayFormat: ArrayFormat)
    requires IsParsedQuery(acc, arrayFormat)
    requires key != "" && IsParsedValue(v, arrayFormat)
    ensures IsParsedQuery(Put(acc, key, v), arrayFormat)
  {
    PutUnique(acc, key, v);
    PutEntries(acc, key, v);
    var r := Put(acc, key, v);
    forall i | 0 <= i < |r| ensures r[i].0 != "" && IsParsedValue(r[i].1, arrayFormat) {
      assert r[i] in r;
    }
  }

  /** One parse step keeps the parsed shape. */
  lemma ParseStepShape(acc: Query, segment: string, arrayFormat: ArrayFormat)
    ensures IsParsedQuery(acc, arrayFormat) ==> IsParsedQuery(ParseStep(acc, segment, arrayFormat), arrayFormat)
  {
    if IsParsedQuery(acc, arrayFormat) && segment != "" {
      var pieces := Split(segment, '=');
      var key := Decode(pieces[0]);
      if key != "" {
        if |pieces| == 1 {
          PutShape(acc, key, Null, arrayFormat);
        } else {
          var clean := CleanValues(Decode(Join(pieces[1..], '=')), arrayFormat);
          GetShape(acc, key, arrayFormat);
          AggregateShape(Get(acc, key), clean, arrayFormat);
          PutShape(acc, key, Collapse(ToArray(Get(acc, key)) + clean), arrayFormat);
        }
      }
    }
  }

  // ---------------------------------------------------------------------------
  // key order
  // ---------------------------------------------------------------------------

  /**
   * The position of a character in UTF-16 code-unit order, the order of
   * `Array.prototype.sort` on strings: below U+D800 a character is its own code
   * unit; a supplementary character starts with a high surrogate, so it sorts
   * after those and before U+E000..U+FFFF.
   */
  function CodeUnitRank(c: char): (r: int)
    ensures (c as int < 0xD800) == (r < 0xD800)
  {
    if c as int < 0xD800 then c as int
    else if c as int <= 0xFFFF then c as int + 0x11_0000
    else c as int
  }

  /** Different characters have different ranks. */
  lemma CodeUnitRankInjective(c: char, d: char)
    requires c != d
    ensures CodeUnitRank(c) != CodeUnitRank(d)
  {
  }

  /** `a <= b` in the string order of `keys.sort()`. */
  predicate StrLe(a: string, b: string)
    decreases |a|
  {
    |a| == 0 ||
    (|b| > 0 &&
     (CodeUnitRank(a[0]) < CodeUnitRank(b[0]) ||
      (a[0] == b[0] && StrLe(a[1..], b[1..]))))
  }

  lemma {:induction false} StrLeTotal(a: string, b: string)
    ensures StrLe(a, b) || StrLe(b, a)
    decreases |a|
  {
    if |a| > 0 && |b| > 0 {
      if a[0] == b[0] {
        StrLeTotal(a[1..], b[1..]);
      } else {
        CodeUnitRankInjective(a[0], b[0]);
      }
    }
  }

  lemma {:induction false} StrLeTransitive(a: string, b: string, c: string)
    requires StrLe(a, b) && StrLe(b, c)
    ensures StrLe(a, c)
    decreases |a|
  {
    if |a| > 0 && a[0] == b[0] && b[0] == c[0] {
      StrLeTransitive(a[1..], b[1..], c[1..]);
    }
  }

  lemma {:induction false} StrLeAntisymmetric(a: string, b: string)
    requires StrLe(a, b) && StrLe(b, a)
    ensures a == b
    decreases |a|
  {
    if |a| > 0 {
      StrLeAntisymmetric(a[1..], b[1..]);
      assert a == [a[0]] + a[1..] && b == [b[0]] + b[1..];
    }
  }

  predicate IsSorted(ks: seq<string>)
  {
    forall i, j :: 0 <= i < j < |ks| ==> StrLe(ks[i], ks[j])
  }

  /** `x` put into the list `s` before the first element it does not follow. */
  function InsertKey(x: string, s: seq<string>): (r: seq<string>)
    ensures multiset(r) == multiset(s) + multiset{x}
    ensures forall y :: y in r <==> y == x || y in s
    decreases |s|
  {
    if |s| == 0 then [x]
    else if StrLe(x, s[0]) then [x] + s
    else
      assert s == [s[0]] + s[1..];
      [s[0]] + InsertKey(x, s[1..])
  }

  /** Insertion keeps a sorted list sorted. */
  lemma {:induction false} InsertKeySorted(x: string, s: seq<string>)
    requires IsSorted(s)
    ensures IsSorted(InsertKey(x, s))
    decreases |s|
  {
    var r := InsertKey(x, s);
    if |s| == 0 {
    } else if StrLe(x, s[0]) {
      forall j | 1 <= j < |r| ensures StrLe(x, r[j]) {
        if j > 1 { StrLeTransitive(x, s[0], s[j - 1]); }
      }
    } else {
      var rest := InsertKey(x, s[1..]);
      InsertKeySorted(x, s[1..]);
      StrLeTotal(x, s[0]);
      assert s == [s[0]] + s[1..];
      forall j | 1 <= j < |r| ensures StrLe(s[0], r[j]) {
        assert r[j] in rest;
        if r[j] != x {
          var k :| 1 <= k < |s| && s[k] == r[j];
        }
      }
    }
  }

  /** `keys.sort()`: the same keys, in ascending order. */
  function SortKeys(ks: seq<string>): (r: seq<string>)
    ensures multiset(r) == multiset(ks)
    ensures IsSorted(r)
  {
    if |ks| == 0 then []
    else
      assert ks == [ks[0]] + ks[1..];
      var sorted := SortKeys(ks[1..]);
      InsertKeySorted(ks[0], sorted);
      InsertKey(ks[0], sorted)
  }

  /** Insertion into a list without `x` and without duplicates brings in no duplicate. */
  lemma {:induction false} InsertKeyDistinct(x: string, s: seq<string>)
    requires x !in s && NoDuplicates(s)
    ensures NoDuplicates(InsertKey(x, s))
    decreases |s|
  {
    if |s| > 0 && !StrLe(x, s[0]) {
      InsertKeyDistinct(x, s[1..]);
      assert s[0] !in s[1..];
    }
  }

  /** Sorting distinct keys keeps them distinct. */
  lemma {:induction false} SortKeysDistinct(ks: seq<string>)
    requires NoDuplicates(ks)
    ensures NoDuplicates(SortKeys(ks))
    decreases |ks|
  {
    if |ks| > 0 {
      SortKeysDistinct(ks[1..]);
      var sorted := SortKeys(ks[1..]);
      assert ks[0] !in multiset(ks[1..]);
      assert ks[0] !in sorted;
      InsertKeyDistinct(ks[0], sorted);
    }
  }

  /** `Object.keys(q)`, sorted when asked to. */
  function OrderedKeys(q: Query, sort: bool): (ks: seq<string>)
    ensures multiset(ks) == multiset(Keys(q))
  {
    if sort then SortKeys(Keys(q)) else Keys(q)
  }

  /** A sorted list is fixed by sorting, and the key order of a sorted object is the object's order. */
  lemma {:induction false} SortKeysOfSorted(ks: seq<string>)
    requires IsSorted(ks) && NoDuplicates(ks)
    ensures SortKeys(ks) == ks
    decreases |ks|
  {
    if |ks| > 0 {
      SortKeysOfSorted(ks[1..]);
      var rest := ks[1..];
      if |rest| > 0 {
        assert StrLe(ks[0], rest[0]);
      }
    }
  }

  // ---------------------------------------------------------------------------
  // stringify
  // ---------------------------------------------------------------------------

  /** The `key=item` segments of the "none" format, in item order, skipping "" when asked to. */
  function ItemSegments(key: string, items: seq<string>, skipEmpty: bool): seq<string>
    decreases |items|
  {
    if |items| == 0 then []
    else
      var last := items[|items| - 1];
      ItemSegments(key, items[..|items| - 1], skipEmpty) +
      (if skipEmpty && last == "" then [] else [Encode(key) + "=" + Encode(last)])
  }

  /** The segments `stringify` writes for one key. */
  function EntrySegments(key: string, value: QVal, o: StringifyOptions): seq<string>
  {
    match value
    case Undefined => []
    case Null => if o.skipNull then [] else [Encode(key)]
    case _ =>
      var values := ToArray(value);
      if |values| == 0 then (if o.skipEmptyString then [] else [Encode(key) + "="])
      else if o.arrayFormat == Comma then
        var filtered := if o.skipEmptyString then NonEmpty(values) else values;
        if |filtered| == 0 && o.skipEmptyString then []
        else [Encode(key) + "=" + Join(EncodeEach(filtered), ',')]
      else ItemSegments(key, values, o.skipEmptyString)
  }

  /** The segments of the given keys, in that order. */
  function KeySegments(q: Query, keys: seq<string>, o: StringifyOptions): seq<string>
    decreases |keys|
  {
    if |keys| == 0 then []
    else
      var last := keys[|keys| - 1];
      KeySegments(q, keys[..|keys| - 1], o) + EntrySegments(last, Get(q, last), o)
  }

  /** The string `stringify(q, o)` returns. */
  function Stringified(q: Query, o: StringifyOptions): string
  {
    Join(KeySegments(q, OrderedKeys(q, o.sort), o), '&')
  }

  /** `stringify`: the keys in order, each pushing its segments onto one array, joined by `&`. */
  method Stringify(query: Query, options: StringifyOptions) returns (s: string)
    ensures s == Stringified(query, options)
  {
    var keys := Keys(query);
    if options.sort {
      keys := SortKeys(keys);
    }
    assert keys == OrderedKeys(query, options.sort);
    var segments: seq<string> := [];
    var i := 0;
    while i < |keys|
      invariant 0 <= i <= |keys|
      invariant segments == KeySegments(query, keys[..i], options)
    {
      KeySegmentsStep(query, keys, i, options);
      segments := PushEntrySegments(segments, keys[i], Get(query, keys[i]), options);
      i := i + 1;
    }
    assert keys[..i] == keys;
    assert segments == KeySegments(query, OrderedKeys(query, options.sort), options);
    s := Join(segments, '&');
  }

  lemma KeySegmentsStep(q: Query, keys: seq<string>, i: nat, o: StringifyOptions)
    requires i < |keys|
    ensures KeySegments(q, keys[..i + 1], o) == KeySegments(q, keys[..i], o) + EntrySegments(keys[i], Get(q, keys[i]), o)
  {
    assert keys[..i + 1][..i] == keys[..i];
  }

  /** The body of the key loop of `stringify`: the segments of one key pushed onto `segments`. */
  method PushEntrySegments(segments: seq<string>, key: string, value: QVal, options: StringifyOptions)
    returns (result: seq<string>)
    ensures result == segments + EntrySegments(key, value, options)
  {
    result := segments;
    if value.Undefined? {
      return;
    }
    if value.Null? {
      if !options.skipNull {
        result := result + [Encode(key)];
      }
      return;
    }
    var values := ToArray(value);
    if |values| == 0 {
      if !options.skipEmptyString {
        result := result + [Encode(key) + "="];
      }
      return;
    }
    if options.arrayFormat == Comma {
      var filtered := if options.skipEmptyString then NonEmpty(values) else values;
      if |filtered| == 0 && options.skipEmptyString {
        return;
      }
      result := result + [Encode(key) + "=" + Join(EncodeEach(filtered), ',')];
      return;
    }
    result := PushItemSegments(result, key, values, options.skipEmptyString);
  }

  /** The item loop of the "none" format: one `key=item` segment per item. */
  method PushItemSegments(segments: seq<string>, key: string, values: seq<string>, skipEmpty: bool)
    returns (result: seq<string>)
    ensures result == segments + ItemSegments(key, values, skipEmpty)
  {
    result := segments;
    var j := 0;
    while j < |values|
      invariant 0 <= j <= |values|
      invariant result == segments + ItemSegments(key, values[..j], skipEmpty)
    {
      var item := values[j];
      assert values[..j + 1][..j] == values[..j];
      j := j + 1;
      if skipEmpty && item == "" {
        continue;
      }
      result := result + [Encode(key) + "=" + Encode(item)];
    }
    assert values[..j] == values;
  }

  // ---------------------------------------------------------------------------
  // stringifyUrl
  // ---------------------------------------------------------------------------

  /** The part of a URL before its first `#`. */
  function UrlBase(url: string): (r: string)
    ensures '#' !in r
  {
    Split(url, '#')[0]
  }

  /** The part between the first and second `#`; "" stands for an absent fragment. */
  function UrlHash(url: string): (r: string)
    ensures '#' !in r
  {
    var parts := Split(url, '#');
    if |parts| > 1 then parts[1] else ""
  }

  /** What goes between the base and the query string. */
  function Separator(base: string): string
  {
    if '?' in base then (if |base| > 0 && (base[|base| - 1] == '?' || base[|base| - 1] == '&') then "" else "&")
    else "?"
  }

  /** `stringifyUrl({ url, query }, o)`. */
  function StringifyUrl(url: string, query: Query, o: StringifyOptions): string
  {
    var base := UrlBase(url);
    var hash := UrlHash(url);
    var queryString := Stringified(query, o);
    if queryString == "" then (if hash != "" then base + "#" + hash else base)
    else
      var target := base + Separator(base) + queryString;
      if hash != "" then target + "#" + hash else target
  }

  /** The part before the query string: the base and its separator. */
  function QueryPrefix(base: string): string
  {
    base + Separator(base)
  }

  /**
   * The separator leaves the base as it is and ends it with a `?` or `&`:
   * a `?` is added when the base has none, nothing when it already ends with
   * `?` or `&`, an `&` otherwise.
   */
  lemma QueryPrefixShape(base: string)
    ensures var p := QueryPrefix(base);
            |base| <= |p| <= |base| + 1 && p[..|base|] == base &&
            '?' in p && (p[|p| - 1] == '?' || p[|p| - 1] == '&') &&
            ('?' !in base ==> p == base + "?") &&
            ('?' in base && (base[|base| - 1] == '?' || base[|base| - 1] == '&') ==> p == base) &&
            ('?' in base && base[|base| - 1] != '?' && base[|base| - 1] != '&' ==> p == base + "&")
  {
    var p := QueryPrefix(base);
    assert p[..|base|] == base;
    if '?' in base {
      var k :| 0 <= k < |base| && base[k] == '?';
      assert p[k] == '?';
    } else {
      assert p[|p| - 1] == '?';
    }
  }

  // ---------------------------------------------------------------------------
  // delimiters in the output of stringify
  // ---------------------------------------------------------------------------

  /** No string of `segs` holds `c`. */
  predicate NoneHolds(segs: seq<string>, c: char)
  {
    forall i :: 0 <= i < |segs| ==> c !in segs[i]
  }

  lemma {:induction false} ItemSegmentsAvoid(key: string, items: seq<string>, skipEmpty: bool, c: char)
    requires c == '&' || c == '#' || c == '?'
    ensures NoneHolds(ItemSegments(key, items, skipEmpty), c)
    decreases |items|
  {
    if |items| > 0 {
      var last := items[|items| - 1];
      var init := ItemSegments(key, items[..|items| - 1], skipEmpty);
      ItemSegmentsAvoid(key, items[..|items| - 1], skipEmpty, c);
      EncodeAvoidsDelimiters(key);
      EncodeAvoidsDelimiters(last);
      var seg := Encode(key) + "=" + Encode(last);
      assert c !in seg;
      var segs := ItemSegments(key, items, skipEmpty);
      forall i | 0 <= i < |segs| ensures c !in segs[i] {
        if i < |init| { assert segs[i] == init[i]; } else { assert segs[i] == seg; }
      }
    }
  }

  /** No segment of one key holds `&`, `#` or `?`. */
  lemma EntrySegmentsAvoid(key: string, value: QVal, o: StringifyOptions, c: char)
    requires c == '&' || c == '#' || c == '?'
    ensures NoneHolds(EntrySegments(key, value, o), c)
  {
    EncodeAvoidsDelimiters(key);
    assert c !in Encode(key) && c !in Encode(key) + "=";
    var values := ToArray(value);
    var filtered := if o.skipEmptyString then NonEmpty(values) else values;
    var encoded := EncodeEach(filtered);
    forall i | 0 <= i < |encoded| ensures c !in encoded[i] {
      EncodeAvoidsDelimiters(filtered[i]);
    }
    JoinAvoids(encoded, ',', c);
    assert c !in Encode(key) + "=" + Join(encoded, ',');
    ItemSegmentsAvoid(key, values, o.skipEmptyString, c);
  }

  lemma {:induction false} KeySegmentsAvoid(q: Query, keys: seq<string>, o: StringifyOptions, c: char)
    requires c == '&' || c == '#' || c == '?'
    ensures NoneHolds(KeySegments(q, keys, o), c)
    decreases |keys|
  {
    if |keys| > 0 {
      var last := keys[|keys| - 1];
      var init := KeySegments(q, keys[..|keys| - 1], o);
      var entry := EntrySegments(last, Get(q, last), o);
      KeySegmentsAvoid(q, keys[..|keys| - 1], o, c);
      EntrySegmentsAvoid(last, Get(q, last), o, c);
      var segs := KeySegments(q, keys, o);
      assert segs == init + entry;
      forall i | 0 <= i < |segs| ensures c !in segs[i] {
        if i < |init| { assert segs[i] == init[i]; } else { assert segs[i] == entry[i - |init|]; }
      }
    }
  }

  /** A query string never holds `#` or `?`, so it cannot end a URL's path or start its fragment. */
  lemma StringifiedAvoids(q: Query, o: StringifyOptions)
    ensures '#' !in Stringified(q, o) && '?' !in Stringified(q, o)
  {
    var segs := KeySegments(q, OrderedKeys(q, o.sort), o);
    KeySegmentsAvoid(q, OrderedKeys(q, o.sort), o, '#');
    KeySegmentsAvoid(q, OrderedKeys(q, o.sort), o, '?');
    JoinAvoids(segs, '&', '#');
    JoinAvoids(segs, '&', '?');
  }

  /**
   * The URL `stringifyUrl` builds splits at `#` into the front part and the
   * original fragment (an empty or absent fragment is dropped); the front part
   * is the base when the query string is empty, and otherwise the base, its
   * separator and the query string.
   */
  lemma StringifyUrlShape(url: string, query: Query, o: StringifyOptions)
    ensures var r := StringifyUrl(url, query, o);
            var qs := Stringified(query, o);
            var front := if qs == "" then UrlBase(url) else QueryPrefix(UrlBase(url)) + qs;
            Split(r, '#') == if UrlHash(url) == "" then [front] else [front, UrlHash(url)]
  {
    var base := UrlBase(url);
    var hash := UrlHash(url);
    var qs := Stringified(query, o);
    StringifiedAvoids(query, o);
    var front := if qs == "" then base else QueryPrefix(base) + qs;
    assert '#' !in front;
    SplitNoSeparator(front, '#');
    if hash != "" {
      SplitAtFirst(front, hash, '#');
      SplitNoSeparator(hash, '#');
    }
  }
}
