/**
 * What survives `parse(stringify(q))` in the default comma format: every key
 * whose value stringify writes comes back, in stringify's key order, decoded
 * to the same text, with arrays reduced to their non-empty items.
 */
module RoundTrip {
  import opened Text
  import opened Percent
  import opened Records
  import opened QueryString

  /** An item comma splitting gives back as it is (or drops, when it is ""): no comma, no whitespace at its ends. */
  predicate IsCommaSafe(x: string)
  {
    ',' !in x && IsTrimmed(x)
  }

  predicate IsCommaSafeValue(v: QVal)
  {
    match v
    case Str(s) => IsCommaSafe(s)
    case Arr(xs) => forall i :: 0 <= i < |xs| ==> IsCommaSafe(xs[i])
    case _ => true
  }

  /**
   * What parse gives back for one key: nothing for the empty key, for undefined,
   * for a null that is skipped, or for a value without non-empty items when empty
   * strings are skipped; otherwise null, or the non-empty items collapsed as parse
   * stores them.
   */
  function ExpectedEntry(key: string, v: QVal, o: StringifyOptions): seq<Entry>
  {
    if key == "" then []
    else
      match v
      case Undefined => []
      case Null => if o.skipNull then [] else [(key, Null)]
      case _ =>
        var items := NonEmpty(ToArray(v));
        if o.skipEmptyString && items == [] then [] else [(key, Collapse(items))]
  }

  /** The entries expected back for the given keys, in their order. */
  function Expected(q: Query, keys: seq<string>, o: StringifyOptions): (r: Query)
    ensures forall i :: 0 <= i < |r| ==> r[i].0 in keys
    decreases |keys|
  {
    if |keys| == 0 then []
    else
      var last := keys[|keys| - 1];
      Expected(q, keys[..|keys| - 1], o) + ExpectedEntry(last, Get(q, last), o)
  }

  /** Parsing a list of segments is parsing its two halves one after the other. */
  lemma {:induction false} ParseSegmentsAppend(acc: Query, a: seq<string>, b: seq<string>, fmt: ArrayFormat)
    ensures ParseSegments(acc, a + b, fmt) == ParseSegments(ParseSegments(acc, a, fmt), b, fmt)
    decreases |a|
  {
    if |a| > 0 {
      assert (a + b)[0] == a[0];
      assert (a + b)[1..] == a[1..] + b;
      ParseSegmentsAppend(ParseStep(acc, a[0], fmt), a[1..], b, fmt);
    } else {
      assert a + b == b;
    }
  }

  /** Segments without a key ("" or starting with `=`) leave the object as it is. */
  lemma {:induction false} ParseSegmentsWithoutKey(acc: Query, segs: seq<string>, fmt: ArrayFormat)
    requires forall i :: 0 <= i < |segs| ==> segs[i] == "" || segs[i][0] == '='
    ensures ParseSegments(acc, segs, fmt) == acc
    decreases |segs|
  {
    if |segs| > 0 {
      var seg := segs[0];
      if seg != "" {
        SplitAtFirst("", seg[1..], '=');
        assert seg == "" + ['='] + seg[1..];
        assert Decode("") == "";
      }
      assert ParseStep(acc, seg, fmt) == acc;
      ParseSegmentsWithoutKey(acc, segs[1..], fmt);
    }
  }

  lemma EncodeNonEmpty(key: string)
    requires key != ""
    ensures Encode(key) != ""
  {
    DecodeEncode(key);
    assert Decode("") == "";
  }

  /** A `key=body` segment for a new key appends the key with the comma pieces of the decoded body. */
  lemma ParseKeySegment(acc: Query, key: string, body: string)
    requires key != "" && key !in Keys(acc)
    ensures ParseSegments(acc, [Encode(key) + "=" + body], Comma) ==
            acc + [(key, Collapse(CommaPieces(Decode(body))))]
  {
    var seg := Encode(key) + "=" + body;
    var pieces := Split(seg, '=');
    assert pieces == [Encode(key)] + Split(body, '=') by {
      EncodeAvoidsDelimiters(key);
      SplitAtFirst(Encode(key), body, '=');
    }
    assert Decode(pieces[0]) == key by {
      DecodeEncode(key);
    }
    assert Join(pieces[1..], '=') == body by {
      assert pieces[1..] == Split(body, '=');
    }
    var v := Collapse(CommaPieces(Decode(body)));
    assert Collapse(ToArray(Get(acc, key)) + CleanValues(Decode(body), Comma)) == v by {
      assert Get(acc, key) == Undefined;
      assert [] + CleanValues(Decode(body), Comma) == CommaPieces(Decode(body));
    }
    ParseStepOfPair(acc, seg, Comma, pieces);
    assert Put(acc, key, v) == acc + [(key, v)] by {
      PutNew(acc, key, v);
    }
    ParseOneSegment(acc, seg, Comma);
  }

  /** A `key=value` segment with a non-empty key puts the aggregated value under the key. */
  lemma ParseStepOfPair(acc: Query, segment: string, arrayFormat: ArrayFormat, pieces: seq<string>)
    requires pieces == Split(segment, '=') && |pieces| >= 2 && Decode(pieces[0]) != ""
    ensures var key := Decode(pieces[0]);
            ParseStep(acc, segment, arrayFormat) ==
            Put(acc, key, Collapse(ToArray(Get(acc, key)) + CleanValues(Decode(Join(pieces[1..], '=')), arrayFormat)))
  {
  }

  /** A single segment is one step. */
  lemma ParseOneSegment(acc: Query, segment: string, arrayFormat: ArrayFormat)
    ensures ParseSegments(acc, [segment], arrayFormat) == ParseStep(acc, segment, arrayFormat)
  {
    assert [segment][1..] == [];
  }

  /** A bare `key` segment for a new key appends the key with null. */
  lemma ParseNullSegment(acc: Query, key: string)
    requires key != "" && key !in Keys(acc)
    ensures ParseSegments(acc, [Encode(key)], Comma) == acc + [(key, Null)]
  {
    EncodeAvoidsDelimiters(key);
    EncodeNonEmpty(key);
    DecodeEncode(key);
    SplitNoSeparator(Encode(key), '=');
    PutNew(acc, key, Null);
    assert ParseStep(acc, Encode(key), Comma) == acc + [(key, Null)];
    assert [Encode(key)][1..] == [];
  }

  /** The segments of one new key parse to what is expected of that key. */
  lemma ParseEntrySegments(acc: Query, key: string, v: QVal, o: StringifyOptions)
    requires o.arrayFormat == Comma
    requires key !in Keys(acc)
    requires IsCommaSafeValue(v)
    ensures ParseSegments(acc, EntrySegments(key, v, o), Comma) == acc + ExpectedEntry(key, v, o)
  {
    if key == "" {
      assert Encode("") == "";
      ParseSegmentsWithoutKey(acc, EntrySegments(key, v, o), Comma);
    } else if v.Null? {
      if !o.skipNull {
        ParseNullSegment(acc, key);
      }
    } else if !v.Undefined? {
      ParseValueSegments(acc, key, v, o);
    }
  }

  /** The segment of a string or array under a new non-empty key. */
  lemma ParseValueSegments(acc: Query, key: string, v: QVal, o: StringifyOptions)
    requires o.arrayFormat == Comma
    requires key != "" && key !in Keys(acc)
    requires (v.Str? || v.Arr?) && IsCommaSafeValue(v)
    ensures ParseSegments(acc, EntrySegments(key, v, o), Comma) == acc + ExpectedEntry(key, v, o)
  {
    var values := ToArray(v);
    if |values| == 0 {
      if !o.skipEmptyString {
        assert Encode(key) + "=" + "" == Encode(key) + "=";
        ParseKeySegment(acc, key, "");
        EmptyBodyPieces();
      }
    } else {
      var filtered := if o.skipEmptyString then NonEmpty(values) else values;
      if !(|filtered| == 0 && o.skipEmptyString) {
        ParseListSegment(acc, key, values, filtered);
        NonEmptyIdempotent(values);
      }
    }
  }

  /** The comma-joined segment of a non-empty list of comma-safe items under a new key. */
  lemma ParseListSegment(acc: Query, key: string, values: seq<string>, filtered: seq<string>)
    requires key != "" && key !in Keys(acc)
    requires |filtered| >= 1
    requires forall i :: 0 <= i < |values| ==> IsCommaSafe(values[i])
    requires forall x :: x in filtered ==> x in values
    ensures ParseSegments(acc, [Encode(key) + "=" + Join(EncodeEach(filtered), ',')], Comma) ==
            acc + [(key, Collapse(NonEmpty(filtered)))]
  {
    ParseKeySegment(acc, key, Join(EncodeEach(filtered), ','));
    forall i | 0 <= i < |filtered| ensures IsCommaSafe(filtered[i]) {
      assert filtered[i] in values;
    }
    EncodedListPieces(filtered);
  }

  /** An empty value decodes to no comma piece. */
  lemma EmptyBodyPieces()
    ensures CommaPieces(Decode("")) == []
  {
    assert Decode("") == "";
    assert CommaPieces("") == [];
  }

  /** A comma-joined list of encoded comma-safe items decodes to the non-empty items. */
  lemma EncodedListPieces(items: seq<string>)
    requires |items| >= 1
    requires forall i :: 0 <= i < |items| ==> IsCommaSafe(items[i])
    ensures CommaPieces(Decode(Join(EncodeEach(items), ','))) == NonEmpty(items)
  {
    DecodeJoinedList(items);
    CommaPiecesOfTrimmedJoin(items);
  }

  /** Every value held under a key of a comma-safe object is comma-safe. */
  lemma GetCommaSafe(q: Query, key: string)
    requires UniqueKeys(q)
    requires forall i :: 0 <= i < |q| ==> IsCommaSafeValue(q[i].1)
    ensures IsCommaSafeValue(Get(q, key))
  {
    if key in Keys(q) {
      var i :| 0 <= i < |q| && Keys(q)[i] == key;
    }
  }

  /** Parsing the segments of distinct keys gives the expected entries of those keys. */
  lemma {:induction false} ParseKeySegments(q: Query, keys: seq<string>, o: StringifyOptions)
    requires o.arrayFormat == Comma
    requires UniqueKeys(q)
    requires forall i :: 0 <= i < |q| ==> IsCommaSafeValue(q[i].1)
    requires NoDuplicates(keys)
    ensures ParseSegments([], KeySegments(q, keys, o), Comma) == Expected(q, keys, o)
    decreases |keys|
  {
    if |keys| > 0 {
      var init := keys[..|keys| - 1];
      var last := keys[|keys| - 1];
      assert NoDuplicates(init);
      assert last !in init;
      ParseKeySegments(q, init, o);
      var done := Expected(q, init, o);
      var entry := EntrySegments(last, Get(q, last), o);
      ParseSegmentsAppend([], KeySegments(q, init, o), entry, Comma);
      assert last !in Keys(done) by {
        forall i | 0 <= i < |done| ensures Keys(done)[i] != last {
          assert done[i].0 in init;
        }
      }
      GetCommaSafe(q, last);
      ParseEntrySegments(done, last, Get(q, last), o);
    }
  }

  /**
   * `parse(stringify(q, o))` in the comma format: the keys come back in the
   * order stringify wrote them, each with its expected entry, as long as no
   * item has a comma or whitespace at its ends.
   */
  lemma StringifyThenParse(q: Query, o: StringifyOptions)
    requires o.arrayFormat == Comma
    requires UniqueKeys(q)
    requires forall i :: 0 <= i < |q| ==> IsCommaSafeValue(q[i].1)
    ensures Parsed(Stringified(q, o), Comma) == Expected(q, OrderedKeys(q, o.sort), o)
  {
    var keys := OrderedKeys(q, o.sort);
    assert NoDuplicates(Keys(q));
    if o.sort {
      SortKeysDistinct(Keys(q));
    }
    var segs := KeySegments(q, keys, o);
    var s := Join(segs, '&');
    KeySegmentsAvoid(q, keys, o, '&');
    KeySegmentsAvoid(q, keys, o, '?');
    JoinAvoids(segs, '&', '?');
    assert WithoutQuestionMark(s) == s;
    ParseKeySegments(q, keys, o);
    if |segs| > 0 {
      SplitJoin(segs, '&');
      if s == "" {
        assert ParseSegments([], [""], Comma) == [];
      }
    }
  }

  /**
   * An entry that comes back exactly as it went out: a non-empty key with a
   * non-empty comma-safe string, or with at least two such items (one item
   * would come back as a plain string).
   */
  predicate IsRestorable(e: Entry)
  {
    && e.0 != ""
    && match e.1
       case Str(s) => s != "" && IsCommaSafe(s)
       case Arr(xs) => |xs| >= 2 && forall i :: 0 <= i < |xs| ==> xs[i] != "" && IsCommaSafe(xs[i])
       case _ => false
  }

  /** The expected entries of the first `n` keys of an object of restorable entries are its first `n` entries. */
  lemma {:induction false} ExpectedOfRestorable(q: Query, n: nat, o: StringifyOptions)
    requires UniqueKeys(q) && n <= |q|
    requires forall i :: 0 <= i < |q| ==> IsRestorable(q[i])
    ensures Expected(q, Keys(q)[..n], o) == q[..n]
    decreases n
  {
    if n > 0 {
      var keys := Keys(q)[..n];
      var e := q[n - 1];
      assert keys[..n - 1] == Keys(q)[..n - 1];
      assert keys[n - 1] == e.0;
      assert IsRestorable(e);
      assert Get(q, e.0) == e.1;
      RestorableEntry(e, o);
      ExpectedLastKey(q, keys, e, o);
      ExpectedOfRestorable(q, n - 1, o);
      PrefixGrows(q, n);
    }
  }

  lemma PrefixGrows<T>(s: seq<T>, n: nat)
    requires 0 < n <= |s|
    ensures s[..n] == s[..n - 1] + [s[n - 1]]
  {
  }

  lemma ExpectedLastKey(q: Query, keys: seq<string>, e: Entry, o: StringifyOptions)
    requires |keys| > 0 && keys[|keys| - 1] == e.0
    requires ExpectedEntry(e.0, Get(q, e.0), o) == [e]
    ensures Expected(q, keys, o) == Expected(q, keys[..|keys| - 1], o) + [e]
  {
  }

  /** A restorable entry is expected back as it is. */
  lemma RestorableEntry(e: Entry, o: StringifyOptions)
    requires IsRestorable(e)
    ensures ExpectedEntry(e.0, e.1, o) == [e]
  {
    NonEmptyKeepsFull(ToArray(e.1));
  }

  /**
   * Without sorting, an object whose entries are all restorable survives
   * `parse(stringify(q, o))` in the comma format unchanged: same keys, same
   * order, same values.
   */
  lemma StringifyThenParseRestores(q: Query, o: StringifyOptions)
    requires o.arrayFormat == Comma && !o.sort
    requires UniqueKeys(q)
    requires forall i :: 0 <= i < |q| ==> IsRestorable(q[i])
    ensures Parsed(Stringified(q, o), Comma) == q
  {
    forall i | 0 <= i < |q| ensures IsCommaSafeValue(q[i].1) {
      assert IsRestorable(q[i]);
    }
    StringifyThenParse(q, o);
    ExpectedOfRestorable(q, |q|, o);
    assert Keys(q)[..|q|] == Keys(q);
    assert q[..|q|] == q;
  }

  /**
   * With a base that has no `?`, the URL from `stringifyUrl` holds the base,
   * a `?`, and a query string that parses back to the expected entries.
   */
  lemma StringifyUrlThenParse(url: string, q: Query, o: StringifyOptions)
    requires o.arrayFormat == Comma
    requires UniqueKeys(q)
    requires forall i :: 0 <= i < |q| ==> IsCommaSafeValue(q[i].1)
    requires '?' !in UrlBase(url) && Stringified(q, o) != ""
    ensures var front := Split(StringifyUrl(url, q, o), '#')[0];
            var base := UrlBase(url);
            |base| < |front| && front[..|base|] == base && front[|base|] == '?' &&
            Parsed(front[|base|..], Comma) == Expected(q, OrderedKeys(q, o.sort), o)
  {
    var base := UrlBase(url);
    var qs := Stringified(q, o);
    UrlFront(url, q, o);
    StringifyThenParse(q, o);
    StringifiedAvoids(q, o);
    FrontParses(base, qs);
  }

  /** What follows the base in `base?qs` parses as `qs` does. */
  lemma FrontParses(base: string, qs: string)
    requires '?' !in qs
    ensures var front := base + "?" + qs;
            |base| < |front| && front[..|base|] == base && front[|base|] == '?' &&
            Parsed(front[|base|..], Comma) == Parsed(qs, Comma)
  {
    var front := base + "?" + qs;
    assert front[|base|..] == "?" + qs;
    ParsedAfterQuestionMark(qs);
  }

  /** With a base that has no `?` and a non-empty query string, the URL's front is base, `?`, query string. */
  lemma UrlFront(url: string, q: Query, o: StringifyOptions)
    requires '?' !in UrlBase(url) && Stringified(q, o) != ""
    ensures Split(StringifyUrl(url, q, o), '#')[0] == UrlBase(url) + "?" + Stringified(q, o)
  {
    StringifyUrlShape(url, q, o);
    QueryPrefixShape(UrlBase(url));
  }

  /** A leading `?` is dropped before parsing. */
  lemma ParsedAfterQuestionMark(qs: string)
    requires '?' !in qs
    ensures Parsed("?" + qs, Comma) == Parsed(qs, Comma)
  {
    assert ("?" + qs)[1..] == qs;
    assert WithoutQuestionMark(qs) == qs;
  }
}
