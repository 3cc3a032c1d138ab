/**
 * The JavaScript string and array primitives the query code relies on:
 * `String.prototype.split` and `Array.prototype.join` on a one-character
 * separator, `String.prototype.trim`, `filter(Boolean)` on strings, and the
 * insertion order of a `Set<string>`.
 */
module Text {

  // ---------------------------------------------------------------------------
  // split / join
  // ---------------------------------------------------------------------------

  /** `parts.join(sep)`; the empty array joins to "". */
  function Join(parts: seq<string>, sep: char): string
  {
    if |parts| == 0 then ""
    else if |parts| == 1 then parts[0]
    else parts[0] + [sep] + Join(parts[1..], sep)
  }

  /**
   * `s.split(sep)`: the pieces between separators, so there is always at least
   * one piece ("".split(",") is [""]) and `n` separators give `n + 1` pieces.
   */
  function Split(s: string, sep: char): (parts: seq<string>)
    ensures |parts| >= 1
    ensures forall i :: 0 <= i < |parts| ==> sep !in parts[i]
    ensures Join(parts, sep) == s
    ensures |parts| == 1 <==> sep !in s
    decreases |s|
  {
    if |s| == 0 then [""]
    else if s[0] == sep then
      var rest := Split(s[1..], sep);
      JoinCons("", rest, sep);
      assert s == [sep] + s[1..];
      [""] + rest
    else
      var rest := Split(s[1..], sep);
      JoinExtendFirst(s[0], rest, sep);
      assert s == [s[0]] + s[1..];
      assert sep in s <==> sep in s[1..];
      [[s[0]] + rest[0]] + rest[1..]
  }

  /** Joining a piece in front of at least one more adds that piece and a separator. */
  lemma JoinCons(head: string, tail: seq<string>, sep: char)
    requires |tail| >= 1
    ensures Join([head] + tail, sep) == head + [sep] + Join(tail, sep)
  {
    assert ([head] + tail)[1..] == tail;
  }

  /** Putting a character in front of the first piece puts it in front of the joined string. */
  lemma JoinExtendFirst(c: char, parts: seq<string>, sep: char)
    requires |parts| >= 1
    ensures Join([[c] + parts[0]] + parts[1..], sep) == [c] + Join(parts, sep)
  {
    var longer := [[c] + parts[0]] + parts[1..];
    if |parts| > 1 {
      assert longer[1..] == parts[1..];
    }
  }

  /** Splitting a string that holds no separator gives the string back as the only piece. */
  lemma {:induction false} SplitNoSeparator(s: string, sep: char)
    requires sep !in s
    ensures Split(s, sep) == [s]
  {
  }

  /** The first separator ends the first piece; the rest is split on its own. */
  lemma {:induction false} SplitAtFirst(a: string, b: string, sep: char)
    requires sep !in a
    ensures Split(a + [sep] + b, sep) == [a] + Split(b, sep)
    decreases |a|
  {
    var s := a + [sep] + b;
    if |a| == 0 {
      assert s[1..] == b;
    } else {
      assert s[1..] == a[1..] + [sep] + b;
      SplitAtFirst(a[1..], b, sep);
      assert [s[0]] + a[1..] == a;
    }
  }

  /** Split undoes Join when no piece holds the separator. */
  lemma {:induction false} SplitJoin(parts: seq<string>, sep: char)
    requires |parts| >= 1
    requires forall i :: 0 <= i < |parts| ==> sep !in parts[i]
    ensures Split(Join(parts, sep), sep) == parts
    decreases |parts|
  {
    if |parts| == 1 {
      SplitNoSeparator(parts[0], sep);
    } else {
      SplitJoin(parts[1..], sep);
      SplitAtFirst(parts[0], Join(parts[1..], sep), sep);
      assert parts == [parts[0]] + parts[1..];
    }
  }

  /** A string with at least one separator is its first piece, the separator, and the rest joined back. */
  lemma SplitFirstPiece(s: string, sep: char)
    requires sep in s
    ensures var parts := Split(s, sep);
            |parts| >= 2 && s == parts[0] + [sep] + Join(parts[1..], sep)
  {
  }

  /** A separator that no piece holds occurs in the joined string only between pieces. */
  lemma {:induction false} JoinAvoids(parts: seq<string>, sep: char, c: char)
    requires c != sep
    requires forall i :: 0 <= i < |parts| ==> c !in parts[i]
    ensures c !in Join(parts, sep)
    decreases |parts|
  {
    if |parts| > 1 {
      JoinAvoids(parts[1..], sep, c);
    }
  }

  // ---------------------------------------------------------------------------
  // trim
  // ---------------------------------------------------------------------------

  /** The WhiteSpace and LineTerminator code points that `String.prototype.trim` removes. */
  predicate IsWhitespace(c: char)
  {
    || c == '\t' || c == '\n' || c == '\U{000B}' || c == '\U{000C}' || c == '\r'
    || c == ' ' || c == '\U{00A0}' || c == '\U{1680}'
    || ('\U{2000}' <= c <= '\U{200A}')
    || c == '\U{2028}' || c == '\U{2029}' || c == '\U{202F}' || c == '\U{205F}'
    || c == '\U{3000}' || c == '\U{FEFF}'
  }

  /** Neither end of `s` is whitespace. */
  predicate IsTrimmed(s: string)
  {
    s == [] || (!IsWhitespace(s[0]) && !IsWhitespace(s[|s| - 1]))
  }

  /** How many whitespace characters lead `s`. */
  function LeadingWhitespace(s: string): (n: nat)
    ensures n <= |s|
    ensures forall k :: 0 <= k < n ==> IsWhitespace(s[k])
    ensures n < |s| ==> !IsWhitespace(s[n])
    decreases |s|
  {
    if |s| > 0 && IsWhitespace(s[0]) then 1 + LeadingWhitespace(s[1..]) else 0
  }

  /** How many whitespace characters end `s`. */
  function TrailingWhitespace(s: string): (n: nat)
    ensures n <= |s|
    ensures forall k :: |s| - n <= k < |s| ==> IsWhitespace(s[k])
    ensures n < |s| ==> !IsWhitespace(s[|s| - n - 1])
    decreases |s|
  {
    if |s| > 0 && IsWhitespace(s[|s| - 1]) then 1 + TrailingWhitespace(s[..|s| - 1]) else 0
  }

  /**
   * `s.trim()`: the slice of `s` left once the whitespace at both ends is
   * removed; only whitespace is removed, and nothing else.
   */
  function Trim(s: string): (r: string)
    ensures IsTrimmed(r)
    ensures LeadingWhitespace(s) + |r| <= |s|
    ensures r == s[LeadingWhitespace(s)..LeadingWhitespace(s) + |r|]
    ensures forall k :: LeadingWhitespace(s) + |r| <= k < |s| ==> IsWhitespace(s[k])
    ensures IsTrimmed(s) ==> r == s
  {
    var lead := LeadingWhitespace(s);
    var rest := s[lead..];
    var trail := TrailingWhitespace(rest);
    TrimEnds(s, lead, rest, trail);
    s[lead..|s| - trail]
  }

  /** What the whitespace counts say about the slice between them. */
  lemma TrimEnds(s: string, lead: nat, rest: string, trail: nat)
    requires lead <= |s| && rest == s[lead..] && trail <= |rest|
    requires forall k :: 0 <= k < lead ==> IsWhitespace(s[k])
    requires lead < |s| ==> !IsWhitespace(s[lead])
    requires forall k :: |rest| - trail <= k < |rest| ==> IsWhitespace(rest[k])
    requires trail < |rest| ==> !IsWhitespace(rest[|rest| - trail - 1])
    ensures IsTrimmed(s[lead..|s| - trail])
    ensures forall k :: |s| - trail <= k < |s| ==> IsWhitespace(s[k])
    ensures IsTrimmed(s) ==> lead == 0 && trail == 0
  {
    forall k | |s| - trail <= k < |s|
      ensures IsWhitespace(s[k])
    {
      assert s[k] == rest[k - lead];
    }
    if lead + trail < |s| {
      assert s[|s| - trail - 1] == rest[|rest| - trail - 1];
      SliceEnds(s, lead, |s| - trail);
    }
    if IsTrimmed(s) && s != [] {
      assert !IsWhitespace(s[0]) && !IsWhitespace(s[|s| - 1]);
      assert lead == 0;
      assert rest[|rest| - 1] == s[|s| - 1];
    }
  }

  lemma SliceEnds(s: string, i: nat, j: nat)
    requires i < j <= |s|
    ensures s[i..j][0] == s[i] && s[i..j][j - i - 1] == s[j - 1]
  {
  }

  /** Trimming never brings in a character the string did not hold. */
  lemma TrimKeepsAbsent(s: string, c: char)
    requires c !in s
    ensures c !in Trim(s)
  {
    var r := Trim(s);
    var k := LeadingWhitespace(s);
    assert forall j :: 0 <= j < |r| ==> r[j] == s[k + j];
  }

  // ---------------------------------------------------------------------------
  // filtering
  // ---------------------------------------------------------------------------

  /** `xs.filter(Boolean)` on strings: the non-empty ones, in order. */
  function NonEmpty(xs: seq<string>): (r: seq<string>)
    ensures forall i :: 0 <= i < |r| ==> r[i] != ""
    ensures forall x :: x in r <==> x in xs && x != ""
    ensures |r| <= |xs|
  {
    if |xs| == 0 then []
    else if xs[0] == "" then NonEmpty(xs[1..])
    else [xs[0]] + NonEmpty(xs[1..])
  }

  lemma {:induction false} NonEmptyAppend(a: seq<string>, b: seq<string>)
    ensures NonEmpty(a + b) == NonEmpty(a) + NonEmpty(b)
    decreases |a|
  {
    if |a| > 0 {
      assert (a + b)[0] == a[0];
      assert (a + b)[1..] == a[1..] + b;
      NonEmptyAppend(a[1..], b);
    } else {
      assert a + b == b;
    }
  }

  /** Filtering leaves a list whose every entry is non-empty as it is. */
  lemma {:induction false} NonEmptyKeepsFull(xs: seq<string>)
    requires forall i :: 0 <= i < |xs| ==> xs[i] != ""
    ensures NonEmpty(xs) == xs
    decreases |xs|
  {
    if |xs| > 0 {
      NonEmptyKeepsFull(xs[1..]);
    }
  }

  /** `xs.map(s => s.trim())`. */
  function TrimAll(xs: seq<string>): (r: seq<string>)
    ensures |r| == |xs|
    ensures forall i :: 0 <= i < |xs| ==> r[i] == Trim(xs[i])
  {
    seq(|xs|, i requires 0 <= i < |xs| => Trim(xs[i]))
  }

  /**
   * `s.split(",").map(trim).filter(Boolean)`: the comma-separated pieces of
   * `s`, trimmed, without the empty ones.
   */
  function CommaPieces(s: string): (r: seq<string>)
    ensures forall i :: 0 <= i < |r| ==> r[i] != "" && ',' !in r[i] && IsTrimmed(r[i])
  {
    var parts := Split(s, ',');
    var trimmed := TrimAll(parts);
    forall i | 0 <= i < |trimmed| ensures ',' !in trimmed[i] {
      TrimKeepsAbsent(parts[i], ',');
    }
    var r := NonEmpty(trimmed);
    forall i | 0 <= i < |r| ensures ',' !in r[i] && IsTrimmed(r[i]) {
      assert r[i] in trimmed;
    }
    r
  }

  /** A value that survives comma splitting unchanged: non-empty, comma-free and trimmed. */
  predicate IsCleanItem(s: string)
  {
    s != "" && ',' !in s && IsTrimmed(s)
  }

  /** Comma splitting undoes joining with commas when every item is clean. */
  lemma CommaPiecesOfJoin(items: seq<string>)
    requires |items| >= 1
    requires forall i :: 0 <= i < |items| ==> IsCleanItem(items[i])
    ensures CommaPieces(Join(items, ',')) == items
  {
    SplitJoin(items, ',');
    assert TrimAll(items) == items;
    NonEmptyKeepsFull(items);
  }

  /** With comma-free trimmed items, comma splitting after joining drops only the empty ones. */
  lemma CommaPiecesOfTrimmedJoin(items: seq<string>)
    requires |items| >= 1
    requires forall i :: 0 <= i < |items| ==> ',' !in items[i] && IsTrimmed(items[i])
    ensures CommaPieces(Join(items, ',')) == NonEmpty(items)
  {
    SplitJoin(items, ',');
    assert TrimAll(items) == items;
  }

  /** Filtering twice is filtering once. */
  lemma NonEmptyIdempotent(xs: seq<string>)
    ensures NonEmpty(NonEmpty(xs)) == NonEmpty(xs)
  {
    NonEmptyKeepsFull(NonEmpty(xs));
  }

  // ---------------------------------------------------------------------------
  // insertion-ordered sets
  // ---------------------------------------------------------------------------

  predicate NoDuplicates<T(==)>(xs: seq<T>)
  {
    forall i, j :: 0 <= i < j < |xs| ==> xs[i] != xs[j]
  }

  /** The position of the first occurrence of `x` in `xs`. */
  function FirstIndex<T(==)>(xs: seq<T>, x: T): (k: nat)
    requires x in xs
    ensures k < |xs| && xs[k] == x && x !in xs[..k]
  {
    if xs[0] == x then 0 else 1 + FirstIndex(xs[1..], x)
  }

  lemma {:induction false} FirstIndexExtend<T>(xs: seq<T>, y: T, x: T)
    requires x in xs
    ensures FirstIndex(xs + [y], x) == FirstIndex(xs, x)
    decreases |xs|
  {
    if xs[0] != x {
      assert (xs + [y])[1..] == xs[1..] + [y];
      FirstIndexExtend(xs[1..], y, x);
    }
  }

  /**
   * `Array.from(new Set(xs))`: each value once, at the place of its first
   * occurrence.
   */
  function Dedup(xs: seq<string>): (r: seq<string>)
    ensures forall x :: x in r <==> x in xs
    ensures |r| <= |xs|
  {
    if |xs| == 0 then []
    else
      var d := Dedup(xs[..|xs| - 1]);
      assert xs == xs[..|xs| - 1] + [xs[|xs| - 1]];
      if xs[|xs| - 1] in d then d else d + [xs[|xs| - 1]]
  }

  /**
   * What Dedup promises as a set: no value twice, every value of the input
   * kept, and values listed in the order of their first occurrence.
   */
  lemma {:induction false} DedupIsOrderedSet(xs: seq<string>)
    ensures NoDuplicates(Dedup(xs))
    ensures forall i, j :: 0 <= i < j < |Dedup(xs)| ==>
              FirstIndex(xs, Dedup(xs)[i]) < FirstIndex(xs, Dedup(xs)[j])
    decreases |xs|
  {
    if |xs| > 0 {
      var n := |xs| - 1;
      var init := xs[..n];
      var x := xs[n];
      assert xs == init + [x];
      DedupIsOrderedSet(init);
      var d := Dedup(init);
      forall y | y in d ensures FirstIndex(xs, y) == FirstIndex(init, y) {
        FirstIndexExtend(init, x, y);
      }
      if x !in d {
        assert xs[..n] == init;
      }
    }
  }

  /** A list without duplicates is its own set. */
  lemma {:induction false} DedupOfDistinct(xs: seq<string>)
    requires NoDuplicates(xs)
    ensures Dedup(xs) == xs
    decreases |xs|
  {
    if |xs| > 0 {
      var n := |xs| - 1;
      DedupOfDistinct(xs[..n]);
      assert xs[n] !in xs[..n];
      assert xs == xs[..n] + [xs[n]];
    }
  }
}
