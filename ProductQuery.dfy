/**
 * The predicate builder of the product listing: resolved filters become an
 * ordered list of abstract SQL predicates, an ordering and an offset/limit
 * window. The SQL itself is left abstract; only the text search pattern is
 * given a meaning, through a matcher for SQL `LIKE` patterns whose escape
 * character is the backslash (PostgreSQL's default).
 */
module ProductQuery {
  import opened Wrappers
  import opened FilterParams

  // ---------------------------------------------------------------------------
  // LIKE patterns
  // ---------------------------------------------------------------------------

  /**
   * Whether `text` matches the `LIKE` pattern `p`: `%` matches any run of
   * characters, `_` any one character, `\` makes the next character literal
   * (a pattern ending in a lone `\` matches nothing), and every other
   * character matches itself.
   */
  predicate Matches(p: string, text: string)
    decreases |p|, |text|
  {
    if p == [] then text == []
    else if p[0] == '%' then Matches(p[1..], text) || (text != [] && Matches(p, text[1..]))
    else if p[0] == '_' then text != [] && Matches(p[1..], text[1..])
    else if p[0] == '\\' then |p| >= 2 && text != [] && text[0] == p[1] && Matches(p[2..], text[1..])
    else text != [] && text[0] == p[0] && Matches(p[1..], text[1..])
  }

  /** `s` occurs in `text` starting at position `k`. */
  predicate OccursAt(text: string, s: string, k: int)
  {
    0 <= k && k + |s| <= |text| && text[k..k + |s|] == s
  }

  /** `s` occurs in `text` as a contiguous run. */
  ghost predicate Contains(text: string, s: string)
  {
    exists k :: OccursAt(text, s, k)
  }

  /** `s.replace(/c/g, rep)`. */
  function ReplaceAll(s: string, c: char, rep: string): (r: string)
    ensures c !in rep ==> c !in r
    decreases |s|
  {
    if s == [] then []
    else (if s[0] == c then rep else [s[0]]) + ReplaceAll(s[1..], c, rep)
  }

  /**
   * The search pattern as the listing builds it: `%` and `_` are escaped,
   * the escape character itself is not.
   */
  function SourceLikePattern(search: string): (p: string)
    ensures |p| >= 2 && p[0] == '%' && p[|p| - 1] == '%'
  {
    "%" + ReplaceAll(ReplaceAll(search, '%', "\\%"), '_', "\\_") + "%"
  }

  /**
   * A search text containing a backslash is not found in a name that
   * contains it: the backslash escapes the pattern's closing `%`.
   */
  lemma SourceLikePatternMissesBackslash()
    ensures Contains("\\", "\\") && !Matches(SourceLikePattern("\\"), "\\")
  {
    assert ReplaceAll("\\", '%', "\\%") == "\\";
    assert ReplaceAll("\\", '_', "\\_") == "\\";
    var p := SourceLikePattern("\\");
    assert p == "%\\%";
    assert OccursAt("\\", "\\", 0);
    assert !Matches(p[1..], "\\");
    assert !Matches(p[1..], "");
    assert !Matches(p, "");
  }

  /** One search character as a literal `LIKE` pattern. */
  function EscapeChar(c: char): string
  {
    if c == '\\' || c == '%' || c == '_' then ['\\', c] else [c]
  }

  /** The search text with every `\`, `%` and `_` escaped. */
  function Escape(s: string): (r: string)
    ensures |r| >= |s|
    decreases |s|
  {
    if s == [] then [] else EscapeChar(s[0]) + Escape(s[1..])
  }

  /** The search pattern `%<escaped search>%`. */
  function LikePattern(search: string): string
  {
    "%" + Escape(search) + "%"
  }

  /** An escaped text matches exactly itself, character by character. */
  lemma {:induction false} EscapedPrefix(s: string, rest: string, text: string)
    ensures Matches(Escape(s) + rest, text) <==>
              |s| <= |text| && text[..|s|] == s && Matches(rest, text[|s|..])
    decreases |s|
  {
    if s == [] {
      assert Escape(s) + rest == rest;
      assert text[|s|..] == text;
    } else {
      var tail := Escape(s[1..]) + rest;
      assert Escape(s) + rest == EscapeChar(s[0]) + tail;
      EscapedHead(s[0], tail, text);
      if text != [] {
        EscapedPrefix(s[1..], rest, text[1..]);
        PrefixCons(s, text);
      }
    }
  }

  /** An escaped character matches itself and nothing else. */
  lemma EscapedHead(c: char, tail: string, text: string)
    ensures Matches(EscapeChar(c) + tail, text) <==> text != [] && text[0] == c && Matches(tail, text[1..])
  {
    var p := EscapeChar(c) + tail;
    if c == '\\' || c == '%' || c == '_' {
      assert p[0] == '\\' && p[1] == c && p[2..] == tail;
    } else {
      assert p[0] == c && p[1..] == tail;
    }
  }

  lemma PrefixCons(s: string, text: string)
    requires s != [] && text != []
    ensures (|s| <= |text| && text[..|s|] == s) <==>
              (text[0] == s[0] && |s| - 1 <= |text| - 1 && text[1..][..|s| - 1] == s[1..])
    ensures |s| <= |text| ==> text[1..][|s| - 1..] == text[|s|..]
  {
    if |s| <= |text| {
      assert text[1..][..|s| - 1] == text[1..|s|];
      if text[..|s|] == s {
        assert text[0] == text[..|s|][0];
        assert text[1..|s|] == text[..|s|][1..];
      }
      if text[0] == s[0] && text[1..|s|] == s[1..] {
        assert text[..|s|] == [text[0]] + text[1..|s|];
        assert s == [s[0]] + s[1..];
      }
    }
  }

  /** A lone `%` matches every text. */
  lemma {:induction false} PercentMatchesAll(text: string)
    ensures Matches("%", text)
    decreases |text|
  {
    if text != [] {
      PercentMatchesAll(text[1..]);
    }
  }

  /** A leading `%` lets the rest of the pattern match any suffix of the text. */
  lemma {:induction false} LeadingPercent(q: string, text: string)
    ensures Matches("%" + q, text) <==> exists k :: 0 <= k <= |text| && Matches(q, text[k..])
    decreases |text|
  {
    var p := "%" + q;
    assert p[0] == '%' && p[1..] == q;
    assert text[0..] == text;
    if text != [] {
      LeadingPercent(q, text[1..]);
      if exists k :: 0 <= k <= |text| && Matches(q, text[k..]) {
        var k :| 0 <= k <= |text| && Matches(q, text[k..]);
        if k > 0 {
          assert text[1..][k - 1..] == text[k..];
        }
      }
      if exists k :: 0 <= k <= |text[1..]| && Matches(q, text[1..][k..]) {
        var k :| 0 <= k <= |text[1..]| && Matches(q, text[1..][k..]);
        assert text[1..][k..] == text[k + 1..];
      }
    }
  }

  /** The search pattern matches a text exactly when the search text occurs in it. */
  lemma LikePatternFindsSubstring(search: string, text: string)
    ensures Matches(LikePattern(search), text) <==> Contains(text, search)
  {
    var q := Escape(search) + "%";
    assert LikePattern(search) == "%" + q;
    LeadingPercent(q, text);
    if Contains(text, search) {
      var k :| OccursAt(text, search, k);
      EscapedPrefix(search, "%", text[k..]);
      assert text[k..][..|search|] == text[k..k + |search|];
      PercentMatchesAll(text[k..][|search|..]);
    }
    if exists k :: 0 <= k <= |text| && Matches(q, text[k..]) {
      var k :| 0 <= k <= |text| && Matches(q, text[k..]);
      EscapedPrefix(search, "%", text[k..]);
      assert text[k..][..|search|] == text[k..k + |search|];
      assert OccursAt(text, search, k);
    }
  }

  // ---------------------------------------------------------------------------
  // the query object
  // ---------------------------------------------------------------------------

  /** The `where` conditions, over the `products` and `product_variants` tables. */
  datatype Condition =
    | Published
    | NameOrDescriptionLike(pattern: string)
    | CategoryIn(categoryIds: seq<string>)
    | BrandIn(brandIds: seq<string>)
    | GenderIs(gender: string)
    | SomeVariantColorIn(colorIds: seq<string>)
    | SomeVariantPriceAtLeast(priceMin: int)
    | SomeVariantPriceAtMost(priceMax: int)

  /** The `orderBy` terms. */
  datatype Order = LowestVariantPriceAsc | HighestVariantPriceDesc | CreatedAtDesc

  /** `ProductQueryObject`. */
  datatype QueryObject = QueryObject(
    conditions: seq<Condition>,
    orderBy: seq<Order>,
    limit: int,
    offset: int,
    colorFilterIds: seq<string>)

  /** The place of each kind of condition in the list. */
  function Rank(c: Condition): nat
  {
    match c
    case Published => 0
    case NameOrDescriptionLike(_) => 1
    case CategoryIn(_) => 2
    case BrandIn(_) => 3
    case GenderIs(_) => 4
    case SomeVariantColorIn(_) => 5
    case SomeVariantPriceAtLeast(_) => 6
    case SomeVariantPriceAtMost(_) => 7
  }

  /** A text filter is applied only when it is set and non-empty. */
  predicate HasText(o: Option<string>)
  {
    o.Some? && o.value != ""
  }

  /**
   * The optional conditions in the order they are considered, each with
   * whether its filter is set.
   */
  function Candidates(f: Filters): (xs: seq<(bool, Condition)>)
    ensures |xs| == 7
  {
    [ (HasText(f.search), NameOrDescriptionLike(LikePattern(f.search.GetOr("")))),
      (|f.categoryIds| > 0, CategoryIn(f.categoryIds)),
      (|f.brandIds| > 0, BrandIn(f.brandIds)),
      (HasText(f.gender), GenderIs(f.gender.GetOr(""))),
      (|f.colorIds| > 0, SomeVariantColorIn(f.colorIds)),
      (f.priceMin.Some?, SomeVariantPriceAtLeast(f.priceMin.GetOr(0))),
      (f.priceMax.Some?, SomeVariantPriceAtMost(f.priceMax.GetOr(0))) ]
  }

  /** `if (present) where.push(c)`. */
  function PushIf(cs: seq<Condition>, present: bool, c: Condition): seq<Condition>
  {
    if present then cs + [c] else cs
  }

  /** The candidates pushed one by one, each only when present. */
  function Pushed(cs: seq<Condition>, xs: seq<(bool, Condition)>): seq<Condition>
    decreases |xs|
  {
    if |xs| == 0 then cs
    else PushIf(Pushed(cs, xs[..|xs| - 1]), xs[|xs| - 1].0, xs[|xs| - 1].1)
  }

  /** The conditions the filters call for: published first, then the set filters in order. */
  function ConditionsOf(f: Filters): seq<Condition>
  {
    var withSearch := PushIf([Published], HasText(f.search), NameOrDescriptionLike(LikePattern(f.search.GetOr(""))));
    var withCategories := PushIf(withSearch, |f.categoryIds| > 0, CategoryIn(f.categoryIds));
    var withBrands := PushIf(withCategories, |f.brandIds| > 0, BrandIn(f.brandIds));
    var withGender := PushIf(withBrands, HasText(f.gender), GenderIs(f.gender.GetOr("")));
    var withColors := PushIf(withGender, |f.colorIds| > 0, SomeVariantColorIn(f.colorIds));
    var withMin := PushIf(withColors, f.priceMin.Some?, SomeVariantPriceAtLeast(f.priceMin.GetOr(0)));
    PushIf(withMin, f.priceMax.Some?, SomeVariantPriceAtMost(f.priceMax.GetOr(0)))
  }

  /** The conditions are the present candidates pushed in order after the published check. */
  lemma ConditionsArePushed(f: Filters)
    ensures ConditionsOf(f) == Pushed([Published], Candidates(f))
  {
    var xs := Candidates(f);
    PushedSeven([Published], xs[0], xs[1], xs[2], xs[3], xs[4], xs[5], xs[6]);
    assert xs == [xs[0], xs[1], xs[2], xs[3], xs[4], xs[5], xs[6]];
  }

  /** Seven candidates pushed in order are seven conditional pushes. */
  lemma PushedSeven(cs: seq<Condition>, a: (bool, Condition), b: (bool, Condition), c: (bool, Condition),
                    d: (bool, Condition), e: (bool, Condition), g: (bool, Condition), h: (bool, Condition))
    ensures Pushed(cs, [a, b, c, d, e, g, h]) ==
            PushIf(PushIf(PushIf(PushIf(PushIf(PushIf(PushIf(cs, a.0, a.1), b.0, b.1), c.0, c.1), d.0, d.1), e.0, e.1), g.0, g.1), h.0, h.1)
  {
    var xs := [a, b, c, d, e, g, h];
    PushedStep(cs, xs, 0);
    PushedStep(cs, xs, 1);
    PushedStep(cs, xs, 2);
    PushedStep(cs, xs, 3);
    PushedStep(cs, xs, 4);
    PushedStep(cs, xs, 5);
    PushedStep(cs, xs, 6);
    assert xs[..7] == xs;
  }

  /** The ordering: the sort's own term, then newest first as the tie-break. */
  function OrderOf(sortBy: Option<SortBy>): (r: seq<Order>)
    ensures r != [] && r[|r| - 1] == CreatedAtDesc
    ensures r[0] == LowestVariantPriceAsc <==> sortBy == Some(PriceAsc)
    ensures r[0] == HighestVariantPriceDesc <==> sortBy == Some(PriceDesc)
    ensures |r| == 2 <==> sortBy == Some(PriceAsc) || sortBy == Some(PriceDesc)
    ensures |r| <= 2
  {
    match sortBy
    case Some(PriceAsc) => [LowestVariantPriceAsc, CreatedAtDesc]
    case Some(PriceDesc) => [HighestVariantPriceDesc, CreatedAtDesc]
    case _ => [CreatedAtDesc]
  }

  /** What `buildProductQueryObject(filters)` returns. */
  function QueryObjectOf(f: Filters): QueryObject
  {
    QueryObject(ConditionsOf(f), OrderOf(f.sortBy), f.limit, (f.page - 1) * f.limit, f.colorIds)
  }

  /** `buildProductQueryObject(filters)`: conditions and ordering pushed one by one. */
  method BuildProductQueryObject(f: Filters) returns (r: QueryObject)
    ensures r == QueryObjectOf(f)
  {
    var conditions := BuildConditions(f);
    var orderBy: seq<Order> := [];
    var colorFilterIds := f.colorIds;

    var primary := match f.sortBy
      case Some(PriceAsc) => LowestVariantPriceAsc
      case Some(PriceDesc) => HighestVariantPriceDesc
      case _ => CreatedAtDesc;
    orderBy := orderBy + [primary];
    if f.sortBy.Some? && f.sortBy != Some(Latest) {
      orderBy := orderBy + [CreatedAtDesc];
    }

    r := QueryObject(conditions, orderBy, f.limit, (f.page - 1) * f.limit, colorFilterIds);
  }

  /** The `where` list of `buildProductQueryObject`: published first, then one push per set filter. */
  method BuildConditions(f: Filters) returns (conditions: seq<Condition>)
    ensures conditions == ConditionsOf(f)
  {
    conditions := [Published];
    conditions := PushWhen(conditions, HasText(f.search), NameOrDescriptionLike(LikePattern(f.search.GetOr(""))));
    conditions := PushWhen(conditions, |f.categoryIds| > 0, CategoryIn(f.categoryIds));
    conditions := PushWhen(conditions, |f.brandIds| > 0, BrandIn(f.brandIds));
    conditions := PushWhen(conditions, HasText(f.gender), GenderIs(f.gender.GetOr("")));
    conditions := PushWhen(conditions, |f.colorIds| > 0, SomeVariantColorIn(f.colorIds));
    conditions := PushWhen(conditions, f.priceMin.Some?, SomeVariantPriceAtLeast(f.priceMin.GetOr(0)));
    conditions := PushWhen(conditions, f.priceMax.Some?, SomeVariantPriceAtMost(f.priceMax.GetOr(0)));
  }

  /** `if (present) where.push(c)`. */
  method PushWhen(conditions: seq<Condition>, present: bool, c: Condition) returns (r: seq<Condition>)
    ensures r == PushIf(conditions, present, c)
  {
    r := conditions;
    if present {
      r := r + [c];
    }
  }

  lemma PushedStep(cs: seq<Condition>, xs: seq<(bool, Condition)>, k: nat)
    requires k < |xs|
    ensures Pushed(cs, xs[..k + 1]) == PushIf(Pushed(cs, xs[..k]), xs[k].0, xs[k].1)
    ensures k == 0 ==> Pushed(cs, xs[..k]) == cs
  {
    assert xs[..k + 1][..k] == xs[..k];
  }

  /** A condition is pushed exactly when it is a present candidate (or was there already). */
  lemma {:induction false} PushedMember(cs: seq<Condition>, xs: seq<(bool, Condition)>, c: Condition)
    ensures c in Pushed(cs, xs) <==> c in cs || exists i :: 0 <= i < |xs| && xs[i].0 && xs[i].1 == c
    decreases |xs|
  {
    if |xs| > 0 {
      var init := xs[..|xs| - 1];
      PushedMember(cs, init, c);
      if exists i :: 0 <= i < |init| && init[i].0 && init[i].1 == c {
        var i :| 0 <= i < |init| && init[i].0 && init[i].1 == c;
        assert xs[i] == init[i];
      }
      if exists i :: 0 <= i < |xs| && xs[i].0 && xs[i].1 == c {
        var i :| 0 <= i < |xs| && xs[i].0 && xs[i].1 == c;
        if i < |init| {
          assert init[i] == xs[i];
        }
      }
    }
  }

  /** Pushing never disturbs what was there first. */
  lemma {:induction false} PushedKeepsPrefix(cs: seq<Condition>, xs: seq<(bool, Condition)>)
    ensures |Pushed(cs, xs)| >= |cs| && Pushed(cs, xs)[..|cs|] == cs
    decreases |xs|
  {
    if |xs| > 0 {
      PushedKeepsPrefix(cs, xs[..|xs| - 1]);
    }
  }

  /** Each kind of condition at most once, in the order of `Rank`. */
  predicate RanksIncrease(cs: seq<Condition>)
  {
    forall i, j :: 0 <= i < j < |cs| ==> Rank(cs[i]) < Rank(cs[j])
  }

  predicate RanksBelow(cs: seq<Condition>, n: nat)
  {
    forall i :: 0 <= i < |cs| ==> Rank(cs[i]) < n
  }

  /** Candidates of strictly increasing ranks, all at least `n`. */
  predicate CandidatesRanked(xs: seq<(bool, Condition)>, n: nat)
  {
    && (forall i :: 0 <= i < |xs| ==> n <= Rank(xs[i].1))
    && (forall i, j :: 0 <= i < j < |xs| ==> Rank(xs[i].1) < Rank(xs[j].1))
  }

  /** Pushing a condition of a higher rank keeps the ranks in order. */
  lemma PushRanked(cs: seq<Condition>, present: bool, c: Condition)
    requires RanksIncrease(cs) && RanksBelow(cs, Rank(c))
    ensures RanksIncrease(PushIf(cs, present, c))
  {
  }

  /** Pushing candidates of increasing ranks above those already there keeps the ranks in order. */
  lemma {:induction false} PushedRanked(cs: seq<Condition>, xs: seq<(bool, Condition)>, n: nat)
    requires RanksIncrease(cs) && RanksBelow(cs, n) && CandidatesRanked(xs, n)
    ensures RanksIncrease(Pushed(cs, xs))
    ensures |xs| > 0 ==> RanksBelow(Pushed(cs, xs), Rank(xs[|xs| - 1].1) + 1)
    ensures |xs| == 0 ==> RanksBelow(Pushed(cs, xs), n)
    decreases |xs|
  {
    if |xs| > 0 {
      var init := xs[..|xs| - 1];
      var c := xs[|xs| - 1].1;
      assert CandidatesRanked(init, n);
      PushedRanked(cs, init, n);
      assert RanksBelow(Pushed(cs, init), Rank(c)) by {
        if |init| > 0 {
          assert Rank(init[|init| - 1].1) < Rank(c);
        }
      }
      PushRanked(Pushed(cs, init), xs[|xs| - 1].0, c);
    }
  }

  /** The candidate at position `i` has rank `i + 1`. */
  lemma CandidateRanks(f: Filters)
    ensures forall i :: 0 <= i < 7 ==> Rank(Candidates(f)[i].1) == i + 1
    ensures CandidatesRanked(Candidates(f), 1)
  {
    var xs := Candidates(f);
    forall i | 0 <= i < 7 ensures Rank(xs[i].1) == i + 1 {
      if i == 0 {} else if i == 1 {} else if i == 2 {} else if i == 3 {} else if i == 4 {} else if i == 5 {} else {}
    }
  }

  /** A condition kind is in the list exactly when its candidate is present. */
  lemma ConditionPresent(f: Filters, k: nat)
    requires k < 7
    ensures Candidates(f)[k].1 in ConditionsOf(f) <==> Candidates(f)[k].0
  {
    var xs := Candidates(f);
    CandidateRanks(f);
    ConditionsArePushed(f);
    PushedMember([Published], xs, xs[k].1);
  }

  /**
   * The conditions start with the published check, hold each kind at most
   * once and in a fixed order, and hold a kind exactly when its filter is set.
   */
  lemma ConditionsShape(f: Filters)
    ensures var cs := ConditionsOf(f);
            && |cs| > 0 && cs[0] == Published
            && RanksIncrease(cs)
            && (HasText(f.search) <==> NameOrDescriptionLike(LikePattern(f.search.GetOr(""))) in cs)
            && (|f.categoryIds| > 0 <==> CategoryIn(f.categoryIds) in cs)
            && (|f.brandIds| > 0 <==> BrandIn(f.brandIds) in cs)
            && (HasText(f.gender) <==> GenderIs(f.gender.GetOr("")) in cs)
            && (|f.colorIds| > 0 <==> SomeVariantColorIn(f.colorIds) in cs)
            && (f.priceMin.Some? <==> SomeVariantPriceAtLeast(f.priceMin.GetOr(0)) in cs)
            && (f.priceMax.Some? <==> SomeVariantPriceAtMost(f.priceMax.GetOr(0)) in cs)
  {
    var xs := Candidates(f);
    ConditionsArePushed(f);
    PushedKeepsPrefix([Published], xs);
    assert ConditionsOf(f)[..1][0] == Published;
    CandidateRanks(f);
    PushedRanked([Published], xs, 1);
    ConditionPresent(f, 0);
    ConditionPresent(f, 1);
    ConditionPresent(f, 2);
    ConditionPresent(f, 3);
    ConditionPresent(f, 4);
    ConditionPresent(f, 5);
    ConditionPresent(f, 6);
  }

  /**
   * The window of a valid page: rows from `(page - 1) * limit`, ending where
   * the page ends.
   */
  lemma Window(f: Filters)
    requires f.page >= 1 && f.limit >= 1
    ensures var q := QueryObjectOf(f);
            q.offset >= 0 && q.offset + q.limit == f.page * q.limit
  {
    NonNegativeProduct(f.page - 1, f.limit);
  }

  lemma {:induction false} NonNegativeProduct(a: nat, b: nat)
    ensures a * b >= 0
    decreases a
  {
    if a > 0 {
      NonNegativeProduct(a - 1, b);
      assert a * b == (a - 1) * b + b;
    }
  }

  /** For filters read from search params the window always starts at a page boundary. */
  lemma WindowOfParsedFilters(input: ParamsInput)
    ensures var f := FilterParamsOf(input);
            var q := QueryObjectOf(f);
            && 1 <= q.limit <= 60 && q.offset >= 0 && q.offset + q.limit == f.page * q.limit
  {
    FilterParamsBounds(input);
    Window(FilterParamsOf(input));
  }
}
