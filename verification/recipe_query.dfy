/** `src/recipe.rs`: the publisher discriminants and the text and parameter list of the
    filtered-recipes query. The query itself runs against the database, which is not part of
    this model. */
module RecipeQuery {
  import opened Results
  import opened Text
  import opened Seqs

  // ---------------------------------------------------------------------------
  // publisher

  datatype Publisher = NYTCooking | AllRecipes

  datatype PublisherError = InvalidPublisher

  /** The enum's discriminant. */
  function Discriminant(p: Publisher): int {
    match p
    case NYTCooking => 0
    case AllRecipes => 1
  }

  /** `Publisher::new`. */
  function NewPublisher(value: int): (r: Result<Publisher, PublisherError>)
    ensures r.Ok? <==> value == 0 || value == 1
    ensures r.Ok? ==> Discriminant(r.value) == value
  {
    match value
    case 0 => Ok(NYTCooking)
    case 1 => Ok(AllRecipes)
    case _ => Err(InvalidPublisher)
  }

  /** Every publisher is rebuilt from its discriminant. */
  lemma PublisherRoundTrip(p: Publisher)
    ensures NewPublisher(Discriminant(p)) == Ok(p)
  {
  }

  // ---------------------------------------------------------------------------
  // query text

  /** A run of `n` spaces: the indentation inside the multi-line literals. */
  function Spaces(n: nat): (r: string)
    ensures |r| == n && forall i :: 0 <= i < n ==> r[i] == ' '
  {
    seq(n, i => ' ')
  }

  /** The lines of a multi-line literal whose continuation lines are indented by `indent`. */
  function Block(indent: nat, lines: seq<string>): string {
    Join(lines, "\n" + Spaces(indent))
  }

  const SelectIds: string := "SELECT DISTINCT recipes.id"
  const JoinRecipeIngredient: seq<string> := [
    "INNER JOIN recipe_ingredient",
    "ON recipes.id = recipe_ingredient.recipes_id",
    "INNER JOIN ingredients",
    "ON recipe_ingredient.ingredients_id = ingredients.id"]

  const OnePrefix: string := Block(16, [SelectIds, "FROM recipes "] + JoinRecipeIngredient + ["WHERE "])
  const OneTermPrefix: string := "ingredients.name = "
  const AllPrefix: string := Block(29, [SelectIds, "FROM recipes "] + JoinRecipeIngredient + ["WHERE ingredients.name = "])
  const TagPrefix: string := Block(13, [
    SelectIds,
    "FROM recipes ",
    "INNER JOIN recipe_tag",
    "ON recipes.id = recipe_tag.recipes_id",
    "INNER JOIN tags",
    "ON recipe_tag.tags_id = tags.id",
    "WHERE tags.name = "])
  /** The outer query's first line, in two literals: a literal this long is beyond what the
      verifier unfolds when it checks that the line holds no `$`. */
  const OuterSelect: string := "SELECT recipes.id, array_agg(DISTINCT " + "ingredients.name) as ingredients_list"
  const OuterPrefix: string := Block(25,
    [OuterSelect, "FROM recipes"]
    + JoinRecipeIngredient + ["WHERE recipes.id IN ("])
  const OuterSuffix: string := Block(25, [")", "GROUP BY recipes.id"])

  lemma {:induction false} JoinNoChar(parts: seq<string>, sep: string, c: char)
    requires c !in sep && forall i :: 0 <= i < |parts| ==> c !in parts[i]
    ensures c !in Join(parts, sep)
  {
    if |parts| > 1 {
      JoinNoChar(parts[1..], sep, c);
    }
  }

  lemma IndentNoDollar(n: nat)
    ensures '$' !in "\n" + Spaces(n)
  {
    assert forall i :: 0 <= i < n ==> Spaces(n)[i] != '$';
  }

  lemma SelectIdsNoDollar()
    ensures '$' !in SelectIds
  {
  }

  lemma JoinLineNoDollar(i: nat)
    requires i < |JoinRecipeIngredient|
    ensures '$' !in JoinRecipeIngredient[i]
  {
  }

  lemma SharedLinesNoDollar()
    ensures '$' !in SelectIds
    ensures forall i :: 0 <= i < |JoinRecipeIngredient| ==> '$' !in JoinRecipeIngredient[i]
  {
    SelectIdsNoDollar();
    JoinLineNoDollar(0);
    JoinLineNoDollar(1);
    JoinLineNoDollar(2);
    JoinLineNoDollar(3);
  }

  lemma BlockNoDollar(indent: nat, lines: seq<string>)
    requires forall i :: 0 <= i < |lines| ==> '$' !in lines[i]
    ensures '$' !in Block(indent, lines)
  {
    IndentNoDollar(indent);
    JoinNoChar(lines, "\n" + Spaces(indent), '$');
  }

  lemma OnePrefixNoDollar()
    ensures '$' !in OnePrefix && '$' !in OneTermPrefix
  {
    SharedLinesNoDollar();
    BlockNoDollar(16, [SelectIds, "FROM recipes "] + JoinRecipeIngredient + ["WHERE "]);
  }

  lemma AllPrefixNoDollar()
    ensures '$' !in AllPrefix
  {
    SharedLinesNoDollar();
    BlockNoDollar(29, [SelectIds, "FROM recipes "] + JoinRecipeIngredient + ["WHERE ingredients.name = "]);
  }

  lemma TagPrefixNoDollar()
    ensures '$' !in TagPrefix
  {
    SharedLinesNoDollar();
    BlockNoDollar(13, [SelectIds, "FROM recipes ", "INNER JOIN recipe_tag", "ON recipes.id = recipe_tag.recipes_id",
      "INNER JOIN tags", "ON recipe_tag.tags_id = tags.id", "WHERE tags.name = "]);
  }

  lemma OuterSelectNoDollar()
    ensures '$' !in OuterSelect
  {
    assert '$' !in "SELECT recipes.id, array_agg(DISTINCT ";
    assert '$' !in "ingredients.name) as ingredients_list";
  }

  lemma OuterNoDollar()
    ensures '$' !in OuterPrefix && '$' !in OuterSuffix
  {
    SharedLinesNoDollar();
    OuterSelectNoDollar();
    BlockNoDollar(25, [OuterSelect, "FROM recipes"] + JoinRecipeIngredient + ["WHERE recipes.id IN ("]);
    BlockNoDollar(25, [")", "GROUP BY recipes.id"]);
  }

  /** The numbered placeholder `$k`. */
  function Placeholder(k: nat): string {
    "$" + NatToString(k)
  }

  /** `n` copies of `prefix` each followed by the next placeholder from `start` on. */
  function Terms(prefix: string, start: nat, n: nat): (r: seq<string>)
    ensures |r| == n && forall x :: 0 <= x < n ==> r[x] == prefix + Placeholder(start + x)
  {
    seq(n, x requires 0 <= x < n => prefix + Placeholder(start + x))
  }

  /** The one-ingredient sub-query: one name test per ingredient, joined by `OR`. */
  function OneClause(start: nat, n: nat): string {
    OnePrefix + Join(Terms(OneTermPrefix, start, n), " OR ")
  }

  /** The all-ingredients sub-query: one sub-select per ingredient, joined by `INTERSECT`. */
  function AllClause(start: nat, n: nat): string {
    Join(Terms(AllPrefix, start, n), " INTERSECT ")
  }

  function TagClause(k: nat): string {
    TagPrefix + Placeholder(k)
  }

  /** The state after a block: its sub-query, the next placeholder number and the parameters
      bound so far. */
  datatype Step = Step(query: Option<string>, counter: nat, params: seq<string>)

  /** The one-ingredient block, starting from `variable_counter == 1` and no parameters. */
  function OneStep(one: Option<seq<string>>): (r: Step)
    ensures r.counter == |r.params| + 1
  {
    if one.Some? && |one.value| != 0 then Step(Some(OneClause(1, |one.value|)), 1 + |one.value|, one.value)
    else Step(None, 1, [])
  }

  /** The all-ingredients block. */
  function AllStep(all: Option<seq<string>>, counter: nat, params: seq<string>): (r: Step)
    requires counter == |params| + 1
    ensures r.counter == |r.params| + 1
  {
    if all.Some? && |all.value| != 0 then Step(Some(AllClause(counter, |all.value|)), counter + |all.value|, params + all.value)
    else Step(None, counter, params)
  }

  /** The tag block. */
  function TagStep(tag: Option<string>, counter: nat, params: seq<string>): (r: Step)
    requires counter == |params| + 1
    ensures r.counter == |r.params| + 1
  {
    if tag.Some? then Step(Some(TagClause(counter)), counter + 1, params + [tag.value])
    else Step(None, counter, params)
  }

  /** The sub-queries that are present, in order. */
  function Present(qs: seq<Option<string>>): seq<string> {
    if |qs| == 0 then []
    else (if qs[0].Some? then [qs[0].value] else []) + Present(qs[1..])
  }

  /** The present sub-queries joined by `INTERSECT`, and the parameters bound. */
  function SubQuery(tag: Option<string>, all: Option<seq<string>>, one: Option<seq<string>>): (r: (string, seq<string>))
    ensures r.1 == Given(one) + Given(all) + (if tag.Some? then [tag.value] else [])
  {
    var s1 := OneStep(one);
    var s2 := AllStep(all, s1.counter, s1.params);
    var s3 := TagStep(tag, s2.counter, s2.params);
    (Join(Present([s1.query, s2.query, s3.query]), " INTERSECT "), s3.params)
  }

  /** The query text and its parameters, as `query_filtered_recipes` prepares them. */
  function Query(tag: Option<string>, all: Option<seq<string>>, one: Option<seq<string>>): (r: (string, seq<string>))
  {
    var (sub, params) := SubQuery(tag, all, one);
    (OuterPrefix + sub + OuterSuffix, params)
  }

  /** The values of a list that contributes a block: none for a missing or empty list. */
  function Given(list: Option<seq<string>>): seq<string> {
    if list.Some? then list.value else []
  }

  /** A missing list and an empty list give the same query. */
  lemma EmptyListIsMissing(tag: Option<string>, all: Option<seq<string>>, one: Option<seq<string>>)
    ensures Query(tag, all, Some([])) == Query(tag, all, None)
    ensures Query(tag, Some([]), one) == Query(tag, None, one)
  {
  }

  // ---------------------------------------------------------------------------
  // placeholders in the text

  /** The length of the run of digits `s` starts with. */
  function DigitRun(s: string): (k: nat)
    ensures k <= |s| && AllDigits(s[..k]) && (k < |s| ==> !IsDigit(s[k]))
  {
    if |s| == 0 || !IsDigit(s[0]) then 0
    else
      var k := 1 + DigitRun(s[1..]);
      assert s[..k] == [s[0]] + s[1..][..k - 1];
      k
  }

  /** The numbers written after each `$` of a text, in order. */
  function Dollars(s: string): seq<nat> {
    if |s| == 0 then []
    else if s[0] == '$' then
      var t := s[1..];
      var k := DigitRun(t);
      (if k == 0 then [] else [DigitsValue(t[..k])]) + Dollars(t[k..])
    else Dollars(s[1..])
  }

  /** A text that does not begin with a digit cannot extend a number before it. */
  predicate Breaks(s: string) {
    s == [] || !IsDigit(s[0])
  }

  lemma {:induction false} DigitRunAppend(a: string, b: string)
    requires Breaks(b)
    ensures DigitRun(a + b) == DigitRun(a)
  {
    if |a| > 0 && IsDigit(a[0]) {
      assert (a + b)[1..] == a[1..] + b;
      DigitRunAppend(a[1..], b);
    }
  }

  lemma {:induction false} DollarsAppend(a: string, b: string)
    requires Breaks(b)
    ensures Dollars(a + b) == Dollars(a) + Dollars(b)
    decreases |a|
  {
    if |a| == 0 {
      assert a + b == b;
    } else if a[0] == '$' {
      DollarAppend(a, b);
    } else {
      var t := a[1..];
      assert (a + b)[0] == a[0] && (a + b)[1..] == t + b;
      DollarsAppend(t, b);
    }
  }

  lemma {:induction false} DollarAppend(a: string, b: string)
    requires Breaks(b) && |a| > 0 && a[0] == '$'
    ensures Dollars(a + b) == Dollars(a) + Dollars(b)
    decreases |a|, 0
  {
    var t := a[1..];
    var k := DigitRun(t);
    var head: seq<nat> := if k == 0 then [] else [DigitsValue(t[..k])];
    assert (a + b)[0] == '$' && (a + b)[1..] == t + b;
    DigitRunAppend(t, b);
    assert (t + b)[..k] == t[..k];
    assert (t + b)[k..] == t[k..] + b;
    assert Dollars(a + b) == head + Dollars(t[k..] + b);
    DollarsAppend(t[k..], b);
  }

  lemma {:induction false} DollarsNone(s: string)
    requires '$' !in s
    ensures Dollars(s) == []
  {
    if |s| > 0 {
      assert '$' !in s[1..];
      DollarsNone(s[1..]);
    }
  }

  lemma DollarsPlaceholder(k: nat)
    ensures Dollars(Placeholder(k)) == [k]
  {
    var p := Placeholder(k);
    var digits := NatToString(k);
    assert p[1..] == digits;
    assert DigitRun(digits) == |digits| by {
      assert AllDigits(digits);
    }
    assert digits[..|digits|] == digits;
    assert p[1..][|digits|..] == [];
    ParseNatToString(k);
  }

  /** A constant prefix followed by a placeholder shows just that placeholder. */
  lemma PrefixedPlaceholder(prefix: string, k: nat)
    requires '$' !in prefix
    ensures Dollars(prefix + Placeholder(k)) == [k]
  {
    DollarsAppend(prefix, Placeholder(k));
    DollarsNone(prefix);
    DollarsPlaceholder(k);
  }

  lemma {:induction false} JoinHead(parts: seq<string>, sep: string)
    requires |parts| >= 2
    ensures Join(parts, sep) == parts[0] + (sep + Join(parts[1..], sep))
  {
  }

  /** A separator without placeholders between two texts adds none. */
  lemma DollarsAround(first: string, sep: string, rest: string)
    requires '$' !in sep && |sep| > 0 && !IsDigit(sep[0]) && Breaks(rest)
    ensures Dollars(first + (sep + rest)) == Dollars(first) + Dollars(rest)
  {
    DollarsAppend(sep, rest);
    DollarsNone(sep);
    DollarsAppend(first, sep + rest);
  }

  /** Joined terms begin with the prefix, or with the first placeholder's `$`. */
  lemma TermsBreak(prefix: string, start: nat, n: nat, sep: string)
    requires Breaks(prefix) && n >= 1
    ensures Breaks(Join(Terms(prefix, start, n), sep))
  {
    var ts := Terms(prefix, start, n);
    assert Placeholder(start)[0] == '$';
    assert Breaks(ts[0]);
    JoinFirstPrefix(ts, sep);
    assert Join(ts, sep)[..|ts[0]|] == ts[0];
  }

  /** Joined terms show the placeholders `start .. start + n`, in order. */
  lemma {:induction false} DollarsTerms(prefix: string, start: nat, n: nat, sep: string)
    requires '$' !in prefix && '$' !in sep
    requires Breaks(prefix) && |sep| > 0 && !IsDigit(sep[0])
    ensures Dollars(Join(Terms(prefix, start, n), sep)) == Range(start, start + n)
    decreases n
  {
    var ts := Terms(prefix, start, n);
    if n == 1 {
      PrefixedPlaceholder(prefix, start);
    } else if n > 1 {
      assert ts[1..] == Terms(prefix, start + 1, n - 1);
      DollarsTerms(prefix, start + 1, n - 1, sep);
      TermsBreak(prefix, start + 1, n - 1, sep);
      JoinHead(ts, sep);
      DollarsAround(ts[0], sep, Join(ts[1..], sep));
      PrefixedPlaceholder(prefix, start);
      RangeCons(start, start + n);
    }
  }

  /** A sub-query is never empty and begins with `SELECT`. */
  predicate Opens(q: string) {
    |q| > 0 && !IsDigit(q[0])
  }

  lemma OneClauseDollars(start: nat, n: nat)
    requires n >= 1
    ensures Opens(OneClause(start, n))
    ensures Dollars(OneClause(start, n)) == Range(start, start + n)
  {
    OnePrefixNoDollar();
    DollarsTerms(OneTermPrefix, start, n, " OR ");
    TermsBreak(OneTermPrefix, start, n, " OR ");
    DollarsAppend(OnePrefix, Join(Terms(OneTermPrefix, start, n), " OR "));
    DollarsNone(OnePrefix);
  }

  lemma AllClauseDollars(start: nat, n: nat)
    requires n >= 1
    ensures Opens(AllClause(start, n))
    ensures Dollars(AllClause(start, n)) == Range(start, start + n)
  {
    AllPrefixNoDollar();
    assert AllPrefix[0] == 'S' by {
      JoinFirstPrefix([SelectIds, "FROM recipes "] + JoinRecipeIngredient + ["WHERE ingredients.name = "], "\n" + Spaces(29));
    }
    DollarsTerms(AllPrefix, start, n, " INTERSECT ");
    var ts := Terms(AllPrefix, start, n);
    JoinFirstPrefix(ts, " INTERSECT ");
    assert AllClause(start, n)[..|ts[0]|] == ts[0];
    assert ts[0][0] == 'S';
  }

  lemma TagClauseDollars(k: nat)
    ensures Opens(TagClause(k))
    ensures Dollars(TagClause(k)) == [k]
  {
    TagPrefixNoDollar();
    PrefixedPlaceholder(TagPrefix, k);
  }

  /** The placeholders of a list of texts, text after text. */
  function DollarsOf(qs: seq<string>): seq<nat> {
    if |qs| == 0 then [] else Dollars(qs[0]) + DollarsOf(qs[1..])
  }

  /** Joining sub-queries with `INTERSECT` keeps their placeholders, in order. */
  lemma {:induction false} DollarsJoin(qs: seq<string>)
    requires forall i :: 0 <= i < |qs| ==> Opens(qs[i])
    ensures Dollars(Join(qs, " INTERSECT ")) == DollarsOf(qs)
    ensures |qs| > 0 ==> Opens(Join(qs, " INTERSECT "))
  {
    if |qs| == 1 {
      assert DollarsOf(qs[1..]) == [];
    } else if |qs| > 1 {
      var rest := Join(qs[1..], " INTERSECT ");
      DollarsJoin(qs[1..]);
      JoinHead(qs, " INTERSECT ");
      DollarsAround(qs[0], " INTERSECT ", rest);
      JoinFirstPrefix(qs, " INTERSECT ");
      assert Join(qs, " INTERSECT ")[..|qs[0]|] == qs[0];
    }
  }

  function DollarsOpt(q: Option<string>): seq<nat> {
    if q.Some? then Dollars(q.value) else []
  }

  lemma {:induction false} PresentOpens(qs: seq<Option<string>>)
    requires forall i :: 0 <= i < |qs| ==> qs[i].Some? ==> Opens(qs[i].value)
    ensures forall i :: 0 <= i < |Present(qs)| ==> Opens(Present(qs)[i])
  {
    if |qs| > 0 {
      PresentOpens(qs[1..]);
      var head := if qs[0].Some? then [qs[0].value] else [];
      assert forall i :: |head| <= i < |Present(qs)| ==> Present(qs)[i] == Present(qs[1..])[i - |head|];
    }
  }

  lemma PresentThree(a: Option<string>, b: Option<string>, c: Option<string>)
    ensures DollarsOf(Present([a, b, c])) == DollarsOpt(a) + DollarsOpt(b) + DollarsOpt(c)
  {
    assert [a, b, c][1..] == [b, c] && [b, c][1..] == [c] && [c][1..] == [];
    PresentDollarsOf(a, Present([b, c]));
    PresentDollarsOf(b, Present([c]));
    PresentDollarsOf(c, Present([]));
  }

  lemma PresentDollarsOf(q: Option<string>, rest: seq<string>)
    ensures DollarsOf((if q.Some? then [q.value] else []) + rest) == DollarsOpt(q) + DollarsOf(rest)
  {
    if q.Some? {
      assert ([q.value] + rest)[1..] == rest;
    } else {
      assert [] + rest == rest;
    }
  }

  lemma RangeAppend(a: nat, b: nat, c: nat)
    requires a <= b <= c
    ensures Range(a, b) + Range(b, c) == Range(a, c)
  {
  }

  /** A block that writes a sub-query writes the placeholders from the counter up to the new
      counter. */
  predicate Writes(q: Option<string>, from: nat, to: nat) {
    && from <= to
    && (q.Some? ==> Opens(q.value))
    && DollarsOpt(q) == Range(from, to)
  }

  lemma OneStepDollars(one: Option<seq<string>>)
    ensures Writes(OneStep(one).query, 1, OneStep(one).counter)
  {
    if one.Some? && |one.value| != 0 {
      OneClauseDollars(1, |one.value|);
    }
  }

  lemma AllStepDollars(all: Option<seq<string>>, counter: nat, params: seq<string>)
    requires counter == |params| + 1
    ensures Writes(AllStep(all, counter, params).query, counter, AllStep(all, counter, params).counter)
  {
    if all.Some? && |all.value| != 0 {
      AllClauseDollars(counter, |all.value|);
    }
  }

  lemma TagStepDollars(tag: Option<string>, counter: nat, params: seq<string>)
    requires counter == |params| + 1
    ensures Writes(TagStep(tag, counter, params).query, counter, TagStep(tag, counter, params).counter)
  {
    if tag.Some? {
      TagClauseDollars(counter);
      assert Range(counter, counter + 1) == [counter];
    }
  }

  lemma SubQueryPlaceholders(tag: Option<string>, all: Option<seq<string>>, one: Option<seq<string>>)
    ensures var (sub, params) := SubQuery(tag, all, one);
      Breaks(sub) && Dollars(sub) == Range(1, |params| + 1)
  {
    var s1 := OneStep(one);
    var s2 := AllStep(all, s1.counter, s1.params);
    var s3 := TagStep(tag, s2.counter, s2.params);
    OneStepDollars(one);
    AllStepDollars(all, s1.counter, s1.params);
    TagStepDollars(tag, s2.counter, s2.params);
    RangeAppend(1, s1.counter, s2.counter);
    RangeAppend(1, s2.counter, s3.counter);
    var qs := [s1.query, s2.query, s3.query];
    PresentOpens(qs);
    PresentThree(s1.query, s2.query, s3.query);
    DollarsJoin(Present(qs));
  }

  /** The placeholders written in the query text are `$1, $2, ..., $n` in order, for the `n`
      parameters bound: the counter stays one ahead of the parameter list through every
      block. */
  lemma QueryPlaceholders(tag: Option<string>, all: Option<seq<string>>, one: Option<seq<string>>)
    ensures var (text, params) := Query(tag, all, one);
      Dollars(text) == Range(1, |params| + 1)
  {
    var (sub, params) := SubQuery(tag, all, one);
    SubQueryPlaceholders(tag, all, one);
    OuterNoDollar();
    assert Breaks(OuterSuffix) by {
      JoinFirstPrefix([")", "GROUP BY recipes.id"], "\n" + Spaces(25));
    }
    DollarsAppend(OuterPrefix + sub, OuterSuffix);
    DollarsAppend(OuterPrefix, sub);
    DollarsNone(OuterPrefix);
    DollarsNone(OuterSuffix);
  }
}
