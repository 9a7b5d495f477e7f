/** `src/table.rs`: ingredient ids in first-seen order, occurrence counts,
    per-recipe id lists (sorted and deduplicated), the recipe-ingredient
    incidence points and the lower-triangle ingredient co-occurrence points. */
module Table {
  import opened Results
  import opened Seqs
  import Text

  // ---------------------------------------------------------------------------
  // first-seen ids

  /** The state of the id-assignment loop: `ingredients_map`, `ingredients_vec`,
      `ingredients_count` and the recipe vecs filled so far. */
  datatype Index = Index(ids: map<string, nat>, names: seq<string>, counts: seq<nat>, vecs: seq<seq<nat>>)

  ghost predicate WellFormed(st: Index) {
    forall s :: s in st.ids ==> st.ids[s] < |st.counts|
  }

  /** One ingredient of the current (last) recipe: a known name bumps its count, a new one gets
      the next id and a count of 1; either way its id joins the recipe's vec. */
  function AddName(st: Index, name: string): (r: Index)
    requires |st.vecs| > 0 && WellFormed(st) && |st.names| == |st.counts|
    ensures WellFormed(r) && |r.vecs| == |st.vecs| && |r.names| == |r.counts|
  {
    var last := |st.vecs| - 1;
    if name in st.ids then
      var id := st.ids[name];
      Index(st.ids, st.names, st.counts[id := st.counts[id] + 1], st.vecs[last := st.vecs[last] + [id]])
    else
      var id := |st.names|;
      Index(st.ids[name := id], st.names + [name], st.counts + [1], st.vecs[last := st.vecs[last] + [id]])
  }

  function AddNames(st: Index, names: seq<string>): (r: Index)
    requires |st.vecs| > 0 && WellFormed(st) && |st.names| == |st.counts|
    ensures WellFormed(r) && |r.vecs| == |st.vecs| && |r.names| == |r.counts|
  {
    if |names| == 0 then st else AddName(AddNames(st, names[..|names| - 1]), names[|names| - 1])
  }

  /** The nested loop over the recipes and their ingredient names. */
  function IndexRecipes(recipes: seq<seq<string>>): (r: Index)
    ensures WellFormed(r) && |r.vecs| == |recipes| && |r.names| == |r.counts|
  {
    if |recipes| == 0 then Index(map[], [], [], [])
    else
      var st := IndexRecipes(recipes[..|recipes| - 1]);
      AddNames(OpenRecipe(st), recipes[|recipes| - 1])
  }

  /** The ids of a recipe's names, in order. */
  function IdsOf(ids: map<string, nat>, recipe: seq<string>): (r: seq<nat>)
    requires forall k :: 0 <= k < |recipe| ==> recipe[k] in ids
    ensures |r| == |recipe| && forall k :: 0 <= k < |recipe| ==> r[k] == ids[recipe[k]]
  {
    seq(|recipe|, k requires 0 <= k < |recipe| => ids[recipe[k]])
  }

  /** What the loop keeps true after reading the names `xs`: the names are the distinct ones of
      `xs` in first-seen order, the map is their inverse, and each count is the number of
      occurrences. */
  ghost predicate Indexed(st: Index, xs: seq<string>) {
    && st.names == FirstSeen(xs)
    && |st.counts| == |st.names|
    && (forall s :: s in st.ids <==> s in xs)
    && (forall id :: 0 <= id < |st.names| ==> st.names[id] in st.ids && st.ids[st.names[id]] == id)
    && (forall id :: 0 <= id < |st.counts| ==> st.counts[id] == multiset(xs)[st.names[id]])
  }

  lemma FirstSeenAppend(xs: seq<string>, x: string)
    ensures FirstSeen(xs + [x]) == if x in xs then FirstSeen(xs) else FirstSeen(xs) + [x]
  {
    assert (xs + [x])[..|xs|] == xs;
    var f := FirstSeen(xs);
    assert x in f <==> x in xs by {
      assert forall i :: 0 <= i < |xs| ==> xs[i] in f;
      assert forall i :: 0 <= i < |f| ==> f[i] in xs;
    }
  }

  lemma AddKnownName(st: Index, xs: seq<string>, name: string)
    requires |st.vecs| > 0 && WellFormed(st) && Indexed(st, xs) && name in st.ids
    ensures Indexed(AddName(st, name), xs + [name])
  {
    var r := AddName(st, name);
    var ys := xs + [name];
    FirstSeenAppend(xs, name);
    assert forall s :: s in ys <==> s in xs || s == name;
    forall id | 0 <= id < |r.counts| ensures r.counts[id] == multiset(ys)[r.names[id]] {
      if st.names[id] == name {
        assert id == st.ids[name];
      } else {
        assert st.ids[st.names[id]] == id;
      }
    }
  }

  lemma NewIds(ids: map<string, nat>, names: seq<string>, name: string)
    requires name !in ids && name !in names
    requires forall id :: 0 <= id < |names| ==> names[id] in ids && ids[names[id]] == id
    ensures var ids', names' := ids[name := |names|], names + [name];
      forall id :: 0 <= id < |names'| ==> names'[id] in ids' && ids'[names'[id]] == id
  {
  }

  lemma NewCounts(counts: seq<nat>, names: seq<string>, xs: seq<string>, name: string)
    requires |counts| == |names| && name !in names && name !in xs
    requires forall id :: 0 <= id < |counts| ==> counts[id] == multiset(xs)[names[id]]
    ensures var counts', names' := counts + [1], names + [name];
      forall id :: 0 <= id < |counts'| ==> counts'[id] == multiset(xs + [name])[names'[id]]
  {
    assert multiset(xs + [name]) == multiset(xs) + multiset{name};
  }

  lemma AddNewName(st: Index, xs: seq<string>, name: string)
    requires |st.vecs| > 0 && WellFormed(st) && Indexed(st, xs) && name !in st.ids
    ensures Indexed(AddName(st, name), xs + [name])
  {
    var r := AddName(st, name);
    assert r.ids == st.ids[name := |st.names|] && r.names == st.names + [name] && r.counts == st.counts + [1];
    FirstSeenAppend(xs, name);
    assert name !in st.names;
    NewIds(st.ids, st.names, name);
    NewCounts(st.counts, st.names, xs, name);
    assert forall s :: s in xs + [name] <==> s in xs || s == name;
  }

  /** One step keeps the first-seen invariant. */
  lemma AddNameIndexed(st: Index, xs: seq<string>, name: string)
    requires |st.vecs| > 0 && WellFormed(st) && Indexed(st, xs)
    ensures Indexed(AddName(st, name), xs + [name])
  {
    if name in st.ids {
      AddKnownName(st, xs, name);
    } else {
      AddNewName(st, xs, name);
    }
  }

  /** The vecs of `st` hold the ids of `recipes`, name by name. */
  ghost predicate VecsMatch(st: Index, recipes: seq<seq<string>>) {
    && |st.vecs| == |recipes|
    && forall i :: 0 <= i < |recipes| ==>
         && |st.vecs[i]| == |recipes[i]|
         && forall k :: 0 <= k < |recipes[i]| ==> recipes[i][k] in st.ids && st.vecs[i][k] == st.ids[recipes[i][k]]
  }

  /** A step keeps every known id and appends the name's id to the current recipe's vec. */
  lemma AddNameStable(st: Index, name: string)
    requires |st.vecs| > 0 && WellFormed(st) && |st.names| == |st.counts|
    ensures var r := AddName(st, name);
      && name in r.ids
      && (forall s :: s in st.ids ==> s in r.ids && r.ids[s] == st.ids[s])
      && r.vecs == st.vecs[|st.vecs| - 1 := st.vecs[|st.vecs| - 1] + [r.ids[name]]]
  {
  }

  /** Reading the names of one recipe keeps every known id, leaves the earlier vecs alone and
      appends the names' ids to the current one. */
  lemma {:induction false} AddNamesStable(st: Index, names: seq<string>)
    requires |st.vecs| > 0 && WellFormed(st) && |st.names| == |st.counts|
    ensures var r, last := AddNames(st, names), |st.vecs| - 1;
      && (forall s :: s in st.ids ==> s in r.ids && r.ids[s] == st.ids[s])
      && r.vecs[..last] == st.vecs[..last]
      && |r.vecs[last]| == |st.vecs[last]| + |names|
      && r.vecs[last][..|st.vecs[last]|] == st.vecs[last]
      && forall k :: 0 <= k < |names| ==> names[k] in r.ids && r.vecs[last][|st.vecs[last]| + k] == r.ids[names[k]]
  {
    if |names| > 0 {
      var init := names[..|names| - 1];
      var name := names[|names| - 1];
      AddNamesStable(st, init);
      var mid := AddNames(st, init);
      AddNameStable(mid, name);
      var last := |st.vecs| - 1;
      var r := AddNames(st, names);
      assert r == AddName(mid, name);
      assert r.vecs[last] == mid.vecs[last] + [r.ids[name]];
      forall k | 0 <= k < |names|
        ensures names[k] in r.ids && r.vecs[last][|st.vecs[last]| + k] == r.ids[names[k]]
      {
        if k < |init| {
          assert names[k] == init[k];
        }
      }
    }
  }

  lemma SnocSplit<T>(xs: seq<T>, ys: seq<T>)
    requires |ys| > 0
    ensures xs + ys == (xs + ys[..|ys| - 1]) + [ys[|ys| - 1]]
  {
    assert ys == ys[..|ys| - 1] + [ys[|ys| - 1]];
  }

  /** Reading the names of one recipe keeps the first-seen invariant. */
  lemma {:induction false} AddNamesIndexed(st: Index, xs: seq<string>, names: seq<string>)
    requires |st.vecs| > 0 && WellFormed(st) && Indexed(st, xs)
    ensures Indexed(AddNames(st, names), xs + names)
  {
    if |names| > 0 {
      var init := names[..|names| - 1];
      var name := names[|names| - 1];
      AddNamesIndexed(st, xs, init);
      var mid := AddNames(st, init);
      AddNameIndexed(mid, xs + init, name);
      assert AddNames(st, names) == AddName(mid, name);
      SnocSplit(xs, names);
    } else {
      assert xs + names == xs;
    }
  }

  /** A new, empty vec for the next recipe. */
  function OpenRecipe(st: Index): (r: Index)
    ensures r.ids == st.ids && r.names == st.names && r.counts == st.counts
    ensures |r.vecs| == |st.vecs| + 1 && r.vecs[..|st.vecs|] == st.vecs && r.vecs[|st.vecs|] == []
  {
    Index(st.ids, st.names, st.counts, st.vecs + [[]])
  }

  /** After every recipe is read, the names are the distinct ingredient names in first-seen
      order, the map is their inverse and each count is the total number of occurrences. */
  lemma {:induction false} IndexRecipesIndexed(recipes: seq<seq<string>>)
    ensures Indexed(IndexRecipes(recipes), Flatten(recipes))
  {
    if |recipes| > 0 {
      var init := recipes[..|recipes| - 1];
      IndexRecipesIndexed(init);
      var st := IndexRecipes(init);
      AddNamesIndexed(OpenRecipe(st), Flatten(init), recipes[|recipes| - 1]);
    }
  }

  /** After every recipe is read, the vec of recipe `i` holds the ids of its names, in order. */
  lemma {:induction false} IndexRecipesVecs(recipes: seq<seq<string>>)
    ensures VecsMatch(IndexRecipes(recipes), recipes)
  {
    if |recipes| > 0 {
      var init := recipes[..|recipes| - 1];
      IndexRecipesVecs(init);
      var st := IndexRecipes(init);
      var open := OpenRecipe(st);
      AddNamesStable(open, recipes[|recipes| - 1]);
      var r := IndexRecipes(recipes);
      assert r == AddNames(open, recipes[|recipes| - 1]);
      forall i | 0 <= i < |recipes|
        ensures |r.vecs[i]| == |recipes[i]|
        ensures forall k :: 0 <= k < |recipes[i]| ==> recipes[i][k] in r.ids && r.vecs[i][k] == r.ids[recipes[i][k]]
      {
        if i < |init| {
          assert recipes[i] == init[i];
          assert r.vecs[i] == r.vecs[..|init|][i] == st.vecs[i];
        }
      }
    }
  }

  // ---------------------------------------------------------------------------
  // dedup and the lower-triangle tally

  /** Each recipe vec sorted and deduplicated. */
  function Deduped(vecs: seq<seq<nat>>): (r: seq<seq<nat>>)
    ensures |r| == |vecs|
    ensures forall i :: 0 <= i < |r| ==> Increasing(r[i]) && forall x :: x in r[i] <==> x in vecs[i]
  {
    seq(|vecs|, i requires 0 <= i < |vecs| => SortDedup(vecs[i]))
  }

  /** The final value of `dense[x][y]`: every recipe adds one for each of its pairs
      `(id_1, id_2) == (y, x)`. */
  function Tally(vecs: seq<seq<nat>>, x: nat, y: nat): nat {
    if |vecs| == 0 then 0
    else Tally(vecs[..|vecs| - 1], x, y) + multiset(Combinations(vecs[|vecs| - 1]))[(y, x)]
  }

  /** The number of recipes whose vec holds both `a` and `b`. */
  function RecipesWith(vecs: seq<seq<nat>>, a: nat, b: nat): nat {
    if |vecs| == 0 then 0
    else RecipesWith(vecs[..|vecs| - 1], a, b) + (if a in vecs[|vecs| - 1] && b in vecs[|vecs| - 1] then 1 else 0)
  }

  /** Over deduplicated vecs, the tally below the diagonal counts the recipes holding both ids,
      and the diagonal and upper triangle stay zero. */
  lemma {:induction false} TallyCountsRecipes(vecs: seq<seq<nat>>, x: nat, y: nat)
    requires forall i :: 0 <= i < |vecs| ==> Increasing(vecs[i])
    ensures Tally(vecs, x, y) == if y < x then RecipesWith(vecs, x, y) else 0
  {
    if |vecs| > 0 {
      TallyCountsRecipes(vecs[..|vecs| - 1], x, y);
      CombinationsCount(vecs[|vecs| - 1], y, x);
    }
  }

  /** The dense matrix `ingredient_ingredient_dense` as a function of `(x, y)`. */
  function Dense(vecs: seq<seq<nat>>): (nat, nat) -> nat {
    (x: nat, y: nat) => Tally(vecs, x, y)
  }

  /** Row `x` of the dense matrix has `x + 1` entries. */
  function Triangle(x: nat): nat {
    x + 1
  }

  /** The nonzero entries of the lower triangle, diagonal included, of rows `0..n`, row by row. */
  function Points(vecs: seq<seq<nat>>, n: nat): seq<(nat, nat, nat)> {
    Grid(Dense(vecs), n, Triangle)
  }

  /** The points are exactly the nonzero tally entries on or below the diagonal of rows `0..n`. */
  lemma PointsMember(vecs: seq<seq<nat>>, n: nat, p: (nat, nat, nat))
    ensures p in Points(vecs, n) <==> p.1 <= p.0 < n && p.2 == Tally(vecs, p.0, p.1) && p.2 != 0
  {
    GridMember(Dense(vecs), n, Triangle, p);
  }

  /** The points come in ascending row-major order. */
  lemma PointsOrdered(vecs: seq<seq<nat>>, n: nat)
    ensures RowMajor(Points(vecs, n))
  {
    GridOrdered(Dense(vecs), n, Triangle);
  }

  // ---------------------------------------------------------------------------
  // from ids back to names

  /** The map and the name list are inverse to each other. */
  lemma IdsInverse(st: Index, xs: seq<string>)
    requires Indexed(st, xs)
    ensures forall s :: s in st.ids ==> st.ids[s] < |st.names| && st.names[st.ids[s]] == s
  {
    forall s | s in st.ids ensures st.ids[s] < |st.names| && st.names[st.ids[s]] == s {
      assert s in xs;
      var k :| 0 <= k < |xs| && xs[k] == s;
      var j :| 0 <= j < |st.names| && st.names[j] == xs[k];
    }
  }

  /** Recipe `i`'s vec holds exactly the ids of the names recipe `i` lists. */
  lemma VecMember(recipes: seq<seq<string>>, i: nat, x: nat)
    requires i < |recipes|
    ensures var st := IndexRecipes(recipes);
      x in st.vecs[i] <==> x < |st.names| && st.names[x] in recipes[i]
  {
    var st := IndexRecipes(recipes);
    IndexRecipesIndexed(recipes);
    IndexRecipesVecs(recipes);
    IdsInverse(st, Flatten(recipes));
    if x < |st.names| && st.names[x] in recipes[i] {
      var k :| 0 <= k < |recipes[i]| && recipes[i][k] == st.names[x];
      assert st.vecs[i][k] == x;
    }
  }

  /** The number of recipes listing both names. */
  function RecipesWithBoth(recipes: seq<seq<string>>, a: string, b: string): nat {
    if |recipes| == 0 then 0
    else
      var last := recipes[|recipes| - 1];
      RecipesWithBoth(recipes[..|recipes| - 1], a, b) + (if a in last && b in last then 1 else 0)
  }

  lemma {:induction false} RecipesWithNames(vecs: seq<seq<nat>>, recipes: seq<seq<string>>, a: string, b: string, x: nat, y: nat)
    requires |vecs| == |recipes|
    requires forall i :: 0 <= i < |vecs| ==> (x in vecs[i] && y in vecs[i] <==> a in recipes[i] && b in recipes[i])
    ensures RecipesWith(vecs, x, y) == RecipesWithBoth(recipes, a, b)
  {
    if |vecs| > 0 {
      var n := |vecs| - 1;
      assert forall i :: 0 <= i < n ==> vecs[..n][i] == vecs[i] && recipes[..n][i] == recipes[i];
      RecipesWithNames(vecs[..n], recipes[..n], a, b, x, y);
    }
  }

  /** The number of occurrences of a name over all recipes. */
  function Occurrences(recipes: seq<seq<string>>, name: string): nat {
    if |recipes| == 0 then 0
    else Occurrences(recipes[..|recipes| - 1], name) + multiset(recipes[|recipes| - 1])[name]
  }

  lemma {:induction false} OccurrencesFlatten(recipes: seq<seq<string>>, name: string)
    ensures multiset(Flatten(recipes))[name] == Occurrences(recipes, name)
  {
    if |recipes| > 0 {
      OccurrencesFlatten(recipes[..|recipes| - 1], name);
    }
  }

  // ---------------------------------------------------------------------------
  // ingredient_map

  /** The five results of `ingredient_map`. */
  datatype IngredientMapping = IngredientMapping(
    ids: map<string, nat>, names: seq<string>, counts: seq<nat>,
    cooccurrence: seq<(nat, nat, nat)>, vecs: seq<seq<nat>>)

  /** `ingredient_map` over the recipes' ingredient names. */
  function IngredientMap(recipes: seq<seq<string>>): (r: IngredientMapping)
    ensures |r.vecs| == |recipes| && |r.counts| == |r.names|
  {
    var st := IndexRecipes(recipes);
    var vecs := Deduped(st.vecs);
    IngredientMapping(st.ids, st.names, st.counts, Points(vecs, |st.names|), vecs)
  }

  /** Ids are contiguous and assigned in first-seen order: the name list is the distinct names
      in order of first occurrence, the map is its inverse, and the map knows exactly the names
      some recipe lists. */
  lemma IngredientMapIds(recipes: seq<seq<string>>)
    ensures var r := IngredientMap(recipes);
      && r.names == FirstSeen(Flatten(recipes))
      && Distinct(r.names)
      && (forall id :: 0 <= id < |r.names| ==> r.names[id] in r.ids && r.ids[r.names[id]] == id)
      && (forall s :: s in r.ids ==> r.ids[s] < |r.names| && r.names[r.ids[s]] == s)
      && (forall s :: s in r.ids <==> exists i :: 0 <= i < |recipes| && s in recipes[i])
  {
    var st := IndexRecipes(recipes);
    IndexRecipesIndexed(recipes);
    IdsInverse(st, Flatten(recipes));
    forall s ensures s in st.ids <==> exists i :: 0 <= i < |recipes| && s in recipes[i] {
      FlattenMember(recipes, s);
    }
  }

  /** Each count is the total number of occurrences of its name across all recipes. */
  lemma IngredientMapCounts(recipes: seq<seq<string>>)
    ensures var r := IngredientMap(recipes);
      forall id :: 0 <= id < |r.counts| ==> r.counts[id] == Occurrences(recipes, r.names[id])
  {
    IndexRecipesIndexed(recipes);
    forall name: string ensures multiset(Flatten(recipes))[name] == Occurrences(recipes, name) {
      OccurrencesFlatten(recipes, name);
    }
  }

  /** Each returned vec is strictly ascending and holds exactly the ids of its recipe's names. */
  lemma IngredientMapVecs(recipes: seq<seq<string>>)
    ensures var r := IngredientMap(recipes);
      forall i :: 0 <= i < |recipes| ==>
        && Increasing(r.vecs[i])
        && forall x: nat :: x in r.vecs[i] <==> x < |r.names| && r.names[x] in recipes[i]
  {
    var st := IndexRecipes(recipes);
    var r := IngredientMap(recipes);
    forall i, x: nat | 0 <= i < |recipes| ensures x in r.vecs[i] <==> x < |r.names| && r.names[x] in recipes[i] {
      VecMember(recipes, i, x);
      assert x in r.vecs[i] <==> x in st.vecs[i];
    }
    assert forall i :: 0 <= i < |recipes| ==> Increasing(r.vecs[i]);
    assert forall i :: 0 <= i < |recipes| ==> forall x: nat :: x in r.vecs[i] <==> x < |r.names| && r.names[x] in recipes[i];
  }

  /** Every co-occurrence point `(x, y, c)` lies strictly below the diagonal, has `c > 0` and
      counts the recipes listing both names; every such pair with a nonzero count is a point;
      and the points come in ascending row-major order. */
  lemma IngredientMapCooccurrence(recipes: seq<seq<string>>)
    ensures var r := IngredientMap(recipes);
      && RowMajor(r.cooccurrence)
      && forall p :: p in r.cooccurrence <==>
           && p.1 < p.0 < |r.names|
           && p.2 > 0
           && p.2 == RecipesWithBoth(recipes, r.names[p.0], r.names[p.1])
  {
    var r := IngredientMap(recipes);
    PointsOrdered(r.vecs, |r.names|);
    forall p: (nat, nat, nat) ensures p in r.cooccurrence <==>
      p.1 < p.0 < |r.names| && p.2 > 0 && p.2 == RecipesWithBoth(recipes, r.names[p.0], r.names[p.1])
    {
      PointsMember(r.vecs, |r.names|, p);
      TallyCountsRecipes(r.vecs, p.0, p.1);
      if p.1 < p.0 < |r.names| {
        IngredientMapVecs(recipes);
        RecipesWithNames(r.vecs, recipes, r.names[p.0], r.names[p.1], p.0, p.1);
      }
    }
  }

  /** `make_coolist`: the points as "x y val" lines joined by newlines. */
  function MakeCoolist(points: seq<(nat, nat, nat)>): string {
    Text.TripleLines(points)
  }

  /** The coolist text reads back as the points, one line per point and no trailing newline. */
  lemma MakeCoolistRoundTrip(points: seq<(nat, nat, nat)>)
    ensures Text.ParseTripleLines(MakeCoolist(points)) == Some(points)
    ensures |points| > 0 ==>
      Text.Split(MakeCoolist(points), '\n') == Text.TripleStrs(points)
  {
    Text.TripleLinesRoundTrip(points);
    if |points| > 0 {
      var lines := Text.TripleStrs(points);
      forall k | 0 <= k < |lines| ensures '\n' !in lines[k] {
        Text.TripleLineRoundTrip(points[k]);
      }
      Text.SplitJoin(lines, '\n');
    }
  }

  // ---------------------------------------------------------------------------
  // init

  /** The recipe-ingredient points: `(recipe, id)` for every id of every recipe vec, in recipe
      order. */
  function Incidence(vecs: seq<seq<nat>>): (r: seq<(nat, nat)>)
    ensures |r| == TotalSize(vecs)
  {
    if |vecs| == 0 then []
    else
      var last := vecs[|vecs| - 1];
      Incidence(vecs[..|vecs| - 1]) + seq(|last|, k requires 0 <= k < |last| => (|vecs| - 1, last[k]))
  }

  lemma {:induction false} IncidenceMember(vecs: seq<seq<nat>>, p: (nat, nat))
    ensures p in Incidence(vecs) <==> p.0 < |vecs| && p.1 in vecs[p.0]
  {
    if |vecs| > 0 {
      IncidenceMember(vecs[..|vecs| - 1], p);
      var last := vecs[|vecs| - 1];
      var row := seq(|last|, k requires 0 <= k < |last| => (|vecs| - 1, last[k]));
      assert p in row <==> p.0 == |vecs| - 1 && p.1 in last by {
        if p.0 == |vecs| - 1 && p.1 in last {
          var k :| 0 <= k < |last| && last[k] == p.1;
          assert row[k] == p;
        }
      }
    }
  }

  /** Over strictly ascending vecs the points are strictly ascending in (recipe, id) order. */
  lemma {:induction false} IncidenceOrdered(vecs: seq<seq<nat>>)
    requires forall i :: 0 <= i < |vecs| ==> Increasing(vecs[i])
    ensures var ps := Incidence(vecs); forall i, j :: 0 <= i < j < |ps| ==> PairBefore(ps[i], ps[j])
  {
    if |vecs| > 0 {
      var init := vecs[..|vecs| - 1];
      IncidenceOrdered(init);
      var a := Incidence(init);
      forall i | 0 <= i < |a| ensures a[i].0 < |vecs| - 1 {
        IncidenceMember(init, a[i]);
      }
    }
  }

  datatype InitError = LengthMismatch

  /** `Table`: the recipe records with the ingredient names, map and counts. */
  datatype IngredientTable<R> = IngredientTable(recipes: seq<R>, names: seq<string>, ids: map<string, nat>, counts: seq<nat>)

  /** The four results of `init`: the recipe vecs, the table, the recipe-ingredient points and
      the co-occurrence points. */
  datatype Tables<R> = Tables(
    recipeVecs: seq<seq<nat>>, table: IngredientTable<R>,
    recipeIngredient: seq<(nat, nat)>, cooccurrence: seq<(nat, nat, nat)>)

  /** `init` over the recipe records and each recipe's ingredient names; the length assertion
      becomes `LengthMismatch`. Its id loop, dedup and tally are those of `ingredient_map`. */
  function Init<R>(recipes: seq<R>, ingredients: seq<seq<string>>): (r: Result<Tables<R>, InitError>)
    ensures r.Err? <==> |recipes| != |ingredients|
    ensures r.Ok? ==> r.value.table.recipes == recipes && |r.value.recipeVecs| == |recipes|
  {
    if |recipes| != |ingredients| then Err(LengthMismatch)
    else
      var m := IngredientMap(ingredients);
      Ok(Tables(m.vecs, IngredientTable(recipes, m.names, m.ids, m.counts), Incidence(m.vecs), m.cooccurrence))
  }

  /** The recipe-ingredient points of the id mapping: one `(recipe, id)` per distinct ingredient
      of each recipe, in recipe order and then ascending id. */
  lemma MappingIncidence(ingredients: seq<seq<string>>)
    ensures var m := IngredientMap(ingredients); var ps := Incidence(m.vecs);
      && (forall i, j :: 0 <= i < j < |ps| ==> PairBefore(ps[i], ps[j]))
      && forall p: (nat, nat) :: p in ps <==> p.0 < |ingredients| && p.1 < |m.names| && m.names[p.1] in ingredients[p.0]
  {
    var m := IngredientMap(ingredients);
    IngredientMapVecs(ingredients);
    IncidenceOrdered(m.vecs);
    forall p: (nat, nat) ensures p in Incidence(m.vecs) <==> p.0 < |ingredients| && p.1 < |m.names| && m.names[p.1] in ingredients[p.0]
    {
      IncidenceMember(m.vecs, p);
    }
  }

  /** `init` emits one recipe-ingredient point per distinct ingredient of each recipe, in recipe
      order and then ascending id. */
  lemma InitIncidence<R>(recipes: seq<R>, ingredients: seq<seq<string>>)
    requires |recipes| == |ingredients|
    ensures var t := Init(recipes, ingredients).value; var ps := t.recipeIngredient;
      && (forall i, j :: 0 <= i < j < |ps| ==> PairBefore(ps[i], ps[j]))
      && forall p: (nat, nat) :: p in ps <==> p.0 < |recipes| && p.1 < |t.table.names| && t.table.names[p.1] in ingredients[p.0]
  {
    MappingIncidence(ingredients);
  }
}
