/** `build_cliques` of `src/expanded.rs`: one instance vertex per recipe-ingredient
    occurrence, a clique on every recipe and on every ingredient, and a boost of the
    edges between instances of target ingredients. */
module Cliques {
  import opened Results
  import opened Seqs
  import opened Expanded

  /** The panics of `build_cliques`: indexing `ingredient_vertices` with an id that is not
      below `num_ingredients`, and the closing `assert!(i < j)`. */
  datatype Failure = IndexOutOfRange | UnorderedKey

  /** Index of recipe `r`'s first instance: the instances of the earlier recipes come first. */
  function BlockStart(recipes: seq<seq<nat>>, r: nat): nat
    requires r <= |recipes|
  {
    TotalSize(recipes[..r])
  }

  lemma BlockStartPrefix(recipes: seq<seq<nat>>, m: nat, q: nat)
    requires q <= m <= |recipes|
    ensures BlockStart(recipes[..m], q) == BlockStart(recipes, q)
  {
    assert recipes[..m][..q] == recipes[..q];
  }

  /** Block `q` ends no later than block `q'` starts. */
  lemma BlocksOrdered(recipes: seq<seq<nat>>, q: nat, q': nat)
    requires q < q' <= |recipes|
    ensures BlockStart(recipes, q) + |recipes[q]| <= BlockStart(recipes, q')
  {
    TotalSizePrefix(recipes, q);
    TotalSizeMonotone(recipes, q + 1, q');
  }

  /** The vertex arena of `build_cliques`: recipe by recipe, one instance per listed
      ingredient, in input order; no hubs. */
  function CliqueVertices(recipes: seq<seq<nat>>): (r: seq<Vertex>)
    ensures |r| == TotalSize(recipes)
    ensures forall j :: 0 <= j < |r| ==> r[j].Instance?
  {
    if |recipes| == 0 then []
    else
      var m := |recipes| - 1;
      CliqueVertices(recipes[..m]) + seq(|recipes[m]|, k requires 0 <= k < |recipes[m]| => Instance(recipes[m][k], m))
  }

  /** The instance of the `k`-th ingredient of recipe `q` sits at `BlockStart(q) + k`. */
  lemma {:induction false} CliqueLayout(recipes: seq<seq<nat>>, q: nat, k: nat)
    requires q < |recipes| && k < |recipes[q]|
    ensures BlockStart(recipes, q) + k < TotalSize(recipes)
    ensures CliqueVertices(recipes)[BlockStart(recipes, q) + k] == Instance(recipes[q][k], q)
  {
    var m := |recipes| - 1;
    var init := CliqueVertices(recipes[..m]);
    if q < m {
      CliqueLayout(recipes[..m], q, k);
      BlockStartPrefix(recipes, m, q);
      assert recipes[..m][q] == recipes[q];
    } else {
      assert recipes[..|recipes|] == recipes;
      assert BlockStart(recipes, q) == |init|;
    }
  }

  /** Each arena index lies in the block of the recipe its instance names. */
  lemma {:induction false} BlockOf(recipes: seq<seq<nat>>, j: nat)
    requires j < TotalSize(recipes)
    ensures var v := CliqueVertices(recipes)[j];
      && v.recipe < |recipes|
      && BlockStart(recipes, v.recipe) <= j < BlockStart(recipes, v.recipe) + |recipes[v.recipe]|
  {
    var m := |recipes| - 1;
    var vs := CliqueVertices(recipes);
    if j >= TotalSize(recipes[..m]) {
      assert recipes[..|recipes|] == recipes;
      CliqueLayout(recipes, m, j - BlockStart(recipes, m));
    } else {
      BlockOf(recipes[..m], j);
      var init := CliqueVertices(recipes[..m]);
      assert vs[j] == init[j];
      var q := init[j].recipe;
      BlockStartPrefix(recipes, m, q);
      assert recipes[..m][q] == recipes[q];
    }
  }

  /** Two arena indices hold instances of the same recipe exactly when they lie in the same block. */
  lemma SameRecipe(recipes: seq<seq<nat>>, a: nat, b: nat)
    requires a < TotalSize(recipes) && b < TotalSize(recipes)
    ensures var vs := CliqueVertices(recipes);
      vs[a].recipe == vs[b].recipe <==>
        exists q :: 0 <= q < |recipes| && BlockStart(recipes, q) <= a < BlockStart(recipes, q) + |recipes[q]|
          && BlockStart(recipes, q) <= b < BlockStart(recipes, q) + |recipes[q]|
  {
    var vs := CliqueVertices(recipes);
    BlockOf(recipes, a);
    BlockOf(recipes, b);
    forall q | 0 <= q < |recipes| && BlockStart(recipes, q) <= a < BlockStart(recipes, q) + |recipes[q]|
      ensures vs[a].recipe == q
    {
      if vs[a].recipe < q {
        BlocksOrdered(recipes, vs[a].recipe, q);
      } else if q < vs[a].recipe {
        BlocksOrdered(recipes, q, vs[a].recipe);
      }
    }
    forall q | 0 <= q < |recipes| && BlockStart(recipes, q) <= b < BlockStart(recipes, q) + |recipes[q]|
      ensures vs[b].recipe == q
    {
      if vs[b].recipe < q {
        BlocksOrdered(recipes, vs[b].recipe, q);
      } else if q < vs[b].recipe {
        BlocksOrdered(recipes, q, vs[b].recipe);
      }
    }
  }

  /** `ingredient_vertices[id]`: the arena indices of the instances of `id`, ascending. */
  function Occurrences(vs: seq<Vertex>, id: nat): (r: seq<nat>)
    ensures Increasing(r)
    ensures forall j :: j in r <==> 0 <= j < |vs| && IngredientId(vs[j]) == Some(id)
  {
    if |vs| == 0 then []
    else
      var m := |vs| - 1;
      var init := Occurrences(vs[..m], id);
      assert forall j :: 0 <= j < m ==> vs[..m][j] == vs[j];
      if IngredientId(vs[m]) == Some(id) then
        assert forall i :: 0 <= i < |init| ==> init[i] in init;
        init + [m]
      else init
  }

  /** The whole `ingredient_vertices` table. */
  function OccurrenceTable(vs: seq<Vertex>, n: nat): (r: seq<seq<nat>>)
    ensures |r| == n
    ensures forall id :: 0 <= id < n ==> r[id] == Occurrences(vs, id)
  {
    seq(n, id requires 0 <= id < n => Occurrences(vs, id))
  }

  /** `map.insert(key, w)` for every key in order. */
  function InsertAll(m: map<Edge, nat>, keys: seq<Edge>, w: nat): (r: map<Edge, nat>)
    ensures r.Keys == m.Keys + set k | k in keys
    ensures forall k :: k in r ==> r[k] == if k in keys then w else m[k]
    decreases |keys|
  {
    if |keys| == 0 then m
    else
      assert forall k :: k in keys <==> k == keys[0] || k in keys[1..];
      InsertAll(m[keys[0] := w], keys[1..], w)
  }

  /** The same-recipe pairs of the blocks `< q`. */
  function RecipePairs(recipes: seq<seq<nat>>, q: nat): seq<Edge>
    requires q <= |recipes|
  {
    if q == 0 then []
    else
      var start := BlockStart(recipes, q - 1);
      RecipePairs(recipes, q - 1) + Combinations(Range(start, start + |recipes[q - 1]|))
  }

  lemma {:induction false} RecipePairsMember(recipes: seq<seq<nat>>, q: nat, p: Edge)
    requires q <= |recipes|
    ensures p in RecipePairs(recipes, q) <==>
      exists r :: 0 <= r < q && BlockStart(recipes, r) <= p.0 < p.1 < BlockStart(recipes, r) + |recipes[r]|
  {
    if q > 0 {
      RecipePairsMember(recipes, q - 1, p);
      var start := BlockStart(recipes, q - 1);
      CombinationsOfRange(start, start + |recipes[q - 1]|, p);
    }
  }

  /** The same-ingredient pairs: the combinations of each `ingredient_vertices[id]`, for ids `< q`. */
  function IngredientPairs(occ: seq<seq<nat>>, q: nat): seq<Edge>
    requires q <= |occ|
  {
    if q == 0 then [] else IngredientPairs(occ, q - 1) + Combinations(occ[q - 1])
  }

  lemma {:induction false} IngredientPairsMember(occ: seq<seq<nat>>, q: nat, p: Edge)
    requires q <= |occ|
    ensures p in IngredientPairs(occ, q) <==>
      exists id, i, j :: 0 <= id < q && 0 <= i < j < |occ[id]| && p == (occ[id][i], occ[id][j])
  {
    if q > 0 {
      IngredientPairsMember(occ, q - 1, p);
      CombinationsMember(occ[q - 1], p);
    }
  }

  /** The edges after the recipe cliques and the ingredient cliques: every key has weight 1. */
  function BaseEdges(recipes: seq<seq<nat>>, occ: seq<seq<nat>>): map<Edge, nat> {
    InsertAll(InsertAll(map[], RecipePairs(recipes, |recipes|), 1), IngredientPairs(occ, |occ|), 1)
  }

  /** `(first, second)` for every first in `xs` and second in `ys`, row by row. */
  function CrossPairs(xs: seq<nat>, ys: seq<nat>): (r: seq<Edge>)
    ensures forall p :: p in r <==> p.0 in xs && p.1 in ys
  {
    if |xs| == 0 then []
    else
      var row := seq(|ys|, k requires 0 <= k < |ys| => (xs[0], ys[k]));
      assert forall p :: p in row <==> p.0 == xs[0] && p.1 in ys by {
        forall p: Edge | p.0 == xs[0] && p.1 in ys ensures p in row {
          var k :| 0 <= k < |ys| && ys[k] == p.1;
          assert row[k] == p;
        }
      }
      assert forall x :: x in xs <==> x == xs[0] || x in xs[1..];
      row + CrossPairs(xs[1..], ys)
  }

  /** The keys the target loop touches, in order. `ingredient_vertices[i]` is indexed for every
      pair; `ingredient_vertices[j]` only once per element of the former. */
  function TargetPairs(occ: seq<seq<nat>>, pairs: seq<(nat, nat)>): (r: Result<seq<Edge>, Failure>)
    ensures r.Ok? <==> forall t :: t in pairs ==> t.0 < |occ| && (|occ[t.0]| > 0 ==> t.1 < |occ|)
    ensures r.Err? ==> r.error == IndexOutOfRange
    ensures r.Ok? ==> forall p :: p in r.value <==>
      exists t :: t in pairs && t.0 < |occ| && t.1 < |occ| && p.0 in occ[t.0] && p.1 in occ[t.1]
  {
    if |pairs| == 0 then Ok([])
    else
      var (i, j) := pairs[0];
      if i >= |occ| then Err(IndexOutOfRange)
      else if |occ[i]| > 0 && j >= |occ| then Err(IndexOutOfRange)
      else
        var rest :- TargetPairs(occ, pairs[1..]);
        assert forall t :: t in pairs <==> t == pairs[0] || t in pairs[1..];
        Ok(CrossPairs(occ[i], if j < |occ| then occ[j] else []) + rest)
  }

  /** `get_mut` and `+= 1`, or `insert(key, 1)`, for every key in order. */
  function Bump(m: map<Edge, nat>, keys: seq<Edge>): (r: map<Edge, nat>)
    ensures r.Keys == m.Keys + set k | k in keys
    ensures forall k :: k in r ==> r[k] == (if k in m then m[k] else 0) + multiset(keys)[k]
    decreases |keys|
  {
    if |keys| == 0 then m
    else
      var k0 := keys[0];
      var m' := m[k0 := if k0 in m then m[k0] + 1 else 1];
      assert keys == [k0] + keys[1..];
      Bump(m', keys[1..])
  }

  /** The edge map of `build_cliques` before the closing assertion: recipe cliques, then
      ingredient cliques, then the target boost. */
  function CliqueEdgeMap(recipes: seq<seq<nat>>, targets: seq<nat>, n: nat): (r: Result<map<Edge, nat>, Failure>)
    ensures r.Err? ==> r.error == IndexOutOfRange
  {
    var occ := OccurrenceTable(CliqueVertices(recipes), n);
    var boosted :- TargetPairs(occ, Combinations(targets));
    Ok(Bump(BaseEdges(recipes, occ), boosted))
  }

  /** `build_cliques`: fails when a recipe names an ingredient not below `n`, when a target
      pair cannot be looked up, or when the closing `i < j` assertion does not hold. */
  function BuildCliques(recipes: seq<seq<nat>>, targets: seq<nat>, n: nat): (r: Result<Relation, Failure>)
    ensures r.Ok? <==> (AllIdsBelow(recipes, n) && CliqueEdgeMap(recipes, targets, n).Ok?
      && forall e :: e in CliqueEdgeMap(recipes, targets, n).value ==> e.0 < e.1)
    ensures r.Ok? ==> r.value == Relation(CliqueVertices(recipes), CliqueEdgeMap(recipes, targets, n).value)
    ensures r == Err(UnorderedKey) <==> (AllIdsBelow(recipes, n) && CliqueEdgeMap(recipes, targets, n).Ok?
      && exists e :: e in CliqueEdgeMap(recipes, targets, n).value && e.0 >= e.1)
  {
    if !AllIdsBelow(recipes, n) then Err(IndexOutOfRange)
    else
      var edges :- CliqueEdgeMap(recipes, targets, n);
      if forall e | e in edges :: e.0 < e.1 then Ok(Relation(CliqueVertices(recipes), edges))
      else Err(UnorderedKey)
  }

  // ---------------------------------------------------------------------------
  // what the clique expansion contains

  /** Two arena entries share a recipe or an ingredient: the recipe and ingredient cliques join them. */
  predicate Linked(vs: seq<Vertex>, a: nat, b: nat)
    requires a < |vs| && b < |vs| && vs[a].Instance? && vs[b].Instance?
  {
    vs[a].recipe == vs[b].recipe || vs[a].ingredient == vs[b].ingredient
  }

  /** Every arena entry is an instance of an ingredient below `n`. */
  predicate InstancesBelow(vs: seq<Vertex>, n: nat) {
    forall j :: 0 <= j < |vs| ==> vs[j].Instance? && vs[j].ingredient < n
  }

  lemma CliqueInstancesBelow(recipes: seq<seq<nat>>, n: nat)
    requires AllIdsBelow(recipes, n)
    ensures InstancesBelow(CliqueVertices(recipes), n)
  {
    var vs := CliqueVertices(recipes);
    forall j | 0 <= j < |vs| ensures vs[j].Instance? && vs[j].ingredient < n {
      BlockOf(recipes, j);
      var q := vs[j].recipe;
      CliqueLayout(recipes, q, j - BlockStart(recipes, q));
    }
  }

  /** `occ[id]` lists, ascending, exactly the arena indices holding an instance of `id`. */
  ghost predicate IndexesOccurrences(vs: seq<Vertex>, occ: seq<seq<nat>>) {
    forall id :: 0 <= id < |occ| ==>
      && Increasing(occ[id])
      && (forall j :: j in occ[id] <==> 0 <= j < |vs| && IngredientId(vs[j]) == Some(id))
  }

  lemma OccurrenceTableIndexes(vs: seq<Vertex>, n: nat)
    ensures IndexesOccurrences(vs, OccurrenceTable(vs, n))
  {
  }

  lemma RecipePairsLinked(recipes: seq<seq<nat>>, e: Edge)
    ensures var vs := CliqueVertices(recipes);
      e in RecipePairs(recipes, |recipes|) <==> e.0 < e.1 < |vs| && vs[e.0].recipe == vs[e.1].recipe
  {
    var vs := CliqueVertices(recipes);
    RecipePairsMember(recipes, |recipes|, e);
    if e.0 < e.1 < |vs| {
      SameRecipe(recipes, e.0, e.1);
    }
    if e in RecipePairs(recipes, |recipes|) {
      var q :| 0 <= q < |recipes| && BlockStart(recipes, q) <= e.0 < e.1 < BlockStart(recipes, q) + |recipes[q]|;
      assert recipes[..|recipes|] == recipes;
      if q + 1 < |recipes| {
        BlocksOrdered(recipes, q, |recipes|);
      } else {
        TotalSizePrefix(recipes, q);
      }
      SameRecipe(recipes, e.0, e.1);
    }
  }

  lemma IngredientPairsLinked(vs: seq<Vertex>, n: nat, occ: seq<seq<nat>>, e: Edge)
    requires InstancesBelow(vs, n)
    requires |occ| == n && IndexesOccurrences(vs, occ)
    ensures e in IngredientPairs(occ, n) <==> e.0 < e.1 < |vs| && vs[e.0].ingredient == vs[e.1].ingredient
  {
    IngredientPairsMember(occ, n, e);
    if e.0 < e.1 < |vs| && vs[e.0].ingredient == vs[e.1].ingredient {
      var id := vs[e.0].ingredient;
      assert e.0 in occ[id] && e.1 in occ[id];
      var i :| 0 <= i < |occ[id]| && occ[id][i] == e.0;
      var j :| 0 <= j < |occ[id]| && occ[id][j] == e.1;
      assert i < j;
    }
    if e in IngredientPairs(occ, n) {
      var id, i, j :| 0 <= id < n && 0 <= i < j < |occ[id]| && e == (occ[id][i], occ[id][j]);
      assert occ[id][i] in occ[id] && occ[id][j] in occ[id];
    }
  }

  /** The recipe and ingredient cliques join exactly the ordered pairs of linked entries. */
  lemma BaseEdgesExact(recipes: seq<seq<nat>>, n: nat, e: Edge)
    requires AllIdsBelow(recipes, n)
    ensures var vs := CliqueVertices(recipes);
      var base := BaseEdges(recipes, OccurrenceTable(vs, n));
      && (e in base <==> e.0 < e.1 < |vs| && Linked(vs, e.0, e.1))
      && (e in base ==> base[e] == 1)
  {
    var vs := CliqueVertices(recipes);
    var occ := OccurrenceTable(vs, n);
    CliqueInstancesBelow(recipes, n);
    OccurrenceTableIndexes(vs, n);
    RecipePairsLinked(recipes, e);
    IngredientPairsLinked(vs, n, occ, e);
  }

  lemma {:induction false} CrossPairsCount(xs: seq<nat>, ys: seq<nat>, p: Edge)
    requires Distinct(xs) && Distinct(ys)
    ensures multiset(CrossPairs(xs, ys))[p] == if p.0 in xs && p.1 in ys then 1 else 0
  {
    if |xs| > 0 {
      var row := seq(|ys|, k requires 0 <= k < |ys| => (xs[0], ys[k]));
      assert CrossPairs(xs, ys) == row + CrossPairs(xs[1..], ys);
      assert Distinct(xs[1..]);
      CrossPairsCount(xs[1..], ys, p);
      assert Distinct(row);
      DistinctCount(row, p);
      if p in row {
        var k :| 0 <= k < |ys| && row[k] == p;
        assert p.0 == xs[0] && p.1 == ys[k];
      }
      if p.0 == xs[0] && p.1 in ys {
        var k :| 0 <= k < |ys| && ys[k] == p.1;
        assert row[k] == p;
      }
      assert xs[0] !in xs[1..];
      assert forall x :: x in xs <==> x == xs[0] || x in xs[1..];
    }
  }

  lemma IncreasingDistinct(s: seq<nat>)
    requires Increasing(s)
    ensures Distinct(s)
  {
  }

  lemma MultisetHead<T>(s: seq<T>, x: T)
    requires |s| > 0
    ensures multiset(s)[x] == (if s[0] == x then 1 else 0) + multiset(s[1..])[x]
  {
    assert s == [s[0]] + s[1..];
  }

  lemma TargetPairsHead(occ: seq<seq<nat>>, pairs: seq<(nat, nat)>)
    requires |pairs| > 0 && TargetPairs(occ, pairs).Ok?
    ensures pairs[0].0 < |occ| && TargetPairs(occ, pairs[1..]).Ok?
    ensures TargetPairs(occ, pairs).value
      == CrossPairs(occ[pairs[0].0], if pairs[0].1 < |occ| then occ[pairs[0].1] else []) + TargetPairs(occ, pairs[1..]).value
  {
  }

  /** The target loop touches the key `(a, b)` once for every target pair that names the
      ingredients of `a` and `b`, in that order. */
  lemma {:induction false} TargetPairsCount(vs: seq<Vertex>, n: nat, occ: seq<seq<nat>>, pairs: seq<(nat, nat)>, e: Edge)
    requires InstancesBelow(vs, n)
    requires |occ| == n && IndexesOccurrences(vs, occ)
    requires TargetPairs(occ, pairs).Ok?
    requires e.0 < |vs| && e.1 < |vs|
    ensures multiset(TargetPairs(occ, pairs).value)[e] == multiset(pairs)[(vs[e.0].ingredient, vs[e.1].ingredient)]
  {
    var t := (vs[e.0].ingredient, vs[e.1].ingredient);
    if |pairs| > 0 {
      var i := pairs[0].0;
      var j := pairs[0].1;
      var ys := if j < |occ| then occ[j] else [];
      TargetPairsHead(occ, pairs);
      TargetPairsCount(vs, n, occ, pairs[1..], e);
      IncreasingDistinct(occ[i]);
      if j < |occ| {
        IncreasingDistinct(occ[j]);
      }
      CrossPairsCount(occ[i], ys, e);
      MultisetHead(pairs, t);
      assert (e.0 in occ[i] && e.1 in ys) <==> pairs[0] == t;
      assert multiset(TargetPairs(occ, pairs).value)[e]
        == multiset(CrossPairs(occ[i], ys))[e] + multiset(TargetPairs(occ, pairs[1..]).value)[e];
    }
  }

  lemma {:induction false} TargetPairsInArena(vs: seq<Vertex>, occ: seq<seq<nat>>, pairs: seq<(nat, nat)>, e: Edge)
    requires IndexesOccurrences(vs, occ)
    requires TargetPairs(occ, pairs).Ok? && e in TargetPairs(occ, pairs).value
    ensures e.0 < |vs| && e.1 < |vs|
  {
    TargetPairsHead(occ, pairs);
    var i := pairs[0].0;
    var ys := if pairs[0].1 < |occ| then occ[pairs[0].1] else [];
    if e in CrossPairs(occ[i], ys) {
      assert e.0 in occ[i] && e.1 in ys;
    } else {
      TargetPairsInArena(vs, occ, pairs[1..], e);
    }
  }

  /** The as-written `build_cliques`, when it returns: an edge between every two linked
      entries, an extra unit of weight for every target pair naming the two entries'
      ingredients in order, and nothing else. */
  lemma CliqueEdges(recipes: seq<seq<nat>>, targets: seq<nat>, n: nat, e: Edge)
    requires BuildCliques(recipes, targets, n).Ok?
    ensures var rel := BuildCliques(recipes, targets, n).value;
      var vs := rel.vertices;
      && (e in rel.edges ==> e.0 < e.1 < |vs|)
      && (e.0 < e.1 < |vs| ==>
            var boost := multiset(Combinations(targets))[(vs[e.0].ingredient, vs[e.1].ingredient)];
            && (e in rel.edges <==> Linked(vs, e.0, e.1) || boost > 0)
            && (e in rel.edges ==> rel.edges[e] == (if Linked(vs, e.0, e.1) then 1 else 0) + boost))
  {
    var vs := CliqueVertices(recipes);
    var occ := OccurrenceTable(vs, n);
    var edges := CliqueEdgeMap(recipes, targets, n).value;
    var base := BaseEdges(recipes, occ);
    var boosted := TargetPairs(occ, Combinations(targets)).value;
    CliqueInstancesBelow(recipes, n);
    OccurrenceTableIndexes(vs, n);
    BaseEdgesExact(recipes, n, e);
    if e in edges {
      assert e.0 < e.1;
      if e in boosted {
        TargetPairsInArena(vs, occ, Combinations(targets), e);
      }
    }
    if e.0 < |vs| && e.1 < |vs| {
      TargetPairsCount(vs, n, occ, Combinations(targets), e);
      assert multiset(boosted)[e] > 0 <==> e in boosted;
    }
  }

  lemma ExampleIdsBelow()
    ensures AllIdsBelow([[1, 0]], 2)
  {
    var recipes: seq<seq<nat>> := [[1, 0]];
    forall r, k | 0 <= r < |recipes| && 0 <= k < |recipes[r]| ensures recipes[r][k] < 2 {
      assert r == 0;
    }
  }

  lemma ExampleVertices()
    ensures CliqueVertices([[1, 0]]) == [Instance(1, 0), Instance(0, 0)]
  {
    var recipes: seq<seq<nat>> := [[1, 0]];
    assert recipes[..0] == [];
  }

  lemma ExampleOccurrences()
    ensures OccurrenceTable([Instance(1, 0), Instance(0, 0)], 2) == [[1], [0]]
  {
    var vs := [Instance(1, 0), Instance(0, 0)];
    assert vs[..1] == [Instance(1, 0)] && vs[..1][..0] == [];
    assert Occurrences([Instance(1, 0)], 0) == [];
    assert Occurrences([Instance(1, 0)], 1) == [0];
    assert Occurrences(vs, 0) == [1];
    assert Occurrences(vs, 1) == [0];
  }

  lemma ExampleCombinations()
    ensures Combinations<nat>([0, 1]) == [(0, 1)]
  {
    var targets: seq<nat> := [0, 1];
    assert targets[1..] == [1] && targets[1..][1..] == [];
  }

  lemma ExampleCross()
    ensures CrossPairs([1], [0]) == [(1, 0)]
  {
    var xs: seq<nat> := [1];
    assert xs[1..] == [];
  }

  lemma ExampleTargets()
    ensures TargetPairs([[1], [0]], Combinations<nat>([0, 1])) == Ok([(1, 0)])
  {
    ExampleCombinations();
    ExampleCross();
    var occ: seq<seq<nat>> := [[1], [0]];
    var pairs: seq<(nat, nat)> := [(0, 1)];
    assert pairs[1..] == [];
    assert TargetPairs(occ, pairs).Ok?;
    TargetPairsHead(occ, pairs);
    assert TargetPairs(occ, pairs).value == [(1, 0)];
  }

  /** Recipe `[1, 0]` with targets `[0, 1]`: the target loop inserts the key `(1, 0)` and the
      closing assertion fails. */
  lemma UnorderedKeyExample()
    ensures BuildCliques([[1, 0]], [0, 1], 2) == Err(UnorderedKey)
  {
    ExampleVertices();
    ExampleOccurrences();
    ExampleTargets();
    ExampleIdsBelow();
    var edges := Bump(BaseEdges([[1, 0]], [[1], [0]]), [(1, 0)]);
    assert (1, 0) in edges;
    assert CliqueEdgeMap([[1, 0]], [0, 1], 2) == Ok(edges);
  }

  // ---------------------------------------------------------------------------
  // corrected target step

  /** Each touched pair written as `(min, max)`; a vertex paired with itself is dropped. */
  function Canonical(keys: seq<Edge>): (r: seq<Edge>)
    ensures forall e :: e in r ==> e.0 < e.1
  {
    if |keys| == 0 then []
    else
      var (a, b) := keys[0];
      var head := if a < b then [(a, b)] else if b < a then [(b, a)] else [];
      head + Canonical(keys[1..])
  }

  lemma {:induction false} CanonicalCount(keys: seq<Edge>, e: Edge)
    requires e.0 < e.1
    ensures multiset(Canonical(keys))[e] == multiset(keys)[e] + multiset(keys)[(e.1, e.0)]
  {
    if |keys| > 0 {
      CanonicalCount(keys[1..], e);
      MultisetHead(keys, e);
      MultisetHead(keys, (e.1, e.0));
    }
  }

  /** The edge map with the target step keyed canonically. */
  function CanonicalEdgeMap(recipes: seq<seq<nat>>, targets: seq<nat>, n: nat): (r: Result<map<Edge, nat>, Failure>)
    ensures r.Err? ==> r.error == IndexOutOfRange
  {
    var occ := OccurrenceTable(CliqueVertices(recipes), n);
    var boosted :- TargetPairs(occ, Combinations(targets));
    Ok(Bump(BaseEdges(recipes, occ), Canonical(boosted)))
  }

  /** `build_cliques` with canonical target keys: the `i < j` assertion can no longer fail. */
  function BuildCliquesCanonical(recipes: seq<seq<nat>>, targets: seq<nat>, n: nat): (r: Result<Relation, Failure>)
    ensures r.Ok? <==> AllIdsBelow(recipes, n) && CanonicalEdgeMap(recipes, targets, n).Ok?
    ensures r.Err? ==> r.error == IndexOutOfRange
    ensures r.Ok? ==> r.value == Relation(CliqueVertices(recipes), CanonicalEdgeMap(recipes, targets, n).value)
  {
    if !AllIdsBelow(recipes, n) then Err(IndexOutOfRange)
    else
      var edges :- CanonicalEdgeMap(recipes, targets, n);
      Ok(Relation(CliqueVertices(recipes), edges))
  }

  /** The corrected expansion: ordered keys inside the arena, an edge between every two linked
      entries, and one extra unit of weight per target pair naming the two entries'
      ingredients in either order. */
  lemma CanonicalCliqueEdges(recipes: seq<seq<nat>>, targets: seq<nat>, n: nat, e: Edge)
    requires BuildCliquesCanonical(recipes, targets, n).Ok?
    ensures var rel := BuildCliquesCanonical(recipes, targets, n).value;
      var vs := rel.vertices;
      && (e in rel.edges ==> e.0 < e.1 < |vs|)
      && (e.0 < e.1 < |vs| ==>
            var combos := multiset(Combinations(targets));
            var boost := combos[(vs[e.0].ingredient, vs[e.1].ingredient)] + combos[(vs[e.1].ingredient, vs[e.0].ingredient)];
            && (e in rel.edges <==> Linked(vs, e.0, e.1) || boost > 0)
            && (e in rel.edges ==> rel.edges[e] == (if Linked(vs, e.0, e.1) then 1 else 0) + boost))
  {
    var vs := CliqueVertices(recipes);
    var occ := OccurrenceTable(vs, n);
    var edges := CanonicalEdgeMap(recipes, targets, n).value;
    var boosted := TargetPairs(occ, Combinations(targets)).value;
    CliqueInstancesBelow(recipes, n);
    OccurrenceTableIndexes(vs, n);
    BaseEdgesExact(recipes, n, e);
    if e in edges && e in Canonical(boosted) {
      assert e.0 < e.1;
      CanonicalCount(boosted, e);
      assert multiset(Canonical(boosted))[e] > 0;
      if e in boosted {
        TargetPairsInArena(vs, occ, Combinations(targets), e);
      } else {
        assert (e.1, e.0) in multiset(boosted);
        TargetPairsInArena(vs, occ, Combinations(targets), (e.1, e.0));
      }
    }
    if e.0 < e.1 < |vs| {
      TargetPairsCount(vs, n, occ, Combinations(targets), e);
      TargetPairsCount(vs, n, occ, Combinations(targets), (e.1, e.0));
      CanonicalCount(boosted, e);
      assert multiset(Canonical(boosted))[e] > 0 <==> e in Canonical(boosted);
    }
  }

  /** The corrected expansion succeeds on the input that breaks the as-written one. */
  lemma CanonicalExample()
    ensures BuildCliquesCanonical([[1, 0]], [0, 1], 2).Ok?
  {
    ExampleVertices();
    ExampleOccurrences();
    ExampleTargets();
    ExampleIdsBelow();
  }
}
