/** The expanded ingredient relation of `src/expanded.rs`: a vertex arena of
    ingredient hubs, recipe hubs and ingredient instances, plus an edge map keyed
    by vertex-index pairs. Built either as overlapping stars or as cliques. */
module Expanded {
  import opened Results
  import opened Seqs
  import Text

  /** `ExpandedVertex`. `Instance` is the source's `Vertex((ingredient, recipe))`. */
  datatype Vertex =
    | IngredientHub(ingredient: nat)
    | RecipeHub(recipe: nat)
    | Instance(ingredient: nat, recipe: nat)

  /** `get_ingredient_id`: present for ingredient hubs and instances. */
  function IngredientId(v: Vertex): (r: Option<nat>)
    ensures r.Some? <==> !v.RecipeHub?
    ensures r.Some? ==> r.value == v.ingredient
  {
    match v
    case IngredientHub(id) => Some(id)
    case Instance(id, _) => Some(id)
    case RecipeHub(_) => None
  }

  /** `get_recipe_id`: present for recipe hubs and instances. */
  function RecipeId(v: Vertex): (r: Option<nat>)
    ensures r.Some? <==> !v.IngredientHub?
    ensures r.Some? ==> r.value == v.recipe
  {
    match v
    case IngredientHub(_) => None
    case Instance(_, id) => Some(id)
    case RecipeHub(id) => Some(id)
  }

  /** Only instance vertices carry both an ingredient and a recipe id. */
  lemma BothIdsExactlyForInstances(v: Vertex)
    ensures IngredientId(v).Some? && RecipeId(v).Some? <==> v.Instance?
  {
  }

  /** An edge key `(i, j)`: indices into the vertex arena. */
  type Edge = (nat, nat)

  /** `ExpandedIngredientRelation`. */
  datatype Relation = Relation(vertices: seq<Vertex>, edges: map<Edge, nat>)

  function NumberOfVertices(rel: Relation): nat {
    |rel.vertices|
  }

  function NumberOfEdges(rel: Relation): nat {
    |rel.edges|
  }

  predicate AllIdsBelow(recipes: seq<seq<nat>>, n: nat) {
    forall r, k :: 0 <= r < |recipes| && 0 <= k < |recipes[r]| ==> recipes[r][k] < n
  }

  // ---------------------------------------------------------------------------
  // star expansion

  /** Index of recipe `r`'s hub in the star layout: after the `n` ingredient hubs,
      the `r` earlier recipe hubs and the instances of the earlier recipes. */
  function HubIndex(recipes: seq<seq<nat>>, n: nat, r: nat): nat
    requires r <= |recipes|
  {
    n + r + TotalSize(recipes[..r])
  }

  /** Index of the instance of `recipes[r][k]`, right after recipe `r`'s hub. */
  function InstanceIndex(recipes: seq<seq<nat>>, n: nat, r: nat, k: nat): nat
    requires r < |recipes|
  {
    HubIndex(recipes, n, r) + 1 + k
  }

  lemma HubIndexNext(recipes: seq<seq<nat>>, n: nat, r: nat)
    requires r < |recipes|
    ensures HubIndex(recipes, n, r + 1) == InstanceIndex(recipes, n, r, |recipes[r]|)
  {
    TotalSizePrefix(recipes, r);
  }

  /** Instance `(q, kk)` was pushed before instance `(r, k)`. */
  predicate Before(q: nat, kk: nat, r: nat, k: nat) {
    q < r || (q == r && kk < k)
  }

  /** Edge `e` joins an instance vertex to its ingredient hub or to its recipe's hub, with weight 1. */
  ghost predicate SoundEdge(recipes: seq<seq<nat>>, n: nat, vs: seq<Vertex>, edges: map<Edge, nat>, e: Edge)
    requires e in edges
  {
    && edges[e] == 1
    && e.1 < |vs|
    && vs[e.1].Instance?
    && vs[e.1].recipe < |recipes|
    && (e.0 == vs[e.1].ingredient || e.0 == HubIndex(recipes, n, vs[e.1].recipe))
  }

  ghost predicate EdgesSound(recipes: seq<seq<nat>>, n: nat, vs: seq<Vertex>, edges: map<Edge, nat>) {
    forall e | e in edges :: SoundEdge(recipes, n, vs, edges, e)
  }

  /** Both star edges of every instance pushed before `(r, k)` are present. */
  ghost predicate EdgesCompleteBefore(recipes: seq<seq<nat>>, n: nat, r: nat, k: nat, edges: map<Edge, nat>) {
    forall q, kk | 0 <= q < |recipes| && 0 <= kk < |recipes[q]| && Before(q, kk, r, k) ::
      && (recipes[q][kk], InstanceIndex(recipes, n, q, kk)) in edges
      && (HubIndex(recipes, n, q), InstanceIndex(recipes, n, q, kk)) in edges
  }

  /** Each instance vertex follows its recipe's hub and names an ingredient of that recipe. */
  ghost predicate InstancesWellPlaced(recipes: seq<seq<nat>>, n: nat, vs: seq<Vertex>) {
    forall j | 0 <= j < |vs| && vs[j].Instance? ::
      && vs[j].recipe < |recipes|
      && HubIndex(recipes, n, vs[j].recipe) < j
      && vs[j].ingredient in recipes[vs[j].recipe]
  }

  /** The arena and edges of `build_stars` once the hubs of recipes `< hubs` and the
      instances before `(r, k)` are in place. */
  ghost predicate StarPrefix(recipes: seq<seq<nat>>, n: nat, hubs: nat, r: nat, k: nat, vs: seq<Vertex>, edges: map<Edge, nat>)
    requires hubs <= |recipes|
  {
    && (forall i | 0 <= i < n :: i < |vs| && vs[i] == IngredientHub(i))
    && (forall q | 0 <= q < hubs :: HubIndex(recipes, n, q) < |vs| && vs[HubIndex(recipes, n, q)] == RecipeHub(q))
    && (forall q, kk | 0 <= q < |recipes| && 0 <= kk < |recipes[q]| && Before(q, kk, r, k) ::
          InstanceIndex(recipes, n, q, kk) < |vs| && vs[InstanceIndex(recipes, n, q, kk)] == Instance(recipes[q][kk], q))
    && InstancesWellPlaced(recipes, n, vs)
    && EdgesSound(recipes, n, vs, edges)
    && EdgesCompleteBefore(recipes, n, r, k, edges)
  }

  /** The result of `build_stars`: ingredient hubs `0..n`, then per recipe its hub followed
      by one instance per listed ingredient, each instance joined by weight-1 edges to its
      ingredient hub and to its recipe hub, and no other edge. */
  ghost predicate IsStarExpansion(recipes: seq<seq<nat>>, n: nat, rel: Relation) {
    && |rel.vertices| == n + |recipes| + TotalSize(recipes)
    && StarPrefix(recipes, n, |recipes|, |recipes|, 0, rel.vertices, rel.edges)
    && (AllIdsBelow(recipes, n) ==> |rel.edges| == 2 * TotalSize(recipes))
  }

  lemma StarPushHub(recipes: seq<seq<nat>>, n: nat, r: nat, vs: seq<Vertex>, edges: map<Edge, nat>)
    requires r < |recipes|
    requires |vs| == HubIndex(recipes, n, r)
    requires StarPrefix(recipes, n, r, r, 0, vs, edges)
    ensures StarPrefix(recipes, n, r + 1, r, 0, vs + [RecipeHub(r)], edges)
  {
    var vs' := vs + [RecipeHub(r)];
    forall q | 0 <= q < r + 1
      ensures HubIndex(recipes, n, q) < |vs'| && vs'[HubIndex(recipes, n, q)] == RecipeHub(q)
    {
      if q < r {
        TotalSizeMonotone(recipes, q, r);
      }
    }
  }

  lemma StarPushInstance(recipes: seq<seq<nat>>, n: nat, r: nat, k: nat, vs: seq<Vertex>, edges: map<Edge, nat>)
    requires r < |recipes| && k < |recipes[r]|
    requires |vs| == InstanceIndex(recipes, n, r, k)
    requires StarPrefix(recipes, n, r + 1, r, k, vs, edges)
    ensures var j := |vs|;
      StarPrefix(recipes, n, r + 1, r, k + 1, vs + [Instance(recipes[r][k], r)],
        edges[(recipes[r][k], j) := 1][(HubIndex(recipes, n, r), j) := 1])
  {
    var j := |vs|;
    var vs' := vs + [Instance(recipes[r][k], r)];
    var edges' := edges[(recipes[r][k], j) := 1][(HubIndex(recipes, n, r), j) := 1];
    assert recipes[r][k] in recipes[r];
    assert InstancesWellPlaced(recipes, n, vs');
    forall e | e in edges' ensures SoundEdge(recipes, n, vs', edges', e) {
      if e in edges {
        assert SoundEdge(recipes, n, vs, edges, e);
      }
    }
    forall q, kk | 0 <= q < |recipes| && 0 <= kk < |recipes[q]| && Before(q, kk, r, k + 1)
      ensures InstanceIndex(recipes, n, q, kk) < |vs'| && vs'[InstanceIndex(recipes, n, q, kk)] == Instance(recipes[q][kk], q)
      ensures (recipes[q][kk], InstanceIndex(recipes, n, q, kk)) in edges'
      ensures (HubIndex(recipes, n, q), InstanceIndex(recipes, n, q, kk)) in edges'
    {
      if !Before(q, kk, r, k) {
        assert q == r && kk == k;
      }
    }
  }

  lemma StarFinishRecipe(recipes: seq<seq<nat>>, n: nat, r: nat, vs: seq<Vertex>, edges: map<Edge, nat>)
    requires r < |recipes|
    requires StarPrefix(recipes, n, r + 1, r, |recipes[r]|, vs, edges)
    ensures StarPrefix(recipes, n, r + 1, r + 1, 0, vs, edges)
  {
    forall q, kk | 0 <= q < |recipes| && 0 <= kk < |recipes[q]| && Before(q, kk, r + 1, 0)
      ensures InstanceIndex(recipes, n, q, kk) < |vs| && vs[InstanceIndex(recipes, n, q, kk)] == Instance(recipes[q][kk], q)
      ensures (recipes[q][kk], InstanceIndex(recipes, n, q, kk)) in edges
      ensures (HubIndex(recipes, n, q), InstanceIndex(recipes, n, q, kk)) in edges
    {
      assert Before(q, kk, r, |recipes[r]|);
    }
    assert EdgesCompleteBefore(recipes, n, r + 1, 0, edges);
  }

  lemma StarEdgeCount(edges: map<Edge, nat>, a: Edge, b: Edge)
    requires a !in edges && b !in edges && a != b
    ensures |edges[a := 1][b := 1]| == |edges| + 2
  {
  }

  /** One iteration of `build_stars`'s outer loop: push recipe `r`'s hub, then one instance
      per ingredient with its two edges; `counter` stays equal to the arena length. */
  method AddRecipe(recipes: seq<seq<nat>>, n: nat, r: nat, vertices: seq<Vertex>, edges: map<Edge, nat>, counter: nat)
    returns (vertices': seq<Vertex>, edges': map<Edge, nat>, counter': nat)
    requires r < |recipes|
    requires counter == |vertices| == HubIndex(recipes, n, r)
    requires StarPrefix(recipes, n, r, r, 0, vertices, edges)
    requires AllIdsBelow(recipes, n) ==> |edges| == 2 * TotalSize(recipes[..r])
    ensures counter' == |vertices'| == HubIndex(recipes, n, r + 1)
    ensures StarPrefix(recipes, n, r + 1, r + 1, 0, vertices', edges')
    ensures AllIdsBelow(recipes, n) ==> |edges'| == 2 * TotalSize(recipes[..r + 1])
  {
    StarPushHub(recipes, n, r, vertices, edges);
    vertices' := vertices + [RecipeHub(r)];
    edges' := edges;
    var recipeIndex := counter;
    counter' := counter + 1;
    var k := 0;
    while k < |recipes[r]|
      invariant k <= |recipes[r]|
      invariant recipeIndex == HubIndex(recipes, n, r)
      invariant counter' == |vertices'| == InstanceIndex(recipes, n, r, k)
      invariant StarPrefix(recipes, n, r + 1, r, k, vertices', edges')
      invariant AllIdsBelow(recipes, n) ==> |edges'| == 2 * (TotalSize(recipes[..r]) + k)
    {
      var ingredientId := recipes[r][k];
      StarPushInstance(recipes, n, r, k, vertices', edges');
      if AllIdsBelow(recipes, n) {
        assert EdgesSound(recipes, n, vertices', edges');
        assert forall e | e in edges' :: e.1 < counter';
        StarEdgeCount(edges', (ingredientId, counter'), (recipeIndex, counter'));
      }
      vertices' := vertices' + [Instance(ingredientId, r)];
      edges' := edges'[(ingredientId, counter') := 1];
      edges' := edges'[(recipeIndex, counter') := 1];
      counter' := counter' + 1;
      k := k + 1;
    }
    StarFinishRecipe(recipes, n, r, vertices', edges');
    HubIndexNext(recipes, n, r);
    TotalSizePrefix(recipes, r);
  }

  /** `build_stars`. The edge to the ingredient hub is keyed `(ingredient_id, counter)` even when
      the id is not below `n`; nothing is checked. */
  method BuildStars(recipes: seq<seq<nat>>, n: nat) returns (rel: Relation)
    ensures IsStarExpansion(recipes, n, rel)
  {
    var vertices := seq(n, id requires 0 <= id < n => IngredientHub(id));
    var edges: map<Edge, nat> := map[];
    var counter := n;
    var r := 0;
    while r < |recipes|
      invariant r <= |recipes|
      invariant counter == |vertices| == HubIndex(recipes, n, r)
      invariant StarPrefix(recipes, n, r, r, 0, vertices, edges)
      invariant AllIdsBelow(recipes, n) ==> |edges| == 2 * TotalSize(recipes[..r])
    {
      vertices, edges, counter := AddRecipe(recipes, n, r, vertices, edges, counter);
      r := r + 1;
    }
    assert recipes[..r] == recipes;
    rel := Relation(vertices, edges);
  }

  /** What a star expansion says about the arena and the edge weights. */
  lemma StarLayout(recipes: seq<seq<nat>>, n: nat, rel: Relation)
    requires IsStarExpansion(recipes, n, rel)
    ensures NumberOfVertices(rel) == n + |recipes| + TotalSize(recipes)
    ensures forall i :: 0 <= i < n ==> rel.vertices[i] == IngredientHub(i)
    ensures forall r :: 0 <= r < |recipes| ==> rel.vertices[HubIndex(recipes, n, r)] == RecipeHub(r)
    ensures forall r, k :: 0 <= r < |recipes| && 0 <= k < |recipes[r]| ==>
      rel.vertices[InstanceIndex(recipes, n, r, k)] == Instance(recipes[r][k], r)
    ensures forall e :: e in rel.edges ==> rel.edges[e] == 1
  {
    assert EdgesSound(recipes, n, rel.vertices, rel.edges);
    forall e | e in rel.edges ensures rel.edges[e] == 1 {
      assert SoundEdge(recipes, n, rel.vertices, rel.edges, e);
    }
    forall r, k | 0 <= r < |recipes| && 0 <= k < |recipes[r]|
      ensures rel.vertices[InstanceIndex(recipes, n, r, k)] == Instance(recipes[r][k], r)
    {
      assert Before(r, k, |recipes|, 0);
    }
  }

  /** With every ingredient id below `n`, every star edge key is ordered `i < j` and names
      two vertices of the arena, so the adjacency matrix is well formed. */
  lemma StarKeysOrdered(recipes: seq<seq<nat>>, n: nat, rel: Relation)
    requires IsStarExpansion(recipes, n, rel)
    requires AllIdsBelow(recipes, n)
    ensures forall e :: e in rel.edges ==> e.0 < e.1 < NumberOfVertices(rel)
  {
    forall e | e in rel.edges ensures e.0 < e.1 < NumberOfVertices(rel) {
      assert SoundEdge(recipes, n, rel.vertices, rel.edges, e);
      var v := rel.vertices[e.1];
      if e.0 == v.ingredient {
        var k :| 0 <= k < |recipes[v.recipe]| && recipes[v.recipe][k] == v.ingredient;
        assert v.ingredient < n;
      }
    }
  }

  /** Every instance has both of its star edges: to its ingredient hub and to its recipe's hub. */
  lemma StarInstanceEdges(recipes: seq<seq<nat>>, n: nat, rel: Relation, r: nat, k: nat)
    requires IsStarExpansion(recipes, n, rel)
    requires r < |recipes| && k < |recipes[r]|
    ensures (recipes[r][k], InstanceIndex(recipes, n, r, k)) in rel.edges
    ensures (HubIndex(recipes, n, r), InstanceIndex(recipes, n, r, k)) in rel.edges
  {
  }

  // ---------------------------------------------------------------------------
  // a worked star expansion

  /** Two recipes over three ingredients: `{0, 1}` and `{0, 1, 2}`. */
  function ExampleRecipes(): seq<seq<nat>> {
    [[0, 1], [0, 1, 2]]
  }

  /** The three ingredient hubs, then recipe 0's hub at 3 with its two instances,
      then recipe 1's hub at 6 with its three. */
  function ExampleArena(): seq<Vertex> {
    [IngredientHub(0), IngredientHub(1), IngredientHub(2),
     RecipeHub(0), Instance(0, 0), Instance(1, 0),
     RecipeHub(1), Instance(0, 1), Instance(1, 1), Instance(2, 1)]
  }

  /** Each of the five instances joined to its ingredient hub and to its recipe hub. */
  function ExampleEdges(): map<Edge, nat> {
    map[(0, 4) := 1, (3, 4) := 1, (1, 5) := 1, (3, 5) := 1,
        (0, 7) := 1, (6, 7) := 1, (1, 8) := 1, (6, 8) := 1, (2, 9) := 1, (6, 9) := 1]
  }

  lemma ExampleHubs()
    ensures HubIndex(ExampleRecipes(), 3, 0) == 3
    ensures HubIndex(ExampleRecipes(), 3, 1) == 6
    ensures TotalSize(ExampleRecipes()) == 5
  {
    var recipes := ExampleRecipes();
    assert recipes[..0] == [];
    assert recipes[..1] == [[0, 1]];
    assert [[0, 1]][..0] == [];
    assert recipes[..|recipes| - 1] == [[0, 1]];
  }

  /** The vertex pushed for each occurrence, one occurrence at a time. */
  lemma StarVertexAt(recipes: seq<seq<nat>>, n: nat, rel: Relation, r: nat, k: nat)
    requires IsStarExpansion(recipes, n, rel)
    requires r < |recipes| && k < |recipes[r]|
    ensures InstanceIndex(recipes, n, r, k) < |rel.vertices|
    ensures rel.vertices[InstanceIndex(recipes, n, r, k)] == Instance(recipes[r][k], r)
  {
    assert Before(r, k, |recipes|, 0);
  }

  lemma ExampleArenaPoints(vs: seq<Vertex>)
    requires |vs| == 10
    requires vs[0] == IngredientHub(0) && vs[1] == IngredientHub(1) && vs[2] == IngredientHub(2)
    requires vs[3] == RecipeHub(0) && vs[4] == Instance(0, 0) && vs[5] == Instance(1, 0)
    requires vs[6] == RecipeHub(1) && vs[7] == Instance(0, 1) && vs[8] == Instance(1, 1) && vs[9] == Instance(2, 1)
    ensures vs == ExampleArena()
  {
    assert vs == [vs[0], vs[1], vs[2], vs[3], vs[4], vs[5], vs[6], vs[7], vs[8], vs[9]];
  }

  lemma ExampleStarArena(rel: Relation)
    requires IsStarExpansion(ExampleRecipes(), 3, rel)
    ensures rel.vertices == ExampleArena()
  {
    var recipes := ExampleRecipes();
    ExampleHubs();
    assert StarPrefix(recipes, 3, 2, 2, 0, rel.vertices, rel.edges);
    assert rel.vertices[0] == IngredientHub(0) && rel.vertices[1] == IngredientHub(1) && rel.vertices[2] == IngredientHub(2);
    assert rel.vertices[HubIndex(recipes, 3, 0)] == RecipeHub(0);
    assert rel.vertices[HubIndex(recipes, 3, 1)] == RecipeHub(1);
    StarVertexAt(recipes, 3, rel, 0, 0);
    StarVertexAt(recipes, 3, rel, 0, 1);
    StarVertexAt(recipes, 3, rel, 1, 0);
    StarVertexAt(recipes, 3, rel, 1, 1);
    StarVertexAt(recipes, 3, rel, 1, 2);
    ExampleArenaPoints(rel.vertices);
  }

  lemma ExampleEdgePoints(keys: set<Edge>)
    requires (0, 4) in keys && (3, 4) in keys && (1, 5) in keys && (3, 5) in keys && (0, 7) in keys
    requires (6, 7) in keys && (1, 8) in keys && (6, 8) in keys && (2, 9) in keys && (6, 9) in keys
    ensures ExampleEdges().Keys <= keys
  {
  }

  lemma ExampleStarComplete(rel: Relation)
    requires IsStarExpansion(ExampleRecipes(), 3, rel)
    ensures ExampleEdges().Keys <= rel.edges.Keys
  {
    var recipes := ExampleRecipes();
    ExampleHubs();
    StarInstanceEdges(recipes, 3, rel, 0, 0);
    StarInstanceEdges(recipes, 3, rel, 0, 1);
    StarInstanceEdges(recipes, 3, rel, 1, 0);
    StarInstanceEdges(recipes, 3, rel, 1, 1);
    StarInstanceEdges(recipes, 3, rel, 1, 2);
    ExampleEdgePoints(rel.edges.Keys);
  }

  /** A sound edge of the example arena is one of the ten listed. */
  lemma ExampleSoundEdge(e: Edge)
    requires e.1 < 10 && ExampleArena()[e.1].Instance?
    requires var v := ExampleArena()[e.1];
      e.0 == v.ingredient || e.0 == HubIndex(ExampleRecipes(), 3, v.recipe)
    ensures e in ExampleEdges()
  {
    ExampleHubs();
  }

  lemma ExampleStarSound(rel: Relation)
    requires IsStarExpansion(ExampleRecipes(), 3, rel)
    ensures rel.edges.Keys <= ExampleEdges().Keys
  {
    ExampleStarArena(rel);
    forall e | e in rel.edges ensures e in ExampleEdges() {
      assert SoundEdge(ExampleRecipes(), 3, rel.vertices, rel.edges, e);
      ExampleSoundEdge(e);
    }
  }

  /** `build_stars` on the recipes `{0, 1}` and `{0, 1, 2}` over three ingredients puts the
      recipe hubs at 3 and 6, builds ten vertices, and exactly the ten weight-1 edges
      `(0,4) (3,4) (1,5) (3,5) (0,7) (6,7) (1,8) (6,8) (2,9) (6,9)`. */
  lemma StarExample(rel: Relation)
    requires IsStarExpansion(ExampleRecipes(), 3, rel)
    ensures rel.vertices == ExampleArena()
    ensures rel.edges == ExampleEdges()
  {
    ExampleStarArena(rel);
    ExampleStarComplete(rel);
    ExampleStarSound(rel);
    StarLayout(ExampleRecipes(), 3, rel);
    assert rel.edges.Keys == ExampleEdges().Keys;
  }

  // ---------------------------------------------------------------------------
  // adjacency matrix and coolist

  predicate PairLess(a: Edge, b: Edge) {
    a.0 < b.0 || (a.0 == b.0 && a.1 < b.1)
  }

  predicate StrictlyAscending(s: seq<Edge>) {
    forall i, j :: 0 <= i < j < |s| ==> PairLess(s[i], s[j])
  }

  lemma {:induction false} MinimumExists(s: set<Edge>)
    requires s != {}
    ensures exists m :: m in s && forall x | x in s :: !PairLess(x, m)
    decreases |s|
  {
    var y :| y in s;
    if s != {y} {
      MinimumExists(s - {y});
      var m :| m in s - {y} && forall x | x in s - {y} :: !PairLess(x, m);
      if PairLess(y, m) {
        forall x | x in s ensures !PairLess(x, y) {
          if x != y {
            assert !PairLess(x, m);
          }
        }
      } else {
        assert forall x | x in s :: !PairLess(x, m);
      }
    } else {
      assert forall x | x in s :: x == y;
    }
  }

  lemma MinimumFirst(s: set<Edge>, m: Edge, rest: seq<Edge>)
    requires m in s && forall x | x in s :: !PairLess(x, m)
    requires forall e :: e in rest <==> e in s - {m}
    requires StrictlyAscending(rest)
    ensures StrictlyAscending([m] + rest)
  {
    forall i | 0 <= i < |rest| ensures PairLess(m, rest[i]) {
      assert rest[i] in rest;
      assert rest[i] != m && !PairLess(rest[i], m);
    }
  }

  /** The keys of a `BTreeMap` in iteration (ascending) order. */
  function SortedKeys(s: set<Edge>): (r: seq<Edge>)
    ensures |r| == |s|
    ensures forall e :: e in r <==> e in s
    ensures StrictlyAscending(r)
    decreases |s|
  {
    if s == {} then []
    else
      MinimumExists(s);
      var m :| m in s && forall x | x in s :: !PairLess(x, m);
      var rest := SortedKeys(s - {m});
      MinimumFirst(s, m, rest);
      [m] + rest
  }

  /** `build_adjacency_matrix`'s element list: `(i, j, w)` then `(j, i, w)` per stored edge,
      in key order. */
  function AdjacencyElements(rel: Relation): (r: seq<(nat, nat, nat)>)
    ensures |r| == 2 * NumberOfEdges(rel)
    ensures forall t :: t in r ==>
      ((t.0, t.1) in rel.edges && rel.edges[(t.0, t.1)] == t.2) || ((t.1, t.0) in rel.edges && rel.edges[(t.1, t.0)] == t.2)
    ensures forall e :: e in rel.edges ==> (e.0, e.1, rel.edges[e]) in r && (e.1, e.0, rel.edges[e]) in r
  {
    var keys := SortedKeys(rel.edges.Keys);
    ElementsOf(rel.edges, keys)
  }

  function ElementsOf(edges: map<Edge, nat>, keys: seq<Edge>): (r: seq<(nat, nat, nat)>)
    requires forall e :: e in keys ==> e in edges
    ensures |r| == 2 * |keys|
    ensures forall t :: t in r ==>
      ((t.0, t.1) in keys && edges[(t.0, t.1)] == t.2) || ((t.1, t.0) in keys && edges[(t.1, t.0)] == t.2)
    ensures forall e :: e in keys ==> (e.0, e.1, edges[e]) in r && (e.1, e.0, edges[e]) in r
  {
    if |keys| == 0 then []
    else
      var e := keys[0];
      var rest := ElementsOf(edges, keys[1..]);
      assert forall x :: x in keys ==> x == e || x in keys[1..];
      [(e.0, e.1, edges[e]), (e.1, e.0, edges[e])] + rest
  }

  /** The adjacency matrix is symmetric: every element has its mirror image. */
  lemma AdjacencySymmetric(rel: Relation)
    ensures forall t :: t in AdjacencyElements(rel) ==> (t.1, t.0, t.2) in AdjacencyElements(rel)
  {
  }

  /** Without self-loops or keys with `i > j`, the mirrored elements are all distinct, so the
      matrix has exactly `2 · number_of_edges` entries. */
  lemma AdjacencyEntryCount(rel: Relation)
    requires forall e :: e in rel.edges ==> e.0 < e.1
    ensures |set t | t in AdjacencyElements(rel)| == 2 * NumberOfEdges(rel)
  {
    var keys := SortedKeys(rel.edges.Keys);
    ElementsDistinct(rel.edges, keys);
    DistinctCardinality(AdjacencyElements(rel));
  }

  lemma {:induction false} ElementsDistinct(edges: map<Edge, nat>, keys: seq<Edge>)
    requires forall e :: e in keys ==> e in edges && e.0 < e.1
    requires StrictlyAscending(keys)
    ensures Distinct(ElementsOf(edges, keys))
  {
    if |keys| > 0 {
      var e := keys[0];
      var rest := ElementsOf(edges, keys[1..]);
      ElementsDistinct(edges, keys[1..]);
      var r := ElementsOf(edges, keys);
      assert r == [(e.0, e.1, edges[e]), (e.1, e.0, edges[e])] + rest;
      forall t | t in rest ensures t != r[0] && t != r[1] {
        assert (t.0, t.1) in keys[1..] || (t.1, t.0) in keys[1..];
      }
      DistinctCons2(r[0], r[1], rest);
    }
  }

  lemma DistinctCons2<T>(a: T, b: T, rest: seq<T>)
    requires a != b && a !in rest && b !in rest && Distinct(rest)
    ensures Distinct([a, b] + rest)
  {
    var r := [a, b] + rest;
    forall i, j | 0 <= i < j < |r| ensures r[i] != r[j] {
      if i >= 2 {
        assert r[i] == rest[i - 2] && r[j] == rest[j - 2];
      } else if j >= 2 {
        assert r[j] in rest;
      }
    }
  }

  lemma {:induction false} DistinctCardinality<T>(s: seq<T>)
    requires Distinct(s)
    ensures |set t | t in s| == |s|
  {
    if |s| > 0 {
      DistinctCardinality(s[1..]);
      assert (set t | t in s) == (set t | t in s[1..]) + {s[0]};
      assert s[0] !in s[1..];
    }
  }

  /** `build_coolist`'s text: one "i j w" line per edge in key order. */
  function Coolist(rel: Relation): string {
    Text.TripleLines(CoolistTriples(rel))
  }

  function CoolistTriples(rel: Relation): (r: seq<(nat, nat, nat)>)
    ensures |r| == NumberOfEdges(rel)
  {
    var keys := SortedKeys(rel.edges.Keys);
    seq(|keys|, i requires 0 <= i < |keys| => (keys[i].0, keys[i].1, rel.edges[keys[i]]))
  }

  /** Reading the coolist back gives every edge once, with its weight, in ascending key order. */
  lemma CoolistRoundTrip(rel: Relation)
    ensures Text.ParseTripleLines(Coolist(rel)).Some?
    ensures var ts := Text.ParseTripleLines(Coolist(rel)).value;
      && |ts| == NumberOfEdges(rel)
      && (forall i :: 0 <= i < |ts| ==> (ts[i].0, ts[i].1) in rel.edges && rel.edges[(ts[i].0, ts[i].1)] == ts[i].2)
      && (forall e :: e in rel.edges ==> (e.0, e.1, rel.edges[e]) in ts)
      && (forall i, j :: 0 <= i < j < |ts| ==> PairLess((ts[i].0, ts[i].1), (ts[j].0, ts[j].1)))
  {
    Text.TripleLinesRoundTrip(CoolistTriples(rel));
    CoolistListsEdges(rel);
  }

  /** `ts` lists every edge of `rel` once, with its weight, in ascending key order. */
  predicate ListsEdges(rel: Relation, ts: seq<(nat, nat, nat)>) {
    && |ts| == NumberOfEdges(rel)
    && (forall i :: 0 <= i < |ts| ==> (ts[i].0, ts[i].1) in rel.edges && rel.edges[(ts[i].0, ts[i].1)] == ts[i].2)
    && (forall e :: e in rel.edges ==> (e.0, e.1, rel.edges[e]) in ts)
    && (forall i, j :: 0 <= i < j < |ts| ==> PairLess((ts[i].0, ts[i].1), (ts[j].0, ts[j].1)))
  }

  lemma CoolistListsEdges(rel: Relation)
    ensures ListsEdges(rel, CoolistTriples(rel))
  {
    var ts := CoolistTriples(rel);
    var keys := SortedKeys(rel.edges.Keys);
    forall e | e in rel.edges ensures (e.0, e.1, rel.edges[e]) in ts {
      var i :| 0 <= i < |keys| && keys[i] == e;
      assert ts[i] == (e.0, e.1, rel.edges[e]);
    }
  }
}
