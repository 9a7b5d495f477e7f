/** `src/hierarchy.rs`: the Louvain hierarchy over the expanded relation, and
    `generate_recipes`, which groups the ingredient instances of one level's
    aggregates into "recipes" of ingredient names with their counts. */
module Hierarchy {
  import opened Results
  import opened Seqs
  import opened Expanded
  import Louvain

  type Interpolation = Louvain.Interpolation

  /** The panics and the explicit error of `generate_recipes`. */
  datatype Failure =
    | LevelOutOfRange       // the `anyhow!("out of range")` error
    | NoMatrices            // `interpolation_matrices[0]` on an empty list
    | DimensionMismatch     // a product of matrices whose inner dimensions differ
    | NodeOutOfRange        // `vertices[node]` past the arena
    | IngredientOutOfRange  // `ingredients_vec[ingredient_id]` past the name list
    | AggregateOutOfRange   // `aggregates[agg]` past the column count

  /** The fields `generate_recipes` reads; the adjacency matrix `new` precomputes and the
      name-to-id map are carried along unchanged. */
  datatype Hierarchy = Hierarchy(
    matrices: seq<Interpolation>,
    names: seq<string>,
    idsByName: map<string, (nat, nat)>,
    adjacency: seq<(nat, nat, nat)>,
    relation: Relation)

  /** `Hierarchy::new`: stores its arguments and the symmetric adjacency list of the relation. */
  function New(matrices: seq<Interpolation>, names: seq<string>, idsByName: map<string, (nat, nat)>, relation: Relation): (h: Hierarchy)
    ensures h.matrices == matrices && h.names == names && h.idsByName == idsByName && h.relation == relation
    ensures forall i, j, w :: (i, j, w) in h.adjacency <==> ((i, j) in relation.edges && relation.edges[(i, j)] == w) || ((j, i) in relation.edges && relation.edges[(j, i)] == w)
  {
    AdjacencySymmetric(relation);
    Hierarchy(matrices, names, idsByName, AdjacencyElements(relation), relation)
  }

  /** `num_levels`: level 0 is the expanded graph itself, then one level per matrix. */
  function NumLevels(h: Hierarchy): nat {
    |h.matrices| + 1
  }

  // ---------------------------------------------------------------------------
  // products of 0/1 matrices

  /** The positions `(x.0, y.1)` for the `y` of `ys` whose row is the column of `x`. */
  function Matches(x: (nat, nat), ys: seq<(nat, nat)>): (r: seq<(nat, nat)>)
    ensures forall p :: p in r <==> p.0 == x.0 && (x.1, p.1) in ys
  {
    if |ys| == 0 then []
    else
      var rest := Matches(x, ys[1..]);
      assert forall q :: q in ys <==> q == ys[0] || q in ys[1..];
      (if ys[0].0 == x.1 then [(x.0, ys[0].1)] else []) + rest
  }

  /** Every position reached by one step in `xs` followed by one step in `ys`. */
  function Joined(xs: seq<(nat, nat)>, ys: seq<(nat, nat)>): (r: seq<(nat, nat)>)
    ensures forall p :: p in r <==> exists j :: (p.0, j) in xs && (j, p.1) in ys
  {
    if |xs| == 0 then []
    else
      var rest := Joined(xs[1..], ys);
      assert forall q :: q in xs <==> q == xs[0] || q in xs[1..];
      Matches(xs[0], ys) + rest
  }

  /** The non-zero positions of a matrix, each once. */
  function Nonzero(m: Interpolation): (r: Interpolation)
    ensures r.rows == m.rows && r.cols == m.cols
    ensures Distinct(r.elements) && forall p :: p in r.elements <==> p in m.elements
  {
    Louvain.Interpolation(m.rows, m.cols, FirstSeen(m.elements))
  }

  /** `&a * &b` on matrices with non-negative entries: position `(i, k)` is non-zero exactly
      when some `j` has `(i, j)` non-zero in `a` and `(j, k)` non-zero in `b`. */
  function Product(a: Interpolation, b: Interpolation): (r: Result<Interpolation, Failure>)
    ensures r.Ok? <==> a.cols == b.rows
    ensures r.Err? ==> r.error == DimensionMismatch
    ensures r.Ok? ==> r.value.rows == a.rows && r.value.cols == b.cols && Distinct(r.value.elements)
    ensures r.Ok? ==> forall p :: p in r.value.elements <==> exists j :: (p.0, j) in a.elements && (j, p.1) in b.elements
  {
    if a.cols != b.rows then Err(DimensionMismatch)
    else Ok(Louvain.Interpolation(a.rows, b.cols, FirstSeen(Joined(a.elements, b.elements))))
  }

  /** The product of the first `k` matrices, as the loop of `generate_recipes` builds it. */
  function PartitionUpTo(ms: seq<Interpolation>, k: nat): (r: Result<Interpolation, Failure>)
    requires 1 <= k <= |ms|
    ensures r.Err? ==> r.error == DimensionMismatch
  {
    if k == 1 then Ok(Nonzero(ms[0]))
    else
      var p :- PartitionUpTo(ms, k - 1);
      Product(p, ms[k - 1])
  }

  /** Consecutive matrices among the first `k` agree on their shared dimension. */
  predicate ChainedUpTo(ms: seq<Interpolation>, k: nat)
    requires k <= |ms|
  {
    forall t :: 0 <= t < k - 1 ==> ms[t].cols == ms[t + 1].rows
  }

  /** Vertex `i` of the graph lies in aggregate `g` of level `k`: a path through the first `k`
      matrices leads from one to the other. */
  ghost predicate Reaches(ms: seq<Interpolation>, k: nat, i: nat, g: nat)
    requires 1 <= k <= |ms|
  {
    if k == 1 then (i, g) in ms[0].elements
    else exists j: nat :: Reaches(ms, k - 1, i, j) && (j, g) in ms[k - 1].elements
  }

  /** The product exists exactly when the dimensions chain; it has the first matrix's rows and
      the last one's columns, and relates each vertex to the aggregates it reaches. */
  lemma {:induction false} PartitionPaths(ms: seq<Interpolation>, k: nat)
    requires 1 <= k <= |ms|
    ensures PartitionUpTo(ms, k).Ok? <==> ChainedUpTo(ms, k)
    ensures PartitionUpTo(ms, k).Ok? ==>
      var p := PartitionUpTo(ms, k).value;
      && p.rows == ms[0].rows && p.cols == ms[k - 1].cols && Distinct(p.elements)
      && forall i: nat, g: nat :: (i, g) in p.elements <==> Reaches(ms, k, i, g)
  {
    if k > 1 {
      PartitionPaths(ms, k - 1);
      var prev := PartitionUpTo(ms, k - 1);
      if prev.Ok? {
        var p := prev.value;
        assert p.cols == ms[k - 2].cols;
        var r := Product(p, ms[k - 1]);
        if r.Ok? {
          forall i: nat, g: nat ensures (i, g) in r.value.elements <==> Reaches(ms, k, i, g) {
            assert (i, g) in r.value.elements <==> exists j :: (i, j) in p.elements && (j, g) in ms[k - 1].elements;
          }
        }
      } else {
        assert !ChainedUpTo(ms, k);
      }
    }
  }

  // ---------------------------------------------------------------------------
  // partitions: one aggregate per vertex

  /** `m` is the 0/1 matrix of the map `f`: row `i` has exactly one non-zero, in column `f[i]`. */
  ghost predicate Assigns(m: Interpolation, f: seq<nat>) {
    && |f| == m.rows
    && (forall i :: 0 <= i < |f| ==> f[i] < m.cols)
    && (forall i: nat, g: nat :: (i, g) in m.elements <==> i < |f| && g == f[i])
  }

  /** The map `f` followed by the map `h`. */
  function Compose(f: seq<nat>, h: seq<nat>): (r: seq<nat>)
    requires forall i :: 0 <= i < |f| ==> f[i] < |h|
    ensures |r| == |f| && forall i :: 0 <= i < |f| ==> r[i] == h[f[i]]
  {
    seq(|f|, i requires 0 <= i < |f| => h[f[i]])
  }

  /** The product of two partition matrices is the partition matrix of the composed map. */
  lemma ProductAssigns(a: Interpolation, b: Interpolation, f: seq<nat>, h: seq<nat>)
    requires Assigns(a, f) && Assigns(b, h) && a.cols == b.rows
    ensures Product(a, b).Ok? && Assigns(Product(a, b).value, Compose(f, h))
  {
    var p := Product(a, b).value;
    var c := Compose(f, h);
    forall i: nat, g: nat ensures (i, g) in p.elements <==> i < |c| && g == c[i] {
      if i < |c| && g == c[i] {
        assert (i, f[i]) in a.elements && (f[i], g) in b.elements;
      }
      if (i, g) in p.elements {
        var j :| (i, j) in a.elements && (j, g) in b.elements;
      }
    }
  }

  /** Keeping each non-zero position once leaves a partition matrix unchanged as a map. */
  lemma NonzeroAssigns(m: Interpolation, f: seq<nat>)
    requires Assigns(m, f)
    ensures Assigns(Nonzero(m), f)
  {
  }

  /** Among the first `k` maps, each sends its vertices to vertices of the next. */
  predicate MapsChain(fs: seq<seq<nat>>, k: nat)
    requires k <= |fs|
  {
    forall t :: 0 <= t < k - 1 ==> forall i :: 0 <= i < |fs[t]| ==> fs[t][i] < |fs[t + 1]|
  }

  /** The aggregate of each vertex after the first `k` levels: `fs[k-1][...fs[1][fs[0][v]]]`. */
  function Path(fs: seq<seq<nat>>, k: nat): (r: seq<nat>)
    requires 1 <= k <= |fs| && MapsChain(fs, k)
    ensures |r| == |fs[0]| && forall i :: 0 <= i < |r| ==> r[i] in fs[k - 1]
  {
    if k == 1 then fs[0]
    else
      var prev := Path(fs, k - 1);
      assert forall i :: 0 <= i < |prev| ==> prev[i] < |fs[k - 1]|;
      Compose(prev, fs[k - 1])
  }

  /** Composing chained partition matrices gives a partition matrix again: every vertex lies in
      exactly one aggregate of level `k`, the one its groups lead to level by level. */
  lemma {:induction false} PartitionAssigns(ms: seq<Interpolation>, fs: seq<seq<nat>>, k: nat)
    requires 1 <= k <= |ms| && k <= |fs|
    requires forall t :: 0 <= t < k ==> Assigns(ms[t], fs[t])
    requires ChainedUpTo(ms, k)
    ensures MapsChain(fs, k)
    ensures PartitionUpTo(ms, k).Ok?
    ensures PartitionUpTo(ms, k).value.cols == ms[k - 1].cols
    ensures Assigns(PartitionUpTo(ms, k).value, Path(fs, k))
  {
    assert MapsChain(fs, k) by {
      forall t, i | 0 <= t < k - 1 && 0 <= i < |fs[t]| ensures fs[t][i] < |fs[t + 1]| {
        assert Assigns(ms[t], fs[t]) && Assigns(ms[t + 1], fs[t + 1]);
      }
    }
    if k == 1 {
      NonzeroAssigns(ms[0], fs[0]);
    } else {
      PartitionAssigns(ms, fs, k - 1);
      var p := PartitionUpTo(ms, k - 1).value;
      assert ms[k - 2].cols == ms[k - 1].rows;
      ProductAssigns(p, ms[k - 1], Path(fs, k - 1), fs[k - 1]);
    }
  }

  /** Vertex `i` reaches aggregate `g` of level `k` exactly when `g` is the aggregate its groups
      lead to: no vertex of the graph reaches two aggregates or none. */
  lemma ReachesExactlyOne(ms: seq<Interpolation>, fs: seq<seq<nat>>, k: nat, i: nat, g: nat)
    requires 1 <= k <= |ms| && k <= |fs|
    requires forall t :: 0 <= t < k ==> Assigns(ms[t], fs[t])
    requires ChainedUpTo(ms, k)
    ensures MapsChain(fs, k)
    ensures Reaches(ms, k, i, g) <==> i < |fs[0]| && g == Path(fs, k)[i]
  {
    PartitionPaths(ms, k);
    PartitionAssigns(ms, fs, k);
  }

  /** The matrix the parser builds for one level of group assignments is its partition matrix. */
  lemma MatrixAssigns(a: seq<nat>)
    ensures Assigns(Louvain.Matrix(a), a)
  {
    var m := Louvain.Matrix(a);
    var ps := Louvain.Indexed(a);
    assert forall i :: 0 <= i < |a| ==> ps[i].1 == a[i];
    forall i: nat, g: nat ensures (i, g) in m.elements <==> i < |a| && g == a[i] {
      if (i, g) in ps {
        var j :| 0 <= j < |ps| && ps[j] == (i, g);
      }
      if i < |a| && g == a[i] {
        assert ps[i] == (i, g);
      }
    }
  }

  /** For the matrices read back from the tool's output of a hierarchy, the composed partition
      of the first `k` levels puts vertex `v` in group `assigns[k-1][...assigns[0][v]]`. */
  lemma ToolPartition(assigns: seq<seq<nat>>, n: nat, k: nat)
    requires Louvain.ToolChain(assigns, n) && 1 <= k <= |assigns|
    ensures MapsChain(assigns, k)
    ensures var ms := Louvain.Expected(assigns);
      PartitionUpTo(ms, k).Ok? && Assigns(PartitionUpTo(ms, k).value, Path(assigns, k))
  {
    var ms := Louvain.Expected(assigns);
    forall t | 0 <= t < k ensures Assigns(ms[t], assigns[t]) {
      Louvain.ExpectedAt(assigns, t);
      MatrixAssigns(assigns[t]);
    }
    forall t | 0 <= t < k - 1 ensures ms[t].cols == ms[t + 1].rows {
      Louvain.ExpectedAt(assigns, t);
      Louvain.ExpectedAt(assigns, t + 1);
    }
    PartitionAssigns(ms, assigns, k);
  }

  // ---------------------------------------------------------------------------
  // aggregates

  /** One aggregate's `BTreeMap<String, Vec<usize>>`: ingredient name to the recipe ids of its
      instances, kept as an association list. */
  type Bucket = seq<(string, seq<nat>)>

  predicate NamesDistinct(b: Bucket) {
    forall i, j :: 0 <= i < j < |b| ==> b[i].0 != b[j].0
  }

  function Lookup(b: Bucket, name: string): (r: Option<seq<nat>>)
    ensures r.None? <==> forall i :: 0 <= i < |b| ==> b[i].0 != name
    ensures r.Some? ==> exists i :: 0 <= i < |b| && b[i] == (name, r.value)
  {
    if |b| == 0 then None
    else if b[0].0 == name then Some(b[0].1)
    else
      var r := Lookup(b[1..], name);
      assert forall i :: 1 <= i < |b| ==> b[i] == b[1..][i - 1];
      r
  }

  /** In a bucket without repeated names, the entry of a name is the one `Lookup` finds. */
  lemma LookupDistinct(b: Bucket, i: nat)
    requires NamesDistinct(b) && i < |b|
    ensures Lookup(b, b[i].0) == Some(b[i].1)
  {
    var r := Lookup(b, b[i].0);
    var j :| 0 <= j < |b| && b[j] == (b[i].0, r.value);
  }

  /** The `get_mut` / `push` / `insert` step: the recipe joins the list of its name, which is
      created at the end of the bucket when absent. */
  function Push(b: Bucket, name: string, recipe: nat): Bucket {
    if |b| == 0 then [(name, [recipe])]
    else if b[0].0 == name then [(name, b[0].1 + [recipe])] + b[1..]
    else [b[0]] + Push(b[1..], name, recipe)
  }

  /** Pushing never repeats a name. */
  lemma {:induction false} PushDistinct(b: Bucket, name: string, recipe: nat)
    requires NamesDistinct(b)
    ensures NamesDistinct(Push(b, name, recipe))
    ensures forall i :: 0 <= i < |Push(b, name, recipe)| ==> Push(b, name, recipe)[i].0 == name || exists j :: 0 <= j < |b| && b[j].0 == Push(b, name, recipe)[i].0
  {
    if |b| > 0 && b[0].0 != name {
      var rest := Push(b[1..], name, recipe);
      PushDistinct(b[1..], name, recipe);
      assert forall i :: 0 <= i < |rest| ==> rest[i].0 != b[0].0 by {
        forall i | 0 <= i < |rest| ensures rest[i].0 != b[0].0 {
          if rest[i].0 != name {
            var j :| 0 <= j < |b[1..]| && b[1..][j].0 == rest[i].0;
            assert b[j + 1].0 == rest[i].0;
          }
        }
      }
      assert forall i :: 1 <= i < |b| ==> b[i] == b[1..][i - 1];
    }
  }

  /** Pushing appends the recipe to the list of its name. */
  lemma {:induction false} PushSame(b: Bucket, name: string, recipe: nat)
    ensures Lookup(Push(b, name, recipe), name) == Some((if Lookup(b, name).Some? then Lookup(b, name).value else []) + [recipe])
  {
    if |b| == 0 {
      assert [] + [recipe] == [recipe];
    } else if b[0].0 != name {
      PushSame(b[1..], name, recipe);
      assert Push(b, name, recipe)[1..] == Push(b[1..], name, recipe);
    }
  }

  /** Pushing leaves the lists of the other names alone. */
  lemma {:induction false} PushOther(b: Bucket, name: string, recipe: nat, other: string)
    requires other != name
    ensures Lookup(Push(b, name, recipe), other) == Lookup(b, other)
  {
    if |b| > 0 {
      var r := Push(b, name, recipe);
      if b[0].0 == name {
        assert r[1..] == b[1..];
      } else {
        PushOther(b[1..], name, recipe, other);
        assert r[1..] == Push(b[1..], name, recipe);
      }
    }
  }

  /** What the partition element `(node, agg)` adds: nothing for a hub, the ingredient name and
      the recipe id for an instance; the indexing panics become errors. */
  function Contribution(vs: seq<Vertex>, names: seq<string>, cols: nat, e: (nat, nat)): (r: Result<Option<(string, nat)>, Failure>)
    ensures r.Ok? && r.value.Some? ==> e.1 < cols
    ensures r.Ok? <==> e.0 < |vs| && (vs[e.0].Instance? ==> vs[e.0].ingredient < |names| && e.1 < cols)
    ensures r.Err? ==> r.error in {NodeOutOfRange, IngredientOutOfRange, AggregateOutOfRange}
  {
    if e.0 >= |vs| then Err(NodeOutOfRange)
    else
      var ingredient := IngredientId(vs[e.0]);
      var recipe := RecipeId(vs[e.0]);
      if ingredient.None? || recipe.None? then Ok(None)
      else if ingredient.value >= |names| then Err(IngredientOutOfRange)
      else if e.1 >= cols then Err(AggregateOutOfRange)
      else Ok(Some((names[ingredient.value], recipe.value)))
  }

  /** The loop over `partition.elements()`, one bucket per column. */
  function Aggregate(vs: seq<Vertex>, names: seq<string>, elements: seq<(nat, nat)>, aggs: seq<Bucket>): (r: Result<seq<Bucket>, Failure>)
    ensures r.Ok? ==> |r.value| == |aggs|
    ensures r.Err? ==> r.error in {NodeOutOfRange, IngredientOutOfRange, AggregateOutOfRange}
  {
    if |elements| == 0 then Ok(aggs)
    else
      var c :- Contribution(vs, names, |aggs|, elements[0]);
      var agg := elements[0].1;
      var aggs' := if c.None? then aggs else aggs[agg := Push(aggs[agg], c.value.0, c.value.1)];
      Aggregate(vs, names, elements[1..], aggs')
  }

  /** The recipe ids that the elements put under `name` in aggregate `a`, in order. */
  function Recipes(vs: seq<Vertex>, names: seq<string>, cols: nat, elements: seq<(nat, nat)>, a: nat, name: string): seq<nat> {
    if |elements| == 0 then []
    else
      var c := Contribution(vs, names, cols, elements[0]);
      (if elements[0].1 == a && c.Ok? && c.value.Some? && c.value.value.0 == name then [c.value.value.1] else [])
        + Recipes(vs, names, cols, elements[1..], a, name)
  }

  /** A list after more recipes were appended to it, created if needed. */
  function Extend(before: Option<seq<nat>>, more: seq<nat>): Option<seq<nat>> {
    if before.None? && |more| == 0 then None
    else Some((if before.Some? then before.value else []) + more)
  }

  lemma {:induction false} AggregateSucceeds(vs: seq<Vertex>, names: seq<string>, elements: seq<(nat, nat)>, aggs: seq<Bucket>)
    ensures Aggregate(vs, names, elements, aggs).Ok? <==> forall i :: 0 <= i < |elements| ==> Contribution(vs, names, |aggs|, elements[i]).Ok?
  {
    if |elements| > 0 {
      assert forall i :: 1 <= i < |elements| ==> elements[i] == elements[1..][i - 1];
      var c := Contribution(vs, names, |aggs|, elements[0]);
      if c.Ok? {
        var agg := elements[0].1;
        var aggs' := if c.value.None? then aggs else aggs[agg := Push(aggs[agg], c.value.value.0, c.value.value.1)];
        AggregateSucceeds(vs, names, elements[1..], aggs');
      }
    }
  }

  lemma ExtendAppend(before: Option<seq<nat>>, x: nat, more: seq<nat>)
    ensures Extend(Extend(before, [x]), more) == Extend(before, [x] + more)
  {
    var xs := if before.Some? then before.value else [];
    assert xs + [x] + more == xs + ([x] + more);
  }

  /** After the loop, the list under each name of each aggregate is the one it started with,
      extended by the recipe ids of the instances the partition puts there under that name. */
  lemma {:induction false} AggregateLookup(vs: seq<Vertex>, names: seq<string>, elements: seq<(nat, nat)>, aggs: seq<Bucket>, a: nat, name: string)
    requires Aggregate(vs, names, elements, aggs).Ok?
    requires a < |aggs|
    ensures var r := Aggregate(vs, names, elements, aggs).value;
      |r| == |aggs| && Lookup(r[a], name) == Extend(Lookup(aggs[a], name), Recipes(vs, names, |aggs|, elements, a, name))
  {
    if |elements| == 0 {
      assert (if Lookup(aggs[a], name).Some? then Lookup(aggs[a], name).value else []) + [] == (if Lookup(aggs[a], name).Some? then Lookup(aggs[a], name).value else []);
    } else {
      var c := Contribution(vs, names, |aggs|, elements[0]).value;
      var agg := elements[0].1;
      var aggs' := if c.None? then aggs else aggs[agg := Push(aggs[agg], c.value.0, c.value.1)];
      AggregateLookup(vs, names, elements[1..], aggs', a, name);
      var tail := Recipes(vs, names, |aggs|, elements[1..], a, name);
      if c.Some? && agg == a && c.value.0 == name {
        PushSame(aggs[a], name, c.value.1);
        ExtendAppend(Lookup(aggs[a], name), c.value.1, tail);
      } else {
        if c.Some? && agg == a {
          PushOther(aggs[a], c.value.0, c.value.1, name);
        }
        assert [] + tail == tail;
      }
    }
  }

  predicate AllDistinct(aggs: seq<Bucket>) {
    forall a :: 0 <= a < |aggs| ==> NamesDistinct(aggs[a])
  }

  lemma {:induction false} AggregateDistinct(vs: seq<Vertex>, names: seq<string>, elements: seq<(nat, nat)>, aggs: seq<Bucket>)
    requires Aggregate(vs, names, elements, aggs).Ok?
    requires AllDistinct(aggs)
    ensures AllDistinct(Aggregate(vs, names, elements, aggs).value)
  {
    if |elements| > 0 {
      var c := Contribution(vs, names, |aggs|, elements[0]).value;
      var agg := elements[0].1;
      if c.Some? {
        PushDistinct(aggs[agg], c.value.0, c.value.1);
      }
      var aggs' := if c.None? then aggs else aggs[agg := Push(aggs[agg], c.value.0, c.value.1)];
      AggregateDistinct(vs, names, elements[1..], aggs');
    }
  }

  // ---------------------------------------------------------------------------
  // filtering and sorting

  /** The aggregate has an entry for every target name (`contains_key` for all of them). */
  predicate ContainsAll(b: Bucket, targets: seq<string>) {
    forall t :: t in targets ==> Lookup(b, t).Some?
  }

  /** The positions from `lo` on of the aggregates the filter keeps, in order. */
  function KeptFrom(aggs: seq<Bucket>, targets: seq<string>, lo: nat): (r: seq<nat>)
    ensures Increasing(r)
    ensures forall x :: x in r <==> lo <= x < |aggs| && ContainsAll(aggs[x], targets)
    decreases |aggs| - lo
  {
    if lo >= |aggs| then []
    else
      var rest := KeptFrom(aggs, targets, lo + 1);
      forall i | 0 <= i < |rest| ensures rest[i] > lo {
        assert rest[i] in rest;
      }
      if ContainsAll(aggs[lo], targets) then [lo] + rest else rest
  }

  /** The `filter` over the aggregates: those holding every target, in their original order. */
  function Keep(aggs: seq<Bucket>, targets: seq<string>): (r: seq<Bucket>)
    ensures forall b :: b in r ==> ContainsAll(b, targets)
  {
    var kept := KeptFrom(aggs, targets, 0);
    assert forall i :: 0 <= i < |kept| ==> kept[i] in kept;
    seq(|kept|, i requires 0 <= i < |kept| => aggs[kept[i]])
  }

  /** Without targets the filter keeps every aggregate. */
  lemma KeepAllWithoutTargets(aggs: seq<Bucket>)
    ensures Keep(aggs, []) == aggs
  {
    var kept := KeptFrom(aggs, [], 0);
    assert forall b :: ContainsAll(b, []);
    KeptCoversRange(kept, |aggs|);
  }

  /** An increasing list holding every index below `n` and nothing else is `0, …, n - 1`. */
  lemma {:induction false} KeptCoversRange(kept: seq<nat>, n: nat)
    requires Increasing(kept)
    requires forall x: nat :: x in kept <==> x < n
    ensures |kept| == n && forall i :: 0 <= i < n ==> kept[i] == i
  {
    if n > 0 {
      assert n - 1 in kept;
      var init := kept[..|kept| - 1];
      var j :| 0 <= j < |kept| && kept[j] == n - 1;
      assert kept[|kept| - 1] in kept;
      assert j == |kept| - 1;
      forall x: nat ensures x in init <==> x < n - 1 {
        if x in init {
          var i :| 0 <= i < |init| && init[i] == x;
          assert kept[i] < kept[j];
        }
        if x < n - 1 {
          assert x in kept;
          var i :| 0 <= i < |kept| && kept[i] == x;
        }
      }
      KeptCoversRange(init, n - 1);
      assert forall i :: 0 <= i < n - 1 ==> kept[i] == init[i];
    } else {
      FirstIn(kept);
    }
  }

  lemma FirstIn(s: seq<nat>)
    ensures |s| > 0 ==> s[0] in s
  {
  }

  function Count(e: (string, nat)): int {
    e.1
  }

  /** `(name, recipes.len())` for every entry. */
  function Summary(b: Bucket): (r: seq<(string, nat)>)
    ensures |r| == |b| && forall i :: 0 <= i < |b| ==> r[i] == (b[i].0, |b[i].1|)
  {
    seq(|b|, i requires 0 <= i < |b| => (b[i].0, |b[i].1|))
  }

  /** One output row: the names of an aggregate with their counts, by ascending count. */
  function Row(b: Bucket): (r: seq<(string, nat)>)
    ensures SortedByKey(r, Count)
    ensures multiset(r) == multiset(Summary(b))
  {
    SortByKey(Summary(b), Count)
  }

  /** A row lists each name of its aggregate once, with the number of recipes under it. */
  lemma RowContents(b: Bucket, name: string, c: nat)
    requires NamesDistinct(b)
    ensures (name, c) in Row(b) <==> Lookup(b, name).Some? && c == |Lookup(b, name).value|
  {
    var sum := Summary(b);
    assert (name, c) in Row(b) <==> (name, c) in multiset(sum);
    if (name, c) in sum {
      var i :| 0 <= i < |sum| && sum[i] == (name, c);
      LookupDistinct(b, i);
    }
    if Lookup(b, name).Some? {
      var i :| 0 <= i < |b| && b[i] == (name, Lookup(b, name).value);
      assert sum[i] == (name, |Lookup(b, name).value|);
    }
  }

  // ---------------------------------------------------------------------------
  // generate_recipes

  /** The level whose partition `generate_recipes` builds: levels 0 and 1 both use the first
      matrix alone. */
  function Depth(level: nat): (k: nat)
    ensures k >= 1 && (level >= 1 ==> k == level)
  {
    if level == 0 then 1 else level
  }

  /** `generate_recipes(level, target_ingredients)`: for each aggregate of the level's partition
      that has every target ingredient, its ingredient names with the number of instances of
      each, by ascending count. */
  function GenerateRecipes(h: Hierarchy, level: nat, targets: seq<string>): (r: Result<seq<seq<(string, nat)>>, Failure>)
    ensures r.Err? && r.error == LevelOutOfRange <==> level >= NumLevels(h)
    ensures r.Ok? ==> forall i :: 0 <= i < |r.value| ==> SortedByKey(r.value[i], Count)
  {
    if level > |h.matrices| then Err(LevelOutOfRange)
    else if |h.matrices| == 0 then Err(NoMatrices)
    else
      var p :- PartitionUpTo(h.matrices, Depth(level));
      var aggs :- Aggregate(h.relation.vertices, h.names, p.elements, EmptyBuckets(p.cols));
      var kept := Keep(aggs, targets);
      Ok(seq(|kept|, i requires 0 <= i < |kept| => Row(kept[i])))
  }

  /** Level 0 reads the first matrix, not the identity, so it answers exactly as level 1 does
      whenever there is a matrix to read. */
  lemma LevelZeroIsLevelOne(h: Hierarchy, targets: seq<string>)
    requires |h.matrices| >= 1
    ensures GenerateRecipes(h, 0, targets) == GenerateRecipes(h, 1, targets)
  {
  }

  /** The number of instance vertices of ingredient `name` that the partition puts in
      aggregate `a`. */
  function InstanceCount(h: Hierarchy, p: Interpolation, a: nat, name: string): nat {
    |Recipes(h.relation.vertices, h.names, p.cols, p.elements, a, name)|
  }

  /** Aggregate `a` holds an instance of every target. */
  predicate Wanted(h: Hierarchy, p: Interpolation, targets: seq<string>, a: nat) {
    forall t :: t in targets ==> InstanceCount(h, p, a, t) > 0
  }

  /** The wanted aggregates from `lo` on, in column order. */
  function Selected(h: Hierarchy, p: Interpolation, targets: seq<string>, lo: nat): (r: seq<nat>)
    ensures Increasing(r)
    ensures forall a :: a in r <==> lo <= a < p.cols && Wanted(h, p, targets, a)
    decreases p.cols - lo
  {
    if lo >= p.cols then []
    else
      var rest := Selected(h, p, targets, lo + 1);
      forall i | 0 <= i < |rest| ensures rest[i] > lo {
        assert rest[i] in rest;
      }
      if Wanted(h, p, targets, lo) then [lo] + rest else rest
  }

  function EmptyBuckets(n: nat): (r: seq<Bucket>)
    ensures |r| == n && forall a :: 0 <= a < n ==> r[a] == []
  {
    seq(n, _ => [])
  }

  /** The buckets the loop fills for partition `p`. */
  lemma BucketCounts(h: Hierarchy, p: Interpolation, a: nat, name: string)
    requires Aggregate(h.relation.vertices, h.names, p.elements, EmptyBuckets(p.cols)).Ok?
    requires a < p.cols
    ensures var aggs := Aggregate(h.relation.vertices, h.names, p.elements, EmptyBuckets(p.cols)).value;
      && |aggs| == p.cols
      && NamesDistinct(aggs[a])
      && (Lookup(aggs[a], name).Some? <==> InstanceCount(h, p, a, name) > 0)
      && (Lookup(aggs[a], name).Some? ==> |Lookup(aggs[a], name).value| == InstanceCount(h, p, a, name))
  {
    var vs, names := h.relation.vertices, h.names;
    AggregateLookup(vs, names, p.elements, EmptyBuckets(p.cols), a, name);
    AggregateDistinct(vs, names, p.elements, EmptyBuckets(p.cols));
    var rs := Recipes(vs, names, p.cols, p.elements, a, name);
    assert [] + rs == rs;
  }

  lemma {:induction false} KeptSelected(h: Hierarchy, p: Interpolation, targets: seq<string>, lo: nat)
    requires Aggregate(h.relation.vertices, h.names, p.elements, EmptyBuckets(p.cols)).Ok?
    ensures KeptFrom(Aggregate(h.relation.vertices, h.names, p.elements, EmptyBuckets(p.cols)).value, targets, lo) == Selected(h, p, targets, lo)
    decreases p.cols - lo
  {
    var aggs := Aggregate(h.relation.vertices, h.names, p.elements, EmptyBuckets(p.cols)).value;
    if lo < p.cols {
      KeptSelected(h, p, targets, lo + 1);
      forall t | t in targets ensures Lookup(aggs[lo], t).Some? <==> InstanceCount(h, p, lo, t) > 0 {
        BucketCounts(h, p, lo, t);
      }
      assert ContainsAll(aggs[lo], targets) <==> Wanted(h, p, targets, lo);
    }
  }

  /** What `generate_recipes` returns: one row per aggregate of the level's partition holding
      an instance of every target, in column order; a row names every ingredient with
      instances in its aggregate, with their number. */
  lemma GenerateRecipesContents(h: Hierarchy, level: nat, targets: seq<string>)
    requires GenerateRecipes(h, level, targets).Ok?
    ensures PartitionUpTo(h.matrices, Depth(level)).Ok?
    ensures var p := PartitionUpTo(h.matrices, Depth(level)).value;
      var out := GenerateRecipes(h, level, targets).value;
      var kept := Selected(h, p, targets, 0);
      && |out| == |kept|
      && forall i, name, c :: 0 <= i < |out| ==>
        ((name, c) in out[i] <==> c > 0 && c == InstanceCount(h, p, kept[i], name))
  {
    var p := PartitionUpTo(h.matrices, Depth(level)).value;
    var aggs := Aggregate(h.relation.vertices, h.names, p.elements, EmptyBuckets(p.cols)).value;
    KeptSelected(h, p, targets, 0);
    var kept := Selected(h, p, targets, 0);
    var out := GenerateRecipes(h, level, targets).value;
    forall i, name, c | 0 <= i < |out|
      ensures (name, c) in out[i] <==> c > 0 && c == InstanceCount(h, p, kept[i], name)
    {
      assert kept[i] in kept;
      BucketCounts(h, p, kept[i], name);
      assert out[i] == Row(aggs[kept[i]]);
      RowContents(aggs[kept[i]], name, c);
    }
  }

  /** Vertex `i` is an instance of ingredient `name`. */
  predicate Named(vs: seq<Vertex>, names: seq<string>, i: nat, name: string) {
    i < |vs| && vs[i].Instance? && vs[i].ingredient < |names| && names[vs[i].ingredient] == name
  }

  /** The instance vertices of `name` that the elements place in aggregate `a`. */
  ghost function Members(vs: seq<Vertex>, names: seq<string>, es: seq<(nat, nat)>, a: nat, name: string): set<nat> {
    set i: nat | i < |vs| && (i, a) in es && Named(vs, names, i, name)
  }

  /** Counting the recipes listed under a name counts distinct instance vertices, because a
      sparse matrix holds each position once. */
  lemma {:induction false} RecipesCountMembers(vs: seq<Vertex>, names: seq<string>, cols: nat, es: seq<(nat, nat)>, a: nat, name: string)
    requires Distinct(es) && a < cols
    requires forall i :: 0 <= i < |es| ==> Contribution(vs, names, cols, es[i]).Ok?
    ensures |Recipes(vs, names, cols, es, a, name)| == |Members(vs, names, es, a, name)|
  {
    if |es| == 0 {
      assert Members(vs, names, es, a, name) == {};
    } else {
      var e := es[0];
      var rest := es[1..];
      assert Distinct(rest);
      assert forall i :: 0 <= i < |rest| ==> rest[i] == es[i + 1];
      RecipesCountMembers(vs, names, cols, rest, a, name);
      ContributionNamed(vs, names, cols, e, name);
      MembersStep(vs, names, es, a, name);
    }
  }

  /** An element that contributes reports `name` exactly when its vertex is an instance of it. */
  lemma ContributionNamed(vs: seq<Vertex>, names: seq<string>, cols: nat, e: (nat, nat), name: string)
    requires Contribution(vs, names, cols, e).Ok?
    ensures var c := Contribution(vs, names, cols, e).value;
      c.Some? && c.value.0 == name <==> Named(vs, names, e.0, name)
  {
  }

  /** The members of the elements are those of the tail, plus the head's vertex when it is a
      new one of `name` in aggregate `a`. */
  lemma MembersStep(vs: seq<Vertex>, names: seq<string>, es: seq<(nat, nat)>, a: nat, name: string)
    requires |es| > 0 && Distinct(es)
    ensures var e := es[0];
      var m' := Members(vs, names, es[1..], a, name);
      if e.1 == a && Named(vs, names, e.0, name)
      then Members(vs, names, es, a, name) == m' + {e.0} && e.0 !in m'
      else Members(vs, names, es, a, name) == m'
  {
    var e := es[0];
    var rest := es[1..];
    assert forall q :: q in es <==> q == e || q in rest;
    if e.1 == a && Named(vs, names, e.0, name) {
      assert e !in rest;
    }
  }

  /** The counts of a row are the numbers of instance vertices of each ingredient that reach the
      row's aggregate through the level's matrices. */
  lemma CountsAreReachingInstances(h: Hierarchy, level: nat, targets: seq<string>, a: nat, name: string)
    requires GenerateRecipes(h, level, targets).Ok?
    requires PartitionUpTo(h.matrices, Depth(level)).Ok?
    requires a < PartitionUpTo(h.matrices, Depth(level)).value.cols
    ensures var p := PartitionUpTo(h.matrices, Depth(level)).value;
      InstanceCount(h, p, a, name) ==
        |set i: nat | i < |h.relation.vertices| && Reaches(h.matrices, Depth(level), i, a) && Named(h.relation.vertices, h.names, i, name)|
  {
    var k := Depth(level);
    var p := PartitionUpTo(h.matrices, k).value;
    var vs, names := h.relation.vertices, h.names;
    PartitionPaths(h.matrices, k);
    AggregateSucceeds(vs, names, p.elements, EmptyBuckets(p.cols));
    RecipesCountMembers(vs, names, p.cols, p.elements, a, name);
    assert Members(vs, names, p.elements, a, name) == set i: nat | i < |vs| && Reaches(h.matrices, k, i, a) && Named(vs, names, i, name);
  }

  /** Every element of the partition names a vertex of the arena, and every instance among
      them an ingredient of the name list and a column of the partition. */
  predicate InRange(h: Hierarchy, p: Result<Interpolation, Failure>) {
    p.Ok? && forall e :: e in p.value.elements ==> Contribution(h.relation.vertices, h.names, p.value.cols, e).Ok?
  }

  /** `generate_recipes` succeeds exactly when the level exists, the matrices up to it chain, and
      the partition only names vertices, ingredients and aggregates that exist. */
  lemma GenerateRecipesSucceeds(h: Hierarchy, level: nat, targets: seq<string>)
    ensures GenerateRecipes(h, level, targets).Ok? <==>
      && Depth(level) <= |h.matrices|
      && ChainedUpTo(h.matrices, Depth(level))
      && InRange(h, PartitionUpTo(h.matrices, Depth(level)))
  {
    if Depth(level) <= |h.matrices| {
      PartitionPaths(h.matrices, Depth(level));
      var p := PartitionUpTo(h.matrices, Depth(level));
      if p.Ok? {
        AggregateSucceeds(h.relation.vertices, h.names, p.value.elements, EmptyBuckets(p.value.cols));
        assert forall e :: e in p.value.elements <==> exists i :: 0 <= i < |p.value.elements| && p.value.elements[i] == e;
      }
    }
  }
}
