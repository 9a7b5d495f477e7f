/** `src/co_occurrence.rs`: the recipe x ingredient incidence matrix, its Gram product
    `Rt * R` and the text written out for it. Ids are assigned by the same first-seen loop as
    in `src/table.rs`, so the `Table` index is reused. */
module CoOccurrence {
  import opened Results
  import opened Seqs
  import Text
  import Table

  /** A sparse matrix as its dimensions and `(row, column, value)` elements. Elements at the
      same position add up. */
  datatype Coo = Coo(rows: nat, cols: nat, elements: seq<(nat, nat, nat)>)

  /** A recipe as its database id and its ingredient names. */
  type Recipe = (int, seq<string>)

  function Names(recipes: seq<Recipe>): (r: seq<seq<string>>)
    ensures |r| == |recipes| && forall i :: 0 <= i < |r| ==> r[i] == recipes[i].1
  {
    seq(|recipes|, i requires 0 <= i < |recipes| => recipes[i].1)
  }

  /** The three results of `recipe_ingredient`: the incidence matrix, the name map holding
      `(id, count)` and the name list. */
  datatype Incidence = Incidence(matrix: Coo, map_: map<string, (nat, nat)>, names: seq<string>)

  /** One `(i, j, 1)` element per occurrence, recipe by recipe. */
  function Ones(ps: seq<(nat, nat)>): (r: seq<(nat, nat, nat)>)
    ensures |r| == |ps| && forall k :: 0 <= k < |ps| ==> r[k] == (ps[k].0, ps[k].1, 1)
  {
    seq(|ps|, k requires 0 <= k < |ps| => (ps[k].0, ps[k].1, 1))
  }

  /** `recipe_ingredient` as written: the pattern `Some((id, mut _count))` binds a copy of the
      count, so `_count += 1` never reaches the map and every stored count stays 1. */
  function RecipeIngredient(recipes: seq<Recipe>): (r: Incidence)
    ensures r.matrix.rows == |recipes| && r.matrix.cols == |r.names|
    ensures forall s :: s in r.map_ ==> r.map_[s].1 == 1
  {
    var st := Table.IndexRecipes(Names(recipes));
    Incidence(Coo(|recipes|, |st.names|, Ones(Table.Incidence(st.vecs))),
              map s | s in st.ids :: (st.ids[s], 1), st.names)
  }

  /** `recipe_ingredient` with the count incremented in the map, as the loop evidently
      intends. */
  function RecipeIngredientCounted(recipes: seq<Recipe>): (r: Incidence)
    ensures r.matrix.rows == |recipes| && r.matrix.cols == |r.names|
  {
    var st := Table.IndexRecipes(Names(recipes));
    Incidence(Coo(|recipes|, |st.names|, Ones(Table.Incidence(st.vecs))),
              map s | s in st.ids && st.ids[s] < |st.counts| :: (st.ids[s], st.counts[st.ids[s]]), st.names)
  }

  /** Whatever the count, the map's ids invert the name list, in first-seen order. */
  lemma RecipeIngredientIds(recipes: seq<Recipe>)
    ensures var r := RecipeIngredient(recipes);
      && r.names == FirstSeen(Flatten(Names(recipes)))
      && (forall j :: 0 <= j < |r.names| ==> r.names[j] in r.map_ && r.map_[r.names[j]].0 == j)
      && (forall s :: s in r.map_ ==> r.map_[s].0 < |r.names| && r.names[r.map_[s].0] == s)
      && (forall s :: s in r.map_ <==> exists i :: 0 <= i < |recipes| && s in recipes[i].1)
  {
    var ns := Names(recipes);
    var r := RecipeIngredient(recipes);
    Table.IngredientMapIds(ns);
    forall s ensures s in r.map_ <==> exists i :: 0 <= i < |recipes| && s in recipes[i].1 {
      NamesMember(recipes, s);
    }
  }

  lemma NamesMember(recipes: seq<Recipe>, s: string)
    ensures (exists i :: 0 <= i < |recipes| && s in Names(recipes)[i]) <==> exists i :: 0 <= i < |recipes| && s in recipes[i].1
  {
    if exists i :: 0 <= i < |recipes| && s in recipes[i].1 {
      var i :| 0 <= i < |recipes| && s in recipes[i].1;
      assert s in Names(recipes)[i];
    }
  }

  /** Two recipes with salt: the stored count is 1 where 2 occurrences were read. */
  lemma CountExample()
    ensures var recipes: seq<Recipe> := [(7, ["salt"]), (8, ["salt"])];
      && RecipeIngredient(recipes).map_["salt"] == (0, 1)
      && RecipeIngredientCounted(recipes).map_["salt"] == (0, 2)
      && Table.Occurrences(Names(recipes), "salt") == 2
  {
    var recipes: seq<Recipe> := [(7, ["salt"]), (8, ["salt"])];
    var ns := Names(recipes);
    assert ns == [["salt"], ["salt"]];
    assert ns[..1] == [["salt"]];
    assert Flatten(ns) == ["salt", "salt"] by {
      assert Flatten(ns[..1]) == ["salt"] by {
        assert ns[..1][..0] == [];
      }
    }
    var st := Table.IndexRecipes(ns);
    Table.IndexRecipesIndexed(ns);
    assert multiset(Flatten(ns))["salt"] == 2;
    assert "salt" in st.ids;
    assert st.names == ["salt"] by {
      assert FirstSeen(["salt", "salt"]) == ["salt"] by {
        assert ["salt", "salt"][..1] == ["salt"];
        assert ["salt"][..0] == [];
      }
    }
    Table.OccurrencesFlatten(ns, "salt");
  }

  /** With the count incremented, each stored count is the number of occurrences of its
      name over all recipes. */
  lemma RecipeIngredientCountedCounts(recipes: seq<Recipe>)
    ensures var r := RecipeIngredientCounted(recipes);
      && (forall s :: s in r.map_ <==> exists i :: 0 <= i < |recipes| && s in recipes[i].1)
      && forall s :: s in r.map_ ==>
           && r.map_[s].0 < |r.names| && r.names[r.map_[s].0] == s
           && r.map_[s].1 == Table.Occurrences(Names(recipes), s)
  {
    var ns := Names(recipes);
    var st := Table.IndexRecipes(ns);
    Table.IngredientMapIds(ns);
    Table.IngredientMapCounts(ns);
    var r := RecipeIngredientCounted(recipes);
    forall s ensures s in r.map_ <==> exists i :: 0 <= i < |recipes| && s in recipes[i].1 {
      NamesMember(recipes, s);
    }
  }

  // ---------------------------------------------------------------------------
  // entries of the incidence matrix

  /** The value at `(i, j)`: the sum of the elements placed there. */
  function Entry(es: seq<(nat, nat, nat)>, i: nat, j: nat): nat {
    if |es| == 0 then 0
    else
      var e := es[|es| - 1];
      Entry(es[..|es| - 1], i, j) + (if e.0 == i && e.1 == j then e.2 else 0)
  }

  lemma {:induction false} EntryOnes(ps: seq<(nat, nat)>, i: nat, j: nat)
    ensures Entry(Ones(ps), i, j) == multiset(ps)[(i, j)]
  {
    if |ps| > 0 {
      var n := |ps| - 1;
      assert Ones(ps)[..n] == Ones(ps[..n]);
      EntryOnes(ps[..n], i, j);
      assert ps == ps[..n] + [ps[n]];
    }
  }

  function Row(i: nat, v: seq<nat>): (r: seq<(nat, nat)>)
    ensures |r| == |v| && forall k :: 0 <= k < |v| ==> r[k] == (i, v[k])
  {
    seq(|v|, k requires 0 <= k < |v| => (i, v[k]))
  }

  lemma {:induction false} RowCount(i: nat, v: seq<nat>, r: nat, a: nat)
    ensures multiset(Row(i, v))[(r, a)] == if r == i then multiset(v)[a] else 0
  {
    if |v| > 0 {
      var n := |v| - 1;
      assert Row(i, v) == Row(i, v[..n]) + [(i, v[n])];
      assert v == v[..n] + [v[n]];
      RowCount(i, v[..n], r, a);
    }
  }

  /** The incidence points hold `(r, a)` as often as vec `r` holds `a`. */
  lemma {:induction false} IncidenceCount(vecs: seq<seq<nat>>, r: nat, a: nat)
    ensures multiset(Table.Incidence(vecs))[(r, a)] == if r < |vecs| then multiset(vecs[r])[a] else 0
  {
    if |vecs| > 0 {
      var n := |vecs| - 1;
      IncidenceCount(vecs[..n], r, a);
      assert Table.Incidence(vecs) == Table.Incidence(vecs[..n]) + Row(n, vecs[n]);
      RowCount(n, vecs[n], r, a);
    }
  }

  /** A vec holds id `a` as often as its recipe lists the name with that id. */
  lemma {:induction false} VecCount(v: seq<nat>, names: seq<string>, ids: map<string, nat>, list: seq<string>, a: nat)
    requires |v| == |names| && a < |list|
    requires forall k :: 0 <= k < |names| ==> names[k] in ids && v[k] == ids[names[k]]
    requires forall s :: s in ids ==> (ids[s] == a <==> s == list[a])
    ensures multiset(v)[a] == multiset(names)[list[a]]
  {
    if |v| > 0 {
      var n := |v| - 1;
      assert v == v[..n] + [v[n]];
      assert names == names[..n] + [names[n]];
      VecCount(v[..n], names[..n], ids, list, a);
    }
  }

  /** Entry `(r, a)` of the incidence matrix is the number of times recipe `r` lists the
      ingredient with id `a`. */
  lemma IncidenceEntry(recipes: seq<Recipe>, r: nat, a: nat)
    requires r < |recipes|
    ensures var m := RecipeIngredient(recipes);
      a < |m.names| ==> Entry(m.matrix.elements, r, a) == multiset(recipes[r].1)[m.names[a]]
  {
    var ns := Names(recipes);
    var st := Table.IndexRecipes(ns);
    EntryOnes(Table.Incidence(st.vecs), r, a);
    IncidenceCount(st.vecs, r, a);
    if a < |st.names| {
      Table.IndexRecipesIndexed(ns);
      Table.IndexRecipesVecs(ns);
      Table.IdsInverse(st, Flatten(ns));
      VecCount(st.vecs[r], ns[r], st.ids, st.names, a);
    }
  }

  /** One `(i, j, 1)` element per occurrence: the elements at `(i, j)` count how often recipe
      `i` lists ingredient `j`, and there is one element per listed name. */
  lemma RecipeIngredientElements(recipes: seq<Recipe>)
    ensures var m := RecipeIngredient(recipes);
      && |m.matrix.elements| == TotalSize(Names(recipes))
      && (forall k :: 0 <= k < |m.matrix.elements| ==>
            m.matrix.elements[k].0 < |recipes| && m.matrix.elements[k].1 < |m.names| && m.matrix.elements[k].2 == 1)
      && forall r: nat, a: nat :: r < |recipes| && a < |m.names| ==>
           Entry(m.matrix.elements, r, a) == multiset(recipes[r].1)[m.names[a]]
  {
    IncidenceBounds(recipes);
    var m := RecipeIngredient(recipes);
    forall r: nat, a: nat | r < |recipes| && a < |m.names|
      ensures Entry(m.matrix.elements, r, a) == multiset(recipes[r].1)[m.names[a]]
    {
      IncidenceEntry(recipes, r, a);
    }
  }

  /** One element per listed ingredient, each a 1 at a recipe row and an ingredient column. */
  lemma IncidenceBounds(recipes: seq<Recipe>)
    ensures var m := RecipeIngredient(recipes);
      && |m.matrix.elements| == TotalSize(Names(recipes))
      && (forall k :: 0 <= k < |m.matrix.elements| ==>
            m.matrix.elements[k].0 < |recipes| && m.matrix.elements[k].1 < |m.names| && m.matrix.elements[k].2 == 1)
  {
    var ns := Names(recipes);
    var st := Table.IndexRecipes(ns);
    Table.IndexRecipesVecs(ns);
    Table.IndexRecipesIndexed(ns);
    Table.IdsInverse(st, Flatten(ns));
    var ps := Table.Incidence(st.vecs);
    forall k | 0 <= k < |ps| ensures ps[k].0 < |recipes| && ps[k].1 < |st.names| {
      Table.IncidenceMember(st.vecs, ps[k]);
      var j :| 0 <= j < |st.vecs[ps[k].0]| && st.vecs[ps[k].0][j] == ps[k].1;
    }
    assert TotalSize(st.vecs) == TotalSize(ns) by {
      SameSizes(st.vecs, ns);
    }
  }


  lemma {:induction false} SameSizes<S, T>(a: seq<seq<S>>, b: seq<seq<T>>)
    requires |a| == |b| && forall i :: 0 <= i < |a| ==> |a[i]| == |b[i]|
    ensures TotalSize(a) == TotalSize(b)
  {
    if |a| > 0 {
      SameSizes(a[..|a| - 1], b[..|b| - 1]);
    }
  }

  // ---------------------------------------------------------------------------
  // make_relation

  /** Entry `(a, b)` of `Rt * R` summed over the first `rows` rows of `R`. */
  function GramEntry(es: seq<(nat, nat, nat)>, rows: nat, a: nat, b: nat): nat {
    if rows == 0 then 0 else GramEntry(es, rows - 1, a, b) + Entry(es, rows - 1, a) * Entry(es, rows - 1, b)
  }

  lemma {:induction false} GramSymmetric(es: seq<(nat, nat, nat)>, rows: nat, a: nat, b: nat)
    ensures GramEntry(es, rows, a, b) == GramEntry(es, rows, b, a)
  {
    if rows > 0 {
      GramSymmetric(es, rows - 1, a, b);
    }
  }

  /** `Rt * R` over the first `rows` rows, as a function of `(a, b)`. */
  function Gram(es: seq<(nat, nat, nat)>, rows: nat): (nat, nat) -> nat {
    (a: nat, b: nat) => GramEntry(es, rows, a, b)
  }

  /** The nonzero entries of the first `k` rows of the `n x n` Gram matrix, row by row. */
  function GramPoints(es: seq<(nat, nat, nat)>, rows: nat, k: nat, n: nat): seq<(nat, nat, nat)> {
    Grid(Gram(es, rows), k, Width(n))
  }

  /** Every row of the square matrix has `n` columns. */
  function Width(n: nat): nat -> nat {
    _ => n
  }

  lemma GramPointsMember(es: seq<(nat, nat, nat)>, rows: nat, k: nat, n: nat, p: (nat, nat, nat))
    ensures p in GramPoints(es, rows, k, n) <==> p.0 < k && p.1 < n && p.2 == GramEntry(es, rows, p.0, p.1) && p.2 != 0
  {
    GridMember(Gram(es, rows), k, Width(n), p);
  }

  /** `Relation`: the name map, the name list, `Rt * R` and the number of recipes. */
  datatype Relation = Relation(map_: map<string, (nat, nat)>, names: seq<string>, matrix: Coo, recipeCount: nat)

  /** `make_relation`. The product keeps its nonzero entries in row-major order. */
  function MakeRelation(recipes: seq<Recipe>): (r: Relation)
    ensures r.recipeCount == |recipes|
    ensures r.matrix.rows == r.matrix.cols == |r.names|
  {
    var inc := RecipeIngredient(recipes);
    var n := |inc.names|;
    Relation(inc.map_, inc.names, Coo(n, n, GramPoints(inc.matrix.elements, |recipes|, n, n)), |recipes|)
  }

  /** `Rt * R` is symmetric. */
  lemma RelationSymmetric(recipes: seq<Recipe>)
    ensures var es := MakeRelation(recipes).matrix.elements;
      forall p :: p in es ==> (p.1, p.0, p.2) in es
  {
    var inc := RecipeIngredient(recipes);
    var n := |inc.names|;
    var es := MakeRelation(recipes).matrix.elements;
    forall p | p in es ensures (p.1, p.0, p.2) in es {
      GramPointsMember(inc.matrix.elements, |recipes|, n, n, p);
      GramPointsMember(inc.matrix.elements, |recipes|, n, n, (p.1, p.0, p.2));
      GramSymmetric(inc.matrix.elements, |recipes|, p.0, p.1);
    }
  }

  /** Each recipe lists each of its ingredients once, as `array_agg(DISTINCT ...)` provides. */
  predicate DistinctIngredients(recipes: seq<Recipe>) {
    forall i :: 0 <= i < |recipes| ==> Distinct(recipes[i].1)
  }

  /** Over the first `k` recipes, the Gram entry counts the recipes listing both names. */
  lemma {:induction false} GramCounts(recipes: seq<Recipe>, k: nat, a: nat, b: nat)
    requires DistinctIngredients(recipes) && k <= |recipes|
    requires a < |RecipeIngredient(recipes).names| && b < |RecipeIngredient(recipes).names|
    ensures var m := RecipeIngredient(recipes);
      GramEntry(m.matrix.elements, k, a, b) == Table.RecipesWithBoth(Names(recipes)[..k], m.names[a], m.names[b])
  {
    if k > 0 {
      var m := RecipeIngredient(recipes);
      GramCounts(recipes, k - 1, a, b);
      IncidenceEntry(recipes, k - 1, a);
      IncidenceEntry(recipes, k - 1, b);
      DistinctCount(recipes[k - 1].1, m.names[a]);
      DistinctCount(recipes[k - 1].1, m.names[b]);
      assert Names(recipes)[..k][..k - 1] == Names(recipes)[..k - 1];
    }
  }

  /** With distinct ingredients per recipe, the entries of `Rt * R` are exactly the nonzero
      pair counts: off the diagonal the recipes listing both names, on the diagonal the recipes
      listing the name. */
  lemma RelationCounts(recipes: seq<Recipe>)
    requires DistinctIngredients(recipes)
    ensures var rel := MakeRelation(recipes);
      forall p :: p in rel.matrix.elements <==>
        && p.0 < |rel.names| && p.1 < |rel.names|
        && p.2 > 0
        && p.2 == Table.RecipesWithBoth(Names(recipes), rel.names[p.0], rel.names[p.1])
  {
    var inc := RecipeIngredient(recipes);
    var n := |inc.names|;
    assert Names(recipes)[..|recipes|] == Names(recipes);
    forall p: (nat, nat, nat) ensures p in MakeRelation(recipes).matrix.elements <==>
      p.0 < n && p.1 < n && p.2 > 0 && p.2 == Table.RecipesWithBoth(Names(recipes), inc.names[p.0], inc.names[p.1])
    {
      GramPointsMember(inc.matrix.elements, |recipes|, n, n, p);
      if p.0 < n && p.1 < n {
        GramCounts(recipes, |recipes|, p.0, p.1);
      }
    }
  }

  /** The diagonal counts the recipes listing the name. */
  lemma RecipesWithSelf(recipes: seq<seq<string>>, a: string)
    ensures Table.RecipesWithBoth(recipes, a, a) == |set i | 0 <= i < |recipes| && a in recipes[i]|
  {
    var s := set i | 0 <= i < |recipes| && a in recipes[i];
    if |recipes| > 0 {
      var n := |recipes| - 1;
      RecipesWithSelf(recipes[..n], a);
      var t := set i | 0 <= i < n && a in recipes[..n][i];
      assert s == t + (if a in recipes[n] then {n} else {});
    }
  }

  // ---------------------------------------------------------------------------
  // write_files

  /** The coolist text: the off-diagonal elements as "i j val" lines joined by newlines. */
  function RelationCoolist(rel: Relation): string {
    Text.TripleLines(OffDiagonal(rel.matrix.elements))
  }

  function OffDiagonal(es: seq<(nat, nat, nat)>): (r: seq<(nat, nat, nat)>)
    ensures forall p :: p in r <==> p in es && p.0 != p.1
  {
    if |es| == 0 then []
    else
      var e := es[|es| - 1];
      OffDiagonal(es[..|es| - 1]) + (if e.0 != e.1 then [e] else [])
  }

  /** The coolist reads back as the elements with `i != j`, in their order. */
  lemma RelationCoolistRoundTrip(rel: Relation)
    ensures Text.ParseTripleLines(RelationCoolist(rel)).Some?
    ensures var ts := Text.ParseTripleLines(RelationCoolist(rel)).value;
      forall p :: p in ts <==> p in rel.matrix.elements && p.0 != p.1
  {
    Text.TripleLinesRoundTrip(OffDiagonal(rel.matrix.elements));
  }

  /** The label text: the name list joined by newlines. */
  function Labels(rel: Relation): string {
    Text.Join(rel.names, "\n")
  }

  /** Splitting the label text at newlines gives back the name list when no name holds a
      newline. */
  lemma LabelsRoundTrip(rel: Relation)
    requires |rel.names| >= 1 && forall k :: 0 <= k < |rel.names| ==> '\n' !in rel.names[k]
    ensures Text.Split(Labels(rel), '\n') == rel.names
  {
    Text.SplitJoin(rel.names, '\n');
  }
}
