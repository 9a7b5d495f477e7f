/** `src/lib.rs`: the database names and the CSR text export read by the embedding tool. */
module Lib {
  import opened Results
  import opened Text

  // ---------------------------------------------------------------------------
  // databases

  datatype Databases = Recipes | RecipeApi

  /** `Databases::to_str`. */
  function ToStr(db: Databases): string {
    match db
    case Recipes => "recipes"
    case RecipeApi => "recipe_api"
  }

  /** The database a name stands for, if any. */
  function FromStr(name: string): (r: Option<Databases>)
    ensures r.Some? ==> ToStr(r.value) == name
  {
    if name == "recipes" then Some(Recipes)
    else if name == "recipe_api" then Some(RecipeApi)
    else None
  }

  /** Each database has its own name: reading a name back gives the database. */
  lemma ToStrRoundTrip(db: Databases)
    ensures FromStr(ToStr(db)) == Some(db)
  {
    match db
    case Recipes =>
    case RecipeApi =>
      assert |ToStr(db)| != |"recipes"|;
  }

  // ---------------------------------------------------------------------------
  // export

  /** A compressed-sparse-row matrix as the accessors `num_rows`, `num_columns`, `get_rows`,
      `get_columns` and `get_data` show it. */
  datatype Csr = Csr(rows: nat, cols: nat, indptr: seq<nat>, indices: seq<nat>, data: seq<nat>)

  /** The shape a CSR matrix has: one row pointer per row plus one, and as many column indices
      and values as the last pointer says. */
  predicate WellFormed(m: Csr) {
    && |m.indptr| == m.rows + 1
    && |m.indices| == |m.data| == m.indptr[m.rows]
  }

  /** Each value as `"\n{}"`, concatenated. */
  function Prefixed(xs: seq<nat>): string {
    if |xs| == 0 then "" else "\n" + NatToString(xs[0]) + Prefixed(xs[1..])
  }

  /** `export`: `"{rows}\n{cols}"` followed by the prefixed row pointers, column indices and
      values. */
  function Export(m: Csr): string {
    NatToString(m.rows) + "\n" + NatToString(m.cols) + Prefixed(m.indptr) + Prefixed(m.indices) + Prefixed(m.data)
  }

  /** The values written, in order. */
  function Values(m: Csr): (r: seq<nat>)
    ensures |r| == 2 + |m.indptr| + |m.indices| + |m.data|
  {
    [m.rows] + Rest(m)
  }

  /** The values after the row count. */
  function Rest(m: Csr): seq<nat> {
    [m.cols] + (m.indptr + (m.indices + m.data))
  }

  /** The decimal of each value, in order. */
  function Strs(xs: seq<nat>): (r: seq<string>)
    ensures |r| == |xs|
  {
    if |xs| == 0 then [] else [NatToString(xs[0])] + Strs(xs[1..])
  }

  lemma {:induction false} StrsAt(xs: seq<nat>, k: nat)
    requires k < |xs|
    ensures Strs(xs)[k] == NatToString(xs[k])
  {
    var rest := xs[1..];
    assert Strs(xs) == [NatToString(xs[0])] + Strs(rest);
    if k > 0 {
      assert xs[k] == rest[k - 1];
      StrsAt(rest, k - 1);
    }
  }

  lemma {:induction false} PrefixedAppend(a: seq<nat>, b: seq<nat>)
    ensures Prefixed(a + b) == Prefixed(a) + Prefixed(b)
  {
    if |a| > 0 {
      assert (a + b)[0] == a[0];
      assert (a + b)[1..] == a[1..] + b;
      PrefixedAppend(a[1..], b);
      var h := "\n" + NatToString(a[0]);
      calc {
        Prefixed(a + b);
        h + Prefixed(a[1..] + b);
        h + (Prefixed(a[1..]) + Prefixed(b));
        (h + Prefixed(a[1..])) + Prefixed(b);
        Prefixed(a) + Prefixed(b);
      }
    } else {
      assert a + b == b;
    }
  }

  /** A line followed by prefixed values is the newline join of the line and the values. */
  lemma {:induction false} PrefixedJoin(s: string, xs: seq<nat>)
    ensures s + Prefixed(xs) == Join([s] + Strs(xs), "\n")
    decreases |xs|
  {
    if |xs| > 0 {
      var t := NatToString(xs[0]);
      PrefixedJoin(t, xs[1..]);
      assert [t] + Strs(xs[1..]) == Strs(xs);
      assert ([s] + Strs(xs))[1..] == Strs(xs);
    } else {
      assert [s] + Strs(xs) == [s];
    }
  }

  /** The export is the values written one per line, joined by newlines: no trailing newline. */
  lemma ExportLines(m: Csr)
    ensures Export(m) == Join(Strs(Values(m)), "\n")
  {
    ExportPrefixed(m);
    PrefixedJoin(NatToString(m.rows), Rest(m));
    StrsCons(m.rows, Rest(m));
  }

  lemma StrsCons(x: nat, rest: seq<nat>)
    ensures Strs([x] + rest) == [NatToString(x)] + Strs(rest)
  {
    assert ([x] + rest)[1..] == rest;
  }

  lemma ExportPrefixed(m: Csr)
    ensures Export(m) == NatToString(m.rows) + Prefixed(Rest(m))
  {
    var c := "\n" + NatToString(m.cols);
    assert Prefixed([m.cols]) == c by {
      assert [m.cols][1..] == [];
    }
    PrefixedAppend([m.cols], m.indptr + (m.indices + m.data));
    PrefixedAppend(m.indptr, m.indices + m.data);
    PrefixedAppend(m.indices, m.data);
    Regroup(NatToString(m.rows), NatToString(m.cols), Prefixed(m.indptr), Prefixed(m.indices), Prefixed(m.data));
  }

  lemma Regroup(a: string, b: string, p: string, q: string, d: string)
    ensures a + "\n" + b + p + q + d == a + (("\n" + b) + (p + (q + d)))
  {
  }

  /** Reads the lines back: rows, columns, then `rows + 1` pointers and as many indices and
      values as the last pointer says. */
  function ParseExport(text: string): (r: Option<Csr>)
    ensures r.Some? ==> WellFormed(r.value)
  {
    ParseLines(Split(text, '\n'))
  }

  function ParseLines(lines: seq<string>): (r: Option<Csr>)
    ensures r.Some? ==> WellFormed(r.value)
  {
    if |lines| < 2 then None
    else
      var rows :- ParseNat(lines[0]);
      var cols :- ParseNat(lines[1]);
      if |lines| < 3 + rows then None
      else
        var indptr :- ParseNats(lines[2..3 + rows]);
        var nnz := indptr[rows];
        if |lines| != 3 + rows + 2 * nnz then None
        else
          var indices :- ParseNats(lines[3 + rows..3 + rows + nnz]);
          var data :- ParseNats(lines[3 + rows + nnz..]);
          Some(Csr(rows, cols, indptr, indices, data))
  }

  function ParseNats(lines: seq<string>): (r: Option<seq<nat>>)
    ensures r.Some? ==> |r.value| == |lines|
  {
    if |lines| == 0 then Some([])
    else
      var x :- ParseNat(lines[0]);
      var rest :- ParseNats(lines[1..]);
      Some([x] + rest)
  }

  lemma {:induction false} ParseNatsStrs(xs: seq<nat>)
    ensures ParseNats(Strs(xs)) == Some(xs)
  {
    if |xs| > 0 {
      ParseNatToString(xs[0]);
      assert Strs(xs)[1..] == Strs(xs[1..]);
      ParseNatsStrs(xs[1..]);
      assert [xs[0]] + xs[1..] == xs;
    }
  }

  /** The export splits at newlines into the values written, one decimal per line. */
  lemma ExportSplit(m: Csr)
    ensures Split(Export(m), '\n') == Strs(Values(m))
  {
    var lines := Strs(Values(m));
    ExportLines(m);
    forall k | 0 <= k < |lines| ensures '\n' !in lines[k] {
      StrsAt(Values(m), k);
      NoWhitespaceInNumber(Values(m)[k]);
    }
    SplitJoin(lines, '\n');
  }

  lemma {:induction false} StrsAppend(a: seq<nat>, b: seq<nat>)
    ensures Strs(a + b) == Strs(a) + Strs(b)
  {
    if |a| > 0 {
      assert (a + b)[1..] == a[1..] + b;
      StrsAppend(a[1..], b);
    } else {
      assert a + b == b;
    }
  }

  /** Where each part sits in the lines `[x] + ([y] + (p + (i + d)))`. */
  lemma FourParts(x: string, y: string, p: seq<string>, i: seq<string>, d: seq<string>)
    ensures var s := [x] + ([y] + (p + (i + d)));
      && |s| == 2 + |p| + |i| + |d|
      && s[0] == x && s[1] == y
      && s[2..2 + |p|] == p
      && s[2 + |p|..2 + |p| + |i|] == i
      && s[2 + |p| + |i|..] == d
  {
    var s := [x] + ([y] + (p + (i + d)));
    assert s[2..] == p + (i + d);
    assert s[2 + |p|..] == i + d;
  }

  lemma ParseLinesStrs(m: Csr)
    requires WellFormed(m)
    ensures ParseLines(Strs(Values(m))) == Some(m)
  {
    var p, i, d := Strs(m.indptr), Strs(m.indices), Strs(m.data);
    StrsCons(m.rows, Rest(m));
    StrsCons(m.cols, m.indptr + (m.indices + m.data));
    StrsAppend(m.indptr, m.indices + m.data);
    StrsAppend(m.indices, m.data);
    ParseNatToString(m.rows);
    ParseNatToString(m.cols);
    ParseNatsStrs(m.indptr);
    ParseNatsStrs(m.indices);
    ParseNatsStrs(m.data);
    ParseLinesOf(NatToString(m.rows), NatToString(m.cols), p, i, d, m);
  }

  /** Lines holding the parts of a well-formed matrix in order read back as it. */
  lemma ParseLinesOf(x: string, y: string, p: seq<string>, i: seq<string>, d: seq<string>, m: Csr)
    requires WellFormed(m)
    requires ParseNat(x) == Some(m.rows) && ParseNat(y) == Some(m.cols)
    requires ParseNats(p) == Some(m.indptr) && ParseNats(i) == Some(m.indices) && ParseNats(d) == Some(m.data)
    ensures ParseLines([x] + ([y] + (p + (i + d)))) == Some(m)
  {
    FourParts(x, y, p, i, d);
  }

  /** A well-formed matrix exported and read back is the same matrix; the text has exactly
      `2 + |indptr| + |indices| + |data|` lines. */
  lemma ExportRoundTrip(m: Csr)
    requires WellFormed(m)
    ensures |Split(Export(m), '\n')| == 2 + |m.indptr| + |m.indices| + |m.data|
    ensures ParseExport(Export(m)) == Some(m)
  {
    ExportSplit(m);
    ParseLinesStrs(m);
  }
}
