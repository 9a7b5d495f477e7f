/** The pure part of `src/louvain.rs`: splitting the community-detection tool's
    "node group" line stream into one interpolation matrix per level. */
module Louvain {
  import opened Results
  import Text

  /** An `n × cols` 0/1 interpolation matrix: one `(node, group)` element of value 1 per
      record, in input order. */
  datatype Interpolation = Interpolation(rows: nat, cols: nat, elements: seq<(nat, nat)>)

  /** The `unwrap` panics of a record: a missing field, or a field that is not a `usize`. */
  datatype ParseError = MissingField | BadNumber

  function Field(words: seq<string>, i: nat): (r: Result<nat, ParseError>)
    ensures r.Ok? <==> i < |words| && Text.ParseUsize(words[i]).Some?
    ensures r.Ok? ==> r.value == Text.ParseUsize(words[i]).value
  {
    if i >= |words| then Err(MissingField)
    else
      match Text.ParseUsize(words[i])
      case None => Err(BadNumber)
      case Some(v) => Ok(v)
  }

  /** One line: blank after `trim` gives no record; otherwise the first two ASCII-whitespace
      separated fields are the node and its group. */
  function ParseRecord(line: string): (r: Result<Option<(nat, nat)>, ParseError>)
    ensures r == Ok(None) <==> Text.Trim(line) == ""
  {
    var t := Text.Trim(line);
    if t == "" then Ok(None)
    else
      var words := Text.Words(t);
      var node :- Field(words, 0);
      var group :- Field(words, 1);
      Ok(Some((node, group)))
  }

  /** `format!("{} {}", node, group)`: the record the tool writes. */
  function RecordLine(node: nat, group: nat): string {
    Text.NatToString(node) + " " + Text.NatToString(group)
  }

  lemma NumberNotWhitespace(n: nat)
    ensures var s := Text.NatToString(n); !Text.IsWhitespace(s[0]) && !Text.IsWhitespace(s[|s| - 1])
  {
    var s := Text.NatToString(n);
    assert Text.IsDigit(s[0]) && Text.IsDigit(s[|s| - 1]);
  }

  /** A written record reads back as the same node and group. */
  lemma RecordRoundTrip(node: nat, group: nat)
    requires node < Text.UsizeLimit && group < Text.UsizeLimit
    ensures ParseRecord(RecordLine(node, group)) == Ok(Some((node, group)))
  {
    var a, b := Text.NatToString(node), Text.NatToString(group);
    var line := RecordLine(node, group);
    NumberNotWhitespace(node);
    NumberNotWhitespace(group);
    assert line[0] == a[0] && line[|line| - 1] == b[|b| - 1];
    assert Text.TrimStart(line) == line;
    assert Text.TrimEnd(line) == line;
    Text.NoWhitespaceInNumber(node);
    Text.NoWhitespaceInNumber(group);
    assert Text.Join([a, b], " ") == line by {
      assert [a, b][1..] == [b];
    }
    Text.WordsOfJoin([a, b]);
    Text.ParseUsizeToString(node);
    Text.ParseUsizeToString(group);
  }

  // ---------------------------------------------------------------------------
  // one level

  /** What one line reads as: a record, a blank line, or a panic. */
  type Record = Result<Option<(nat, nat)>, ParseError>

  /** The lines read one by one; `split` and `map` are lazy, but every read line is read in order. */
  function Records(lines: seq<string>): (r: seq<Record>)
    ensures |r| == |lines|
  {
    if |lines| == 0 then [] else [ParseRecord(lines[0])] + Records(lines[1..])
  }

  lemma {:induction false} RecordsAt(lines: seq<string>, i: nat)
    requires i < |lines|
    ensures Records(lines)[i] == ParseRecord(lines[i])
  {
    var rest := lines[1..];
    assert Records(lines) == [ParseRecord(lines[0])] + Records(rest);
    if i > 0 {
      assert lines[i] == rest[i - 1];
      RecordsAt(rest, i - 1);
    }
  }

  /** Number of records that are not blank lines. */
  function NonBlankCount(recs: seq<Record>): nat {
    if |recs| == 0 then 0
    else (if recs[0] == Ok(None) then 0 else 1) + NonBlankCount(recs[1..])
  }

  predicate AllParse(recs: seq<Record>) {
    forall i :: 0 <= i < |recs| ==> recs[i].Ok?
  }

  /** The `take(n)` pipeline of one level, continuing from the elements collected so far and
      the largest group seen so far (`num_aggregates`). */
  function ParseChunk(chunk: seq<Record>, elements: seq<(nat, nat)>, maxGroup: nat): Result<(seq<(nat, nat)>, nat), ParseError> {
    if |chunk| == 0 then Ok((elements, maxGroup))
    else
      match chunk[0]
      case Err(e) => Err(e)
      case Ok(None) => ParseChunk(chunk[1..], elements, maxGroup)
      case Ok(Some((node, group))) =>
        ParseChunk(chunk[1..], elements + [(node, group)], if group > maxGroup then group else maxGroup)
  }

  lemma {:induction false} ChunkSucceeds(chunk: seq<Record>, elements: seq<(nat, nat)>, maxGroup: nat)
    ensures ParseChunk(chunk, elements, maxGroup).Ok? <==> AllParse(chunk)
  {
    if |chunk| > 0 {
      assert forall i :: 1 <= i < |chunk| ==> chunk[i] == chunk[1..][i - 1];
      match chunk[0]
      case Err(_) =>
      case Ok(None) => ChunkSucceeds(chunk[1..], elements, maxGroup);
      case Ok(Some((node, group))) =>
        ChunkSucceeds(chunk[1..], elements + [(node, group)], if group > maxGroup then group else maxGroup);
    }
  }

  /** One level keeps the earlier elements, adds one element per non-blank line, and ends with
      the largest group among them. */
  lemma {:induction false} ChunkShape(chunk: seq<Record>, elements: seq<(nat, nat)>, maxGroup: nat)
    requires forall e :: e in elements ==> e.1 <= maxGroup
    requires ParseChunk(chunk, elements, maxGroup).Ok?
    ensures var (es, m) := ParseChunk(chunk, elements, maxGroup).value;
      && |es| == |elements| + NonBlankCount(chunk)
      && es[..|elements|] == elements
      && m >= maxGroup
      && (forall e :: e in es ==> e.1 <= m)
      && (m == maxGroup || exists e :: e in es && e.1 == m)
  {
    if |chunk| > 0 {
      match chunk[0]
      case Ok(None) =>
        ChunkShape(chunk[1..], elements, maxGroup);
      case Ok(Some((node, group))) =>
        var m := if group > maxGroup then group else maxGroup;
        var elements' := elements + [(node, group)];
        ChunkShape(chunk[1..], elements', m);
        var es := ParseChunk(chunk[1..], elements', m).value.0;
        assert es[..|elements|] == es[..|elements'|][..|elements|];
        assert (node, group) == es[|elements|];
    }
  }

  /** The number of lines the next level consumes. */
  function TakeCount(recs: seq<Record>, n: nat): (k: nat)
    ensures k <= |recs| && k <= n
    ensures k == |recs| || k == n
  {
    if n <= |recs| then n else |recs|
  }

  /** The matrices built from the remaining records when the next level has `n` vertices. */
  function Levels(recs: seq<Record>, n: nat): Result<seq<Interpolation>, ParseError>
    decreases |recs|, if n == 0 then 1 else 0
  {
    if |recs| == 0 then Ok([])
    else
      var k := TakeCount(recs, n);
      match ParseChunk(recs[..k], [], 0)
      case Err(e) => Err(e)
      case Ok((elements, maxGroup)) =>
        var rest := Levels(recs[k..], maxGroup + 1);
        if rest.Err? then Err(rest.error) else Ok([Interpolation(n, maxGroup + 1, elements)] + rest.value)
  }

  /** `build_interpolation_matrices` over the lines of the tool's output, `n` being the number
      of vertices of the expanded graph. */
  function ParseLevels(lines: seq<string>, n: nat): Result<seq<Interpolation>, ParseError>
  {
    Levels(Records(lines), n)
  }

  /** Every level has at least one row and one column, each column count is the next level's
      row count, and every element's group is a column. */
  predicate Chained(ms: seq<Interpolation>) {
    && (forall i :: 0 <= i < |ms| ==> ms[i].rows >= 1 && ms[i].cols >= 1)
    && (forall i :: 0 <= i < |ms| - 1 ==> ms[i].cols == ms[i + 1].rows)
    && (forall i, e :: 0 <= i < |ms| && e in ms[i].elements ==> e.1 < ms[i].cols)
  }

  lemma {:induction false} LevelsSucceed(recs: seq<Record>, n: nat)
    ensures Levels(recs, n).Ok? <==> AllParse(recs)
    decreases |recs|, if n == 0 then 1 else 0
  {
    if |recs| > 0 {
      var k := TakeCount(recs, n);
      assert forall i :: 0 <= i < |recs| ==> (i < k ==> recs[i] == recs[..k][i]) && (i >= k ==> recs[i] == recs[k..][i - k]);
      ChunkSucceeds(recs[..k], [], 0);
      if ParseChunk(recs[..k], [], 0).Ok? {
        LevelsSucceed(recs[k..], ParseChunk(recs[..k], [], 0).value.1 + 1);
      }
    }
  }

  /** The parse fails exactly when some line is neither blank nor a record. */
  lemma ParseLevelsSucceed(lines: seq<string>, n: nat)
    ensures ParseLevels(lines, n).Ok? <==> forall i :: 0 <= i < |lines| ==> ParseRecord(lines[i]).Ok?
  {
    LevelsSucceed(Records(lines), n);
    forall i | 0 <= i < |lines| ensures Records(lines)[i] == ParseRecord(lines[i]) {
      RecordsAt(lines, i);
    }
  }

  /** The first level has `n` rows, the levels chain, and there is a level exactly when
      there is a line. */
  lemma {:induction false} LevelsChained(recs: seq<Record>, n: nat)
    requires n >= 1
    requires Levels(recs, n).Ok?
    ensures var ms := Levels(recs, n).value;
      && (|ms| == 0 <==> |recs| == 0)
      && (|ms| > 0 ==> ms[0].rows == n)
      && Chained(ms)
    decreases |recs|
  {
    if |recs| > 0 {
      var k := TakeCount(recs, n);
      LevelsOkStep(recs, n);
      ChunkShape(recs[..k], [], 0);
      var c := ParseChunk(recs[..k], [], 0).value;
      LevelsChained(recs[k..], c.1 + 1);
      ChainedCons(Interpolation(n, c.1 + 1, c.0), Levels(recs[k..], c.1 + 1).value);
    }
  }

  lemma ChainedCons(m: Interpolation, rest: seq<Interpolation>)
    requires m.rows >= 1 && m.cols >= 1 && forall e :: e in m.elements ==> e.1 < m.cols
    requires Chained(rest) && (|rest| > 0 ==> rest[0].rows == m.cols)
    ensures Chained([m] + rest)
  {
    var ms := [m] + rest;
    assert forall i :: 1 <= i < |ms| ==> ms[i] == rest[i - 1];
  }

  lemma LevelsStep(recs: seq<Record>, n: nat)
    requires |recs| > 0
    ensures var k := TakeCount(recs, n);
      var c := ParseChunk(recs[..k], [], 0);
      Levels(recs, n) ==
        if c.Err? then Err(c.error)
        else
          var rest := Levels(recs[k..], c.value.1 + 1);
          if rest.Err? then Err(rest.error) else Ok([Interpolation(n, c.value.1 + 1, c.value.0)] + rest.value)
  {
  }

  /** A successful parse is the first level followed by the successful parse of the rest. */
  lemma LevelsOkStep(recs: seq<Record>, n: nat)
    requires |recs| > 0 && Levels(recs, n).Ok?
    ensures var k := TakeCount(recs, n);
      var c := ParseChunk(recs[..k], [], 0);
      && c.Ok?
      && Levels(recs[k..], c.value.1 + 1).Ok?
      && Levels(recs, n).value == [Interpolation(n, c.value.1 + 1, c.value.0)] + Levels(recs[k..], c.value.1 + 1).value
  {
    LevelsStep(recs, n);
  }

  /** The number of columns is one past the largest group of the level, or 1 without records. */
  predicate ColumnsFromGroups(m: Interpolation) {
    && m.cols >= 1
    && (forall e :: e in m.elements ==> e.1 < m.cols)
    && (m.cols == 1 || exists e :: e in m.elements && e.1 == m.cols - 1)
  }

  /** Total number of rows: the number of lines the levels consume when the input does not
      run out. */
  function Consumed(ms: seq<Interpolation>): nat {
    if |ms| == 0 then 0 else ms[0].rows + Consumed(ms[1..])
  }

  /** The first level reads `min(n, |recs|)` records, one element per non-blank one. */
  lemma LevelsConsumeFirst(recs: seq<Record>, n: nat)
    requires Levels(recs, n).Ok? && |recs| > 0
    ensures var ms := Levels(recs, n).value;
      var k := TakeCount(recs, n);
      && |ms| > 0
      && ms[0].rows == n
      && (|ms| == 1 <==> k == |recs|)
      && |ms[0].elements| == NonBlankCount(recs[..k])
      && ColumnsFromGroups(ms[0])
  {
    var k := TakeCount(recs, n);
    LevelsOkStep(recs, n);
    ChunkShape(recs[..k], [], 0);
    var c := ParseChunk(recs[..k], [], 0).value;
    LevelsChained(recs[k..], c.1 + 1);
    assert c.0[..0] == [];
  }

  /** Level `i` reads the `rows` lines that follow the rows of the earlier levels, fewer only at
      the end of the input; it holds one element per non-blank line among them, and its column
      count comes from its largest group. The levels stop once the input is used up. */
  predicate ReadsItsLines(recs: seq<Record>, ms: seq<Interpolation>, i: nat)
    requires i < |ms|
  {
    var lo := Consumed(ms[..i]);
    var hi := if lo + ms[i].rows <= |recs| then lo + ms[i].rows else |recs|;
    && lo < |recs|
    && (i == |ms| - 1 <==> hi == |recs|)
    && |ms[i].elements| == NonBlankCount(recs[lo..hi])
    && ColumnsFromGroups(ms[i])
  }

  lemma {:induction false} LevelsConsume(recs: seq<Record>, n: nat, ms: seq<Interpolation>, i: nat)
    requires Levels(recs, n) == Ok(ms)
    requires i < |ms|
    ensures ReadsItsLines(recs, ms, i)
    decreases |recs|, if n == 0 then 1 else 0
  {
    if i == 0 {
      ReadsFirstLevel(recs, n, ms);
    } else {
      LevelsShift(recs, n, i);
      var m := ParseChunk(recs[..n], [], 0).value.1 + 1;
      var rest := Levels(recs[n..], m).value;
      LevelsConsume(recs[n..], m, rest, i - 1);
      ReadsShift(recs, n, ms, rest, i);
    }
  }

  lemma ReadsFirstLevel(recs: seq<Record>, n: nat, ms: seq<Interpolation>)
    requires Levels(recs, n) == Ok(ms) && |ms| > 0
    ensures ReadsItsLines(recs, ms, 0)
  {
    LevelsConsumeFirst(recs, n);
    assert Consumed(ms[..0]) == 0 by {
      assert ms[..0] == [];
    }
    var k := TakeCount(recs, n);
    assert recs[0..k] == recs[..k];
  }

  /** Level `i` reads its lines when it is level `i - 1` of the records after the first `k`. */
  lemma ReadsShift(recs: seq<Record>, k: nat, ms: seq<Interpolation>, rest: seq<Interpolation>, i: nat)
    requires k <= |recs| && 0 < i < |ms| && |ms| == |rest| + 1 && ms[i] == rest[i - 1]
    requires Consumed(ms[..i]) == k + Consumed(rest[..i - 1])
    requires ReadsItsLines(recs[k..], rest, i - 1)
    ensures ReadsItsLines(recs, ms, i)
  {
    var lo' := Consumed(rest[..i - 1]);
    var hi' := if lo' + rest[i - 1].rows <= |recs| - k then lo' + rest[i - 1].rows else |recs| - k;
    SliceOfSlice(recs, k, lo', hi');
  }

  lemma SliceOfSlice<T>(s: seq<T>, k: nat, lo: nat, hi: nat)
    requires k <= |s| && lo <= hi <= |s| - k
    ensures s[k..][lo..hi] == s[k + lo..k + hi]
  {
  }

  /** Past the first level, the levels are those of the records after its `n` lines. */
  lemma LevelsShift(recs: seq<Record>, n: nat, i: nat)
    requires Levels(recs, n).Ok?
    requires 0 < i < |Levels(recs, n).value|
    ensures n < |recs| && ParseChunk(recs[..n], [], 0).Ok?
    ensures var ms := Levels(recs, n).value;
      var m := ParseChunk(recs[..n], [], 0).value.1 + 1;
      && Levels(recs[n..], m).Ok?
      && var rest := Levels(recs[n..], m).value;
      && |ms| == |rest| + 1
      && ms[i] == rest[i - 1]
      && Consumed(ms[..i]) == n + Consumed(rest[..i - 1])
  {
    var ms := Levels(recs, n).value;
    var k := TakeCount(recs, n);
    LevelsOkStep(recs, n);
    var m := ParseChunk(recs[..k], [], 0).value.1 + 1;
    var rest := Levels(recs[k..], m).value;
    assert ms[..i][1..] == rest[..i - 1];
  }

  /** With no vertices, `take(0)` reads no line: the first level is an empty matrix with no
      rows and one column, and the levels after it are those read with one vertex. */
  lemma NoVerticesLevels(recs: seq<Record>)
    requires |recs| > 0
    ensures Levels(recs, 0) == Glue([Interpolation(0, 1, [])], Levels(recs, 1))
  {
    LevelsStep(recs, 0);
    assert recs[..0] == [] && recs[0..] == recs;
    assert ParseChunk([], [], 0) == Ok(([], 0));
  }

  lemma SingleBlankRecord(n: nat)
    requires n >= 1
    ensures Levels([Ok(None)], n) == Ok([Interpolation(n, 1, [])])
  {
    var recs: seq<Record> := [Ok(None)];
    assert TakeCount(recs, n) == 1;
    assert recs[..1] == recs && recs[1..] == [];
    assert ParseChunk(recs, [], 0) == Ok(([], 0));
    LevelsStep(recs, n);
    assert Levels(recs[1..], 1) == Ok([]);
    assert Levels(recs, n).value == [Interpolation(n, 1, [])];
    assert Levels(recs, n) == Ok([Interpolation(n, 1, [])]);
  }

  /** A blank line after input that the levels consume exactly adds one empty level with a
      single column. */
  lemma {:induction false} TrailingBlankRecord(recs: seq<Record>, n: nat, ms: seq<Interpolation>)
    requires n >= 1 || |recs| > 0
    requires Levels(recs, n) == Ok(ms) && Consumed(ms) == |recs|
    ensures var last := if |ms| == 0 then n else ms[|ms| - 1].cols;
      Levels(recs + [Ok(None)], n) == Ok(ms + [Interpolation(last, 1, [])])
    decreases |recs|, if n == 0 then 1 else 0
  {
    var recs' := recs + [Ok(None)];
    if n == 0 {
      var z := Interpolation(0, 1, []);
      NoVerticesLevels(recs);
      NoVerticesLevels(recs');
      var rest := Levels(recs, 1).value;
      assert ms == [z] + rest;
      assert ms[1..] == rest;
      TrailingBlankRecord(recs, 1, rest);
      var last := if |rest| == 0 then 1 else rest[|rest| - 1].cols;
      ConsLast(z, rest, Interpolation(last, 1, []));
    } else if |recs| == 0 {
      assert recs' == [Ok(None)];
      assert ms == [];
      SingleBlankRecord(n);
      assert ms + [Interpolation(n, 1, [])] == [Interpolation(n, 1, [])];
    } else {
      LevelsOkStep(recs, n);
      var k := TakeCount(recs, n);
      var c := ParseChunk(recs[..k], [], 0).value;
      var m := Interpolation(n, c.1 + 1, c.0);
      var rest := Levels(recs[k..], c.1 + 1).value;
      assert ms[1..] == rest;
      assert k == n;
      TrailingBlankRecord(recs[k..], c.1 + 1, rest);
      LevelsAppend(recs, n, [Ok(None)], c.0, c.1);
      var last := if |rest| == 0 then c.1 + 1 else rest[|rest| - 1].cols;
      var x := Interpolation(last, 1, []);
      assert Levels(recs[n..] + [Ok(None)], c.1 + 1) == Ok(rest + [x]);
      assert Levels(recs', n) == Ok([m] + (rest + [x]));
      ConsLast(m, rest, x);
    }
  }

  lemma ConsLast(m: Interpolation, rest: seq<Interpolation>, x: Interpolation)
    ensures [m] + (rest + [x]) == ([m] + rest) + [x]
    ensures ([m] + rest)[|rest|] == if |rest| == 0 then m else rest[|rest| - 1]
  {
  }

  /** Records appended after the first level's lines leave that level unchanged. */
  lemma LevelsAppend(recs: seq<Record>, n: nat, tail: seq<Record>, es: seq<(nat, nat)>, g: nat)
    requires 1 <= n <= |recs|
    requires ParseChunk(recs[..n], [], 0) == Ok((es, g))
    ensures Levels(recs + tail, n) == Glue([Interpolation(n, g + 1, es)], Levels(recs[n..] + tail, g + 1))
  {
    var recs' := recs + tail;
    assert TakeCount(recs', n) == n;
    assert recs'[..n] == recs[..n];
    assert recs'[n..] == recs[n..] + tail;
    LevelsStep(recs', n);
  }

  // ---------------------------------------------------------------------------
  // the loop of build_interpolation_matrices

  /** One step of `ParseChunk`, read from position `j` of `recs`. */
  lemma ChunkStep(recs: seq<Record>, j: nat, hi: nat, elements: seq<(nat, nat)>, maxGroup: nat)
    requires j < hi <= |recs|
    ensures recs[j].Err? ==> ParseChunk(recs[j..hi], elements, maxGroup) == Err(recs[j].error)
    ensures recs[j] == Ok(None) ==> ParseChunk(recs[j..hi], elements, maxGroup) == ParseChunk(recs[j + 1..hi], elements, maxGroup)
    ensures recs[j].Ok? && recs[j].value.Some? ==>
      var (node, group) := recs[j].value.value;
      ParseChunk(recs[j..hi], elements, maxGroup) ==
        ParseChunk(recs[j + 1..hi], elements + [(node, group)], if group > maxGroup then group else maxGroup)
  {
    assert recs[j..hi][0] == recs[j];
    assert recs[j..hi][1..] == recs[j + 1..hi];
  }

  /** The levels already built followed by those still to come. */
  function Glue(done: seq<Interpolation>, rest: Result<seq<Interpolation>, ParseError>): (r: Result<seq<Interpolation>, ParseError>)
    ensures r.Ok? <==> rest.Ok?
  {
    if rest.Err? then rest else Ok(done + rest.value)
  }

  /** `recs` holds the record read from each of `lines`. */
  predicate ReadFrom(lines: seq<string>, recs: seq<Record>) {
    recs == Records(lines)
  }

  /** Reads line `j`. */
  method ReadRecord(lines: seq<string>, ghost recs: seq<Record>, j: nat) returns (r: Record)
    requires ReadFrom(lines, recs) && j < |lines|
    ensures r == recs[j]
  {
    r := ParseRecord(lines[j]);
    RecordsAt(lines, j);
  }

  /** One level: the lines `lo..hi` taken by `take(n)`, with the elements they hold and the
      largest group among them. */
  method ParseBlock(lines: seq<string>, ghost recs: seq<Record>, lo: nat, hi: nat) returns (c: Result<(seq<(nat, nat)>, nat), ParseError>)
    requires ReadFrom(lines, recs) && lo <= hi <= |lines|
    ensures c == ParseChunk(recs[lo..hi], [], 0)
  {
    var elements: seq<(nat, nat)> := [];
    var numAggregates := 0;
    var j := lo;
    while j < hi
      invariant lo <= j <= hi
      invariant ParseChunk(recs[lo..hi], [], 0) == ParseChunk(recs[j..hi], elements, numAggregates)
    {
      ChunkStep(recs, j, hi, elements, numAggregates);
      var record := ReadRecord(lines, recs, j);
      if record.Err? {
        return Err(record.error);
      }
      if record.value.Some? {
        var node, group := record.value.value.0, record.value.value.1;
        elements := elements + [(node, group)];
        if group > numAggregates {
          numAggregates := group;
        }
      }
      j := j + 1;
    }
    assert recs[j..hi] == [];
    c := Ok((elements, numAggregates));
  }

  /** `build_interpolation_matrices(n)` on the text the tool wrote: the lines of `data` are read
      in blocks, block `i` being as long as level `i` has rows, and each block becomes one
      interpolation matrix whose column count is one past its largest group. */
  method BuildInterpolationMatrices(data: string, n: nat) returns (r: Result<seq<Interpolation>, ParseError>)
    ensures r == ParseLevels(Text.Split(data, '\n'), n)
  {
    var lines := Text.Split(data, '\n');
    r := ReadLevels(lines, Records(lines), n);
  }

  /** The loop over the lines: `pos` lines read, the next level having `rows` rows. */
  method ReadLevels(lines: seq<string>, ghost recs: seq<Record>, n: nat) returns (r: Result<seq<Interpolation>, ParseError>)
    requires ReadFrom(lines, recs)
    ensures r == Levels(recs, n)
  {
    var levels: seq<Interpolation> := [];
    var pos := 0;
    var rows := n;
    Start(recs, n);
    while pos < |lines|
      invariant pos <= |lines|
      invariant Levels(recs, n) == Glue(levels, Levels(recs[pos..], rows))
      decreases |lines| - pos, if rows == 0 then 1 else 0
    {
      var c, hi, next, nextRows := ReadLevel(lines, recs, n, pos, rows, levels);
      if c.Err? {
        return Err(c.error);
      }
      levels, pos, rows := next, hi, nextRows;
    }
    Finish(recs, n, rows, levels);
    r := Ok(levels);
  }

  /** Where a block of `rows` lines starting at `pos` ends: `take(rows)` stops early only at the
      end of the `len` lines. */
  function BlockEnd(pos: nat, rows: nat, len: nat): nat {
    if pos + rows <= len then pos + rows else len
  }

  /** One pass of the loop: the next `rows` lines, or as many as are left, parsed as a level. */
  method ReadLevel(lines: seq<string>, ghost recs: seq<Record>, n: nat, pos: nat, rows: nat, levels: seq<Interpolation>)
    returns (c: Result<(seq<(nat, nat)>, nat), ParseError>, hi: nat, next: seq<Interpolation>, nextRows: nat)
    requires pos < |lines| && ReadFrom(lines, recs)
    requires Levels(recs, n) == Glue(levels, Levels(recs[pos..], rows))
    ensures hi == BlockEnd(pos, rows, |lines|)
    ensures pos <= hi <= |lines| && (hi == pos ==> rows == 0)
    ensures c.Err? ==> Levels(recs, n) == Err(c.error)
    ensures c.Ok? ==> nextRows == c.value.1 + 1 && next == levels + [Interpolation(rows, nextRows, c.value.0)]
    ensures c.Ok? ==> Levels(recs, n) == Glue(next, Levels(recs[hi..], nextRows))
  {
    hi := BlockEnd(pos, rows, |lines|);
    c := ParseBlock(lines, recs, pos, hi);
    next, nextRows := levels, rows;
    if c.Err? {
      Fail(recs, n, pos, hi, rows, levels, c.error);
    } else {
      nextRows := c.value.1 + 1;
      next := levels + [Interpolation(rows, nextRows, c.value.0)];
      Advance(recs, n, pos, hi, rows, levels, c.value.0, c.value.1);
    }
  }

  /** The invariant of `ReadLevels` before the first line. */
  lemma Start(recs: seq<Record>, n: nat)
    ensures Levels(recs, n) == Glue([], Levels(recs[0..], n))
  {
    assert recs[0..] == recs;
    assert Levels(recs, n).Ok? ==> [] + Levels(recs, n).value == Levels(recs, n).value;
  }

  /** The invariant of `ReadLevels` once every line is read. */
  lemma Finish(recs: seq<Record>, n: nat, rows: nat, levels: seq<Interpolation>)
    requires Levels(recs, n) == Glue(levels, Levels(recs[|recs|..], rows))
    ensures Levels(recs, n) == Ok(levels)
  {
    assert recs[|recs|..] == [];
    assert levels + [] == levels;
  }

  /** A level that fails to parse fails the whole parse. */
  lemma Fail(recs: seq<Record>, n: nat, pos: nat, hi: nat, rows: nat, levels: seq<Interpolation>, e: ParseError)
    requires pos < |recs|
    requires hi == BlockEnd(pos, rows, |recs|)
    requires ParseChunk(recs[pos..hi], [], 0) == Err(e)
    requires Levels(recs, n) == Glue(levels, Levels(recs[pos..], rows))
    ensures Levels(recs, n) == Err(e)
  {
    LevelsFrom(recs, pos, rows);
  }

  /** The invariant of `ReadLevels` carried past one level. */
  lemma Advance(recs: seq<Record>, n: nat, pos: nat, hi: nat, rows: nat, levels: seq<Interpolation>, elements: seq<(nat, nat)>, g: nat)
    requires pos < |recs|
    requires hi == BlockEnd(pos, rows, |recs|)
    requires ParseChunk(recs[pos..hi], [], 0) == Ok((elements, g))
    requires Levels(recs, n) == Glue(levels, Levels(recs[pos..], rows))
    ensures Levels(recs, n) == Glue(levels + [Interpolation(rows, g + 1, elements)], Levels(recs[hi..], g + 1))
  {
    LevelsFrom(recs, pos, rows);
    GlueStep(levels, Interpolation(rows, g + 1, elements), Levels(recs[hi..], g + 1));
  }

  lemma GlueStep(done: seq<Interpolation>, m: Interpolation, rest: Result<seq<Interpolation>, ParseError>)
    ensures Glue(done, if rest.Err? then Err(rest.error) else Ok([m] + rest.value)) == Glue(done + [m], rest)
  {
    if rest.Ok? {
      assert done + ([m] + rest.value) == (done + [m]) + rest.value;
    }
  }

  /** The next level, read from position `pos`. */
  lemma LevelsFrom(recs: seq<Record>, pos: nat, n: nat)
    requires pos < |recs|
    ensures var hi := BlockEnd(pos, n, |recs|);
      var c := ParseChunk(recs[pos..hi], [], 0);
      Levels(recs[pos..], n) ==
        if c.Err? then Err(c.error)
        else
          var rest := Levels(recs[hi..], c.value.1 + 1);
          if rest.Err? then Err(rest.error) else Ok([Interpolation(n, c.value.1 + 1, c.value.0)] + rest.value)
  {
    var hi := BlockEnd(pos, n, |recs|);
    var tail := recs[pos..];
    LevelsStep(tail, n);
    assert tail[..TakeCount(tail, n)] == recs[pos..hi];
    assert tail[TakeCount(tail, n)..] == recs[hi..];
  }


  /** The tool's output always yields at least one level (`split` yields at least one piece),
      the first with one row per vertex of the expanded graph. With no vertices that level is
      the empty 0-by-1 matrix, and the levels after it chain as they do for one vertex. */
  lemma OutputLevels(data: string, n: nat)
    ensures var r := ParseLevels(Text.Split(data, '\n'), n);
      r.Ok? ==>
        && |r.value| >= 1 && r.value[0].rows == n
        && (n >= 1 ==> Chained(r.value))
        && (n == 0 ==> |r.value| >= 2 && r.value[0] == Interpolation(0, 1, []) && r.value[1].rows == 1 && Chained(r.value[1..]))
  {
    var recs := Records(Text.Split(data, '\n'));
    if Levels(recs, n).Ok? {
      if n == 0 {
        NoVerticesLevels(recs);
        LevelsChained(recs, 1);
        assert Levels(recs, n).value[1..] == Levels(recs, 1).value;
      } else {
        LevelsChained(recs, n);
      }
    }
  }

  // ---------------------------------------------------------------------------
  // what the community-detection tool writes

  /** The records `(i, a[i])` of one level: vertex `i` of the level belongs to group `a[i]`. */
  function Indexed(a: seq<nat>): (r: seq<(nat, nat)>)
    ensures |r| == |a| && forall i :: 0 <= i < |a| ==> r[i] == (i, a[i])
  {
    seq(|a|, i requires 0 <= i < |a| => (i, a[i]))
  }

  function PairRecords(ps: seq<(nat, nat)>): (r: seq<Record>)
    ensures |r| == |ps| && forall i :: 0 <= i < |ps| ==> r[i] == Ok(Some(ps[i]))
  {
    seq(|ps|, i requires 0 <= i < |ps| => Ok(Some(ps[i])))
  }

  /** The larger of `m` and every group in `ps`. */
  function LargestGroup(ps: seq<(nat, nat)>, m: nat): (r: nat)
    ensures r >= m && forall i :: 0 <= i < |ps| ==> ps[i].1 <= r
    ensures r == m || exists i :: 0 <= i < |ps| && ps[i].1 == r
  {
    if |ps| == 0 then m
    else
      var r := LargestGroup(ps[1..], if ps[0].1 > m then ps[0].1 else m);
      assert forall i :: 1 <= i < |ps| ==> ps[i] == ps[1..][i - 1];
      r
  }

  /** The largest group of a level's assignment (0 for an empty one). */
  function Top(a: seq<nat>): nat {
    LargestGroup(Indexed(a), 0)
  }

  /** A block of records reads as its pairs, and the running maximum becomes the largest group. */
  lemma {:induction false} ChunkOfPairs(ps: seq<(nat, nat)>, elements: seq<(nat, nat)>, m: nat)
    ensures ParseChunk(PairRecords(ps), elements, m) == Ok((elements + ps, LargestGroup(ps, m)))
  {
    var recs := PairRecords(ps);
    if |ps| == 0 {
      assert elements + ps == elements;
    } else {
      var m' := if ps[0].1 > m then ps[0].1 else m;
      assert recs[0] == Ok(Some((ps[0].0, ps[0].1)));
      assert recs[1..] == PairRecords(ps[1..]);
      assert ParseChunk(recs, elements, m) == ParseChunk(recs[1..], elements + [ps[0]], m');
      ChunkOfPairs(ps[1..], elements + [ps[0]], m');
      assert elements + [ps[0]] + ps[1..] == elements + ps;
      assert LargestGroup(ps, m) == LargestGroup(ps[1..], m');
    }
  }

  /** A hierarchy as the tool reports it: level `k` assigns each of its vertices a group, level 0
      has the `n` vertices of the graph, and the groups of one level are the vertices of the next. */
  ghost predicate ToolChain(assigns: seq<seq<nat>>, n: nat) {
    && (|assigns| > 0 ==> |assigns[0]| == n)
    && (forall k :: 0 <= k < |assigns| ==> |assigns[k]| >= 1)
    && (forall k :: 0 <= k < |assigns| - 1 ==> |assigns[k + 1]| == Top(assigns[k]) + 1)
  }

  /** The records of every level, one after the other. */
  function ToolRecords(assigns: seq<seq<nat>>): seq<Record> {
    if |assigns| == 0 then [] else PairRecords(Indexed(assigns[0])) + ToolRecords(assigns[1..])
  }

  /** The matrices the hierarchy stands for: level `k` maps vertex `i` to group `assigns[k][i]`. */
  function Expected(assigns: seq<seq<nat>>): (r: seq<Interpolation>)
    ensures |r| == |assigns|
  {
    if |assigns| == 0 then [] else [Matrix(assigns[0])] + Expected(assigns[1..])
  }

  /** The matrix of one level: its vertices as rows, one column per group up to the largest. */
  function Matrix(a: seq<nat>): Interpolation {
    Interpolation(|a|, Top(a) + 1, Indexed(a))
  }

  lemma {:induction false} ExpectedAt(assigns: seq<seq<nat>>, k: nat)
    requires k < |assigns|
    ensures Expected(assigns)[k] == Matrix(assigns[k])
  {
    var rest := assigns[1..];
    assert Expected(assigns) == [Matrix(assigns[0])] + Expected(rest);
    if k > 0 {
      assert assigns[k] == rest[k - 1];
      ExpectedAt(rest, k - 1);
    }
  }

  /** The first level of the tool's records. */
  lemma ToolFirstLevel(a: seq<nat>, tail: seq<Record>)
    requires |a| >= 1
    ensures Levels(PairRecords(Indexed(a)) + tail, |a|) == Glue([Interpolation(|a|, Top(a) + 1, Indexed(a))], Levels(tail, Top(a) + 1))
  {
    LevelOfPairs(a);
    FirstLevel(PairRecords(Indexed(a)), tail, |a|, Indexed(a), Top(a));
  }

  /** The records of one level read back as its pairs and its largest group. */
  lemma LevelOfPairs(a: seq<nat>)
    ensures ParseChunk(PairRecords(Indexed(a)), [], 0) == Ok((Indexed(a), Top(a)))
  {
    ChunkOfPairs(Indexed(a), [], 0);
    assert [] + Indexed(a) == Indexed(a);
  }

  /** A first level that reads exactly the records `first`. */
  lemma FirstLevel(first: seq<Record>, tail: seq<Record>, n: nat, es: seq<(nat, nat)>, g: nat)
    requires 1 <= n == |first| && ParseChunk(first, [], 0) == Ok((es, g))
    ensures Levels(first + tail, n) == Glue([Interpolation(n, g + 1, es)], Levels(tail, g + 1))
  {
    assert first[..n] == first;
    LevelsAppend(first, n, tail, es, g);
    assert first[n..] + tail == tail;
  }

  lemma {:induction false} ToolConsumed(assigns: seq<seq<nat>>)
    ensures Consumed(Expected(assigns)) == |ToolRecords(assigns)|
  {
    if |assigns| > 0 {
      ToolConsumed(assigns[1..]);
      assert Expected(assigns)[1..] == Expected(assigns[1..]);
      assert ToolRecords(assigns) == PairRecords(Indexed(assigns[0])) + ToolRecords(assigns[1..]);
    }
  }

  /** Parsing what the tool writes gives back, level by level, each vertex's group, with one
      column per group up to the largest. */
  lemma {:induction false} ToolLevels(assigns: seq<seq<nat>>, n: nat)
    requires ToolChain(assigns, n)
    ensures Levels(ToolRecords(assigns), n) == Ok(Expected(assigns))
  {
    if |assigns| > 0 {
      var a := assigns[0];
      var tail := assigns[1..];
      assert ToolChain(tail, Top(a) + 1) by {
        assert forall k :: 0 <= k < |tail| ==> tail[k] == assigns[k + 1];
      }
      ToolLevels(tail, Top(a) + 1);
      ToolFirstLevel(a, ToolRecords(tail));
    }
  }

  /** The lines of one level, `"i group"` for each vertex `i`. */
  function LevelLines(a: seq<nat>): (r: seq<string>)
    ensures |r| == |a| && forall i :: 0 <= i < |a| ==> r[i] == RecordLine(i, a[i])
  {
    seq(|a|, i requires 0 <= i < |a| => RecordLine(i, a[i]))
  }

  function ToolLines(assigns: seq<seq<nat>>): seq<string> {
    if |assigns| == 0 then [] else LevelLines(assigns[0]) + ToolLines(assigns[1..])
  }

  /** The tool's whole output: every line ends with a newline. */
  function ToolText(assigns: seq<seq<nat>>): string {
    Text.Join(ToolLines(assigns) + [""], "\n")
  }

  /** Every vertex and group fits in a `usize`. */
  ghost predicate Fits(assigns: seq<seq<nat>>) {
    forall k :: 0 <= k < |assigns| ==> LevelFits(assigns[k])
  }

  ghost predicate LevelFits(a: seq<nat>) {
    |a| <= Text.UsizeLimit && forall i :: 0 <= i < |a| ==> a[i] < Text.UsizeLimit
  }

  lemma RecordLineNoNewline(node: nat, group: nat)
    ensures '\n' !in RecordLine(node, group)
  {
    Text.NoWhitespaceInNumber(node);
    Text.NoWhitespaceInNumber(group);
  }

  lemma {:induction false} RecordsConcat(xs: seq<string>, ys: seq<string>)
    ensures Records(xs + ys) == Records(xs) + Records(ys)
  {
    if |xs| > 0 {
      assert (xs + ys)[1..] == xs[1..] + ys;
      RecordsConcat(xs[1..], ys);
    } else {
      assert xs + ys == ys;
    }
  }

  lemma LevelRecords(a: seq<nat>)
    requires LevelFits(a)
    ensures Records(LevelLines(a)) == PairRecords(Indexed(a))
  {
    forall i | 0 <= i < |a|
      ensures Records(LevelLines(a))[i] == PairRecords(Indexed(a))[i]
    {
      RecordRoundTrip(i, a[i]);
      RecordsAt(LevelLines(a), i);
    }
  }

  lemma {:induction false} ToolLinesRecords(assigns: seq<seq<nat>>)
    requires Fits(assigns)
    ensures Records(ToolLines(assigns)) == ToolRecords(assigns)
    ensures forall j :: 0 <= j < |ToolLines(assigns)| ==> '\n' !in ToolLines(assigns)[j]
  {
    if |assigns| > 0 {
      var tail := assigns[1..];
      assert Fits(tail) by {
        assert forall k :: 0 <= k < |tail| ==> tail[k] == assigns[k + 1];
      }
      ToolLinesRecords(tail);
      assert LevelFits(assigns[0]);
      LevelRecords(assigns[0]);
      RecordsConcat(LevelLines(assigns[0]), ToolLines(tail));
      var lines := ToolLines(assigns);
      forall j | 0 <= j < |lines| ensures '\n' !in lines[j] {
        if j < |assigns[0]| {
          RecordLineNoNewline(j, assigns[0][j]);
        } else {
          assert lines[j] == ToolLines(tail)[j - |assigns[0]|];
        }
      }
    }
  }

  lemma ToolTextLines(assigns: seq<seq<nat>>)
    requires Fits(assigns)
    ensures Text.Split(ToolText(assigns), '\n') == ToolLines(assigns) + [""]
    ensures Records(ToolLines(assigns) + [""]) == ToolRecords(assigns) + [Ok(None)]
  {
    var lines := ToolLines(assigns);
    ToolLinesRecords(assigns);
    assert forall j :: 0 <= j < |lines + [""]| ==> '\n' !in (lines + [""])[j];
    Text.SplitJoin(lines + [""], '\n');
    assert Text.Trim("") == "";
    RecordsConcat(lines, [""]);
    assert Records([""]) == [Ok(None)];
  }

  /** Reading back the tool's output: one interpolation matrix per level of the hierarchy, and,
      because the output ends with a newline, one more level with a single column and no
      elements whose rows are the top level's groups. */
  lemma ToolOutput(assigns: seq<seq<nat>>, n: nat)
    requires n >= 1 && ToolChain(assigns, n) && Fits(assigns)
    ensures var last := if |assigns| == 0 then n else Top(assigns[|assigns| - 1]) + 1;
      ParseLevels(Text.Split(ToolText(assigns), '\n'), n) == Ok(Expected(assigns) + [Interpolation(last, 1, [])])
  {
    var ms := Expected(assigns);
    if |assigns| > 0 {
      ExpectedAt(assigns, |assigns| - 1);
      assert ms[|ms| - 1].cols == Top(assigns[|assigns| - 1]) + 1;
    }
    ToolTextLines(assigns);
    ToolLevels(assigns, n);
    ToolConsumed(assigns);
    ReadBack(Text.Split(ToolText(assigns), '\n'), ToolRecords(assigns), n, ms);
  }

  /** The text of the empty hierarchy, a single newline, read with no vertices. */
  lemma EmptyToolText()
    ensures ParseLevels(Text.Split(ToolText([]), '\n'), 0) == Ok([Interpolation(0, 1, []), Interpolation(1, 1, [])])
  {
    ToolTextLines([]);
    var lines := Text.Split(ToolText([]), '\n');
    assert Records(lines) == [Ok(None)] by {
      assert ToolRecords([]) == [];
      assert ToolLines([]) + [""] == lines;
    }
    NoVerticesLevels([Ok(None)]);
    SingleBlankRecord(1);
    assert [Interpolation(0, 1, [])] + [Interpolation(1, 1, [])] == [Interpolation(0, 1, []), Interpolation(1, 1, [])];
  }

  /** With no vertices the hierarchy is empty, and its output, a single newline, reads back as
      the 0-by-1 level of the empty graph followed by one empty 1-by-1 level. */
  lemma NoVerticesToolOutput(assigns: seq<seq<nat>>)
    requires ToolChain(assigns, 0)
    ensures assigns == []
    ensures ParseLevels(Text.Split(ToolText(assigns), '\n'), 0) == Ok([Interpolation(0, 1, []), Interpolation(1, 1, [])])
  {
    EmptyToolText();
  }

  /** Lines whose records are complete levels followed by one blank line read back as those
      levels and one more. */
  lemma ReadBack(lines: seq<string>, recs: seq<Record>, n: nat, ms: seq<Interpolation>)
    requires n >= 1 || |recs| > 0
    requires Records(lines) == recs + [Ok(None)]
    requires Levels(recs, n) == Ok(ms) && Consumed(ms) == |recs|
    ensures var last := if |ms| == 0 then n else ms[|ms| - 1].cols;
      ParseLevels(lines, n) == Ok(ms + [Interpolation(last, 1, [])])
  {
    TrailingBlankRecord(recs, n, ms);
  }
}
