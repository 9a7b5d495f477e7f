/** String helpers with Rust's semantics: whitespace classes, `trim`, `split`,
    `split_ascii_whitespace`, `join`, and decimal formatting and parsing of
    unsigned integers. */
module Text {
  import opened Results

  /** `char::is_ascii_whitespace`: space, tab, line feed, form feed, carriage return. */
  predicate IsAsciiWhitespace(c: char) {
    c == ' ' || c == '\t' || c == '\n' || c == '\U{000C}' || c == '\r'
  }

  /** `char::is_whitespace`: the Unicode White_Space property. */
  predicate IsWhitespace(c: char) {
    || ('\t' <= c <= '\r')
    || c == ' '
    || c == '\U{0085}'
    || c == '\U{00A0}'
    || c == '\U{1680}'
    || ('\U{2000}' <= c <= '\U{200A}')
    || c == '\U{2028}'
    || c == '\U{2029}'
    || c == '\U{202F}'
    || c == '\U{205F}'
    || c == '\U{3000}'
  }

  lemma AsciiWhitespaceIsWhitespace(c: char)
    ensures IsAsciiWhitespace(c) ==> IsWhitespace(c)
  {
  }

  predicate NoAsciiWhitespace(s: string) {
    forall i :: 0 <= i < |s| ==> !IsAsciiWhitespace(s[i])
  }

  predicate IsDigit(c: char) {
    '0' <= c <= '9'
  }

  predicate AllDigits(s: string) {
    forall i :: 0 <= i < |s| ==> IsDigit(s[i])
  }

  // ---------------------------------------------------------------------------
  // trim

  /** `str::trim_start`: drops leading Unicode whitespace. */
  function TrimStart(s: string): (r: string)
    ensures |r| <= |s| && r == s[|s| - |r|..]
    ensures forall i :: 0 <= i < |s| - |r| ==> IsWhitespace(s[i])
    ensures r == [] || !IsWhitespace(r[0])
  {
    if |s| > 0 && IsWhitespace(s[0]) then TrimStart(s[1..]) else s
  }

  /** `str::trim_end`: drops trailing Unicode whitespace. */
  function TrimEnd(s: string): (r: string)
    ensures |r| <= |s| && r == s[..|r|]
    ensures forall i :: |r| <= i < |s| ==> IsWhitespace(s[i])
    ensures r == [] || !IsWhitespace(r[|r| - 1])
  {
    if |s| > 0 && IsWhitespace(s[|s| - 1]) then TrimEnd(s[..|s| - 1]) else s
  }

  /** `str::trim`. */
  function Trim(s: string): (r: string)
    ensures r == [] || (!IsWhitespace(r[0]) && !IsWhitespace(r[|r| - 1]))
  {
    TrimEnd(TrimStart(s))
  }

  /** A string that `trim` maps to the empty string is all whitespace, and conversely. */
  lemma TrimEmptyIffBlank(s: string)
    ensures Trim(s) == [] <==> forall i :: 0 <= i < |s| ==> IsWhitespace(s[i])
  {
    var t := TrimStart(s);
    if Trim(s) == [] {
      assert |t| == 0;
    } else {
      var u := Trim(s);
      assert u[0] == t[0] == s[|s| - |t|];
    }
  }

  // ---------------------------------------------------------------------------
  // join and split

  /** `[String]::join(sep)`. */
  function Join(parts: seq<string>, sep: string): string {
    if |parts| == 0 then ""
    else if |parts| == 1 then parts[0]
    else parts[0] + sep + Join(parts[1..], sep)
  }

  /** Index of the first `c` in `s`, or `|s|` when there is none. */
  function IndexOf(s: string, c: char): (k: nat)
    ensures k <= |s|
    ensures k < |s| ==> s[k] == c
    ensures forall i :: 0 <= i < k ==> s[i] != c
  {
    if |s| == 0 then 0
    else if s[0] == c then 0
    else 1 + IndexOf(s[1..], c)
  }

  /** `str::split(c)`: the pieces between occurrences of `c`; never empty. */
  function Split(s: string, c: char): (r: seq<string>)
    ensures |r| >= 1
    ensures forall k :: 0 <= k < |r| ==> c !in r[k]
    decreases |s|
  {
    var k := IndexOf(s, c);
    if k == |s| then [s] else [s[..k]] + Split(s[k + 1..], c)
  }

  /** Joining the pieces of a split with the separator restores the string. */
  lemma {:induction false} JoinSplit(s: string, c: char)
    ensures Join(Split(s, c), [c]) == s
    decreases |s|
  {
    var k := IndexOf(s, c);
    if k < |s| {
      var rest := Split(s[k + 1..], c);
      JoinSplit(s[k + 1..], c);
      assert Split(s, c) == [s[..k]] + rest;
      assert Join(Split(s, c), [c]) == s[..k] + [c] + Join(rest, [c]);
      assert s == s[..k] + [c] + s[k + 1..];
    }
  }

  /** Splitting a join recovers the parts, provided no part holds the separator. */
  lemma {:induction false} SplitJoin(parts: seq<string>, c: char)
    requires |parts| >= 1
    requires forall k :: 0 <= k < |parts| ==> c !in parts[k]
    ensures Split(Join(parts, [c]), c) == parts
  {
    if |parts| == 1 {
      NoSeparator(parts[0], c);
    } else {
      var s := Join(parts, [c]);
      var p := parts[0];
      assert s == p + [c] + Join(parts[1..], [c]);
      IndexOfPrefix(p, Join(parts[1..], [c]), c);
      assert s[..|p|] == p;
      assert s[|p| + 1..] == Join(parts[1..], [c]);
      SplitJoin(parts[1..], c);
    }
  }

  lemma NoSeparator(s: string, c: char)
    requires c !in s
    ensures Split(s, c) == [s]
  {
  }

  lemma {:induction false} IndexOfPrefix(p: string, t: string, c: char)
    requires c !in p
    ensures IndexOf(p + [c] + t, c) == |p|
  {
    assert (p + [c] + t)[|p|] == c;
    assert forall i :: 0 <= i < |p| ==> (p + [c] + t)[i] == p[i];
  }

  // ---------------------------------------------------------------------------
  // split_ascii_whitespace

  /** Length of the leading run of non-whitespace characters. */
  function WordLength(s: string): (k: nat)
    ensures k <= |s|
    ensures forall i :: 0 <= i < k ==> !IsAsciiWhitespace(s[i])
    ensures k < |s| ==> IsAsciiWhitespace(s[k])
  {
    if |s| == 0 || IsAsciiWhitespace(s[0]) then 0 else 1 + WordLength(s[1..])
  }

  /** `str::split_ascii_whitespace`: the maximal non-empty runs of non-whitespace. */
  function Words(s: string): (r: seq<string>)
    ensures forall k :: 0 <= k < |r| ==> r[k] != [] && NoAsciiWhitespace(r[k])
    decreases |s|
  {
    if |s| == 0 then []
    else if IsAsciiWhitespace(s[0]) then Words(s[1..])
    else
      var k := WordLength(s);
      [s[..k]] + Words(s[k..])
  }

  lemma {:induction false} WordLengthOfWord(w: string, t: string)
    requires NoAsciiWhitespace(w)
    requires t == [] || IsAsciiWhitespace(t[0])
    ensures WordLength(w + t) == |w|
  {
    if |w| > 0 {
      assert (w + t)[1..] == w[1..] + t;
      WordLengthOfWord(w[1..], t);
    }
  }

  /** A word followed by nothing or by whitespace is the first of the words. */
  lemma WordsSplitAt(s: string, w: string, t: string)
    requires s == w + t && w != [] && NoAsciiWhitespace(w)
    requires t == [] || IsAsciiWhitespace(t[0])
    ensures Words(s) == [w] + Words(t)
  {
    WordLengthOfWord(w, t);
    assert s[..|w|] == w;
    assert s[|w|..] == t;
  }

  /** Words of a single-space join of words are those words. */
  lemma {:induction false} WordsOfJoin(ws: seq<string>)
    requires forall k :: 0 <= k < |ws| ==> ws[k] != [] && NoAsciiWhitespace(ws[k])
    ensures Words(Join(ws, " ")) == ws
  {
    if |ws| == 1 {
      var w := ws[0];
      WordLengthOfWord(w, []);
      assert w + [] == w;
      assert w[|w|..] == [];
    } else if |ws| > 1 {
      var w := ws[0];
      var rest := Join(ws[1..], " ");
      var s := Join(ws, " ");
      assert s == w + (" " + rest);
      WordLengthOfWord(w, " " + rest);
      assert s[..|w|] == w;
      assert s[|w|..] == " " + rest;
      assert Words(" " + rest) == Words(rest) by {
        assert (" " + rest)[1..] == rest;
      }
      WordsOfJoin(ws[1..]);
    }
  }

  /** Text whose whitespace is single spaces between non-whitespace runs. */
  predicate Normalized(t: string) {
    && (|t| > 0 ==> !IsAsciiWhitespace(t[0]) && !IsAsciiWhitespace(t[|t| - 1]))
    && (forall i :: 0 <= i < |t| && IsAsciiWhitespace(t[i]) ==> t[i] == ' ')
    && (forall i :: 0 <= i < |t| - 1 && IsAsciiWhitespace(t[i]) ==> !IsAsciiWhitespace(t[i + 1]))
  }

  lemma {:induction false} JoinNormalized(ws: seq<string>)
    requires forall k :: 0 <= k < |ws| ==> ws[k] != [] && NoAsciiWhitespace(ws[k])
    ensures Normalized(Join(ws, " "))
  {
    if |ws| > 1 {
      var w := ws[0];
      var rest := Join(ws[1..], " ");
      JoinNormalized(ws[1..]);
      var s := Join(ws, " ");
      assert s == w + " " + rest;
      assert |rest| > 0 by {
        assert |ws[1..]| >= 1;
        JoinNonEmpty(ws[1..]);
      }
      forall i | 0 <= i < |s| && IsAsciiWhitespace(s[i])
        ensures s[i] == ' '
        ensures i < |s| - 1 ==> !IsAsciiWhitespace(s[i + 1])
      {
        if i == |w| {
          assert s[i + 1] == rest[0];
        } else if i > |w| {
          assert s[i] == rest[i - |w| - 1];
          if i < |s| - 1 {
            assert s[i + 1] == rest[i - |w|];
          }
        }
      }
      assert s[|s| - 1] == rest[|rest| - 1];
    }
  }

  lemma {:induction false} JoinNonEmpty(ws: seq<string>)
    requires |ws| >= 1 && forall k :: 0 <= k < |ws| ==> ws[k] != []
    ensures |Join(ws, " ")| > 0
  {
  }

  // ---------------------------------------------------------------------------
  // decimal numbers

  function DigitChar(d: nat): (c: char)
    requires d < 10
    ensures IsDigit(c)
  {
    "0123456789"[d]
  }

  function DigitValue(c: char): (d: nat)
    requires IsDigit(c)
    ensures d < 10
  {
    (c as int - '0' as int) as nat
  }

  lemma DigitRoundTrip(d: nat)
    requires d < 10
    ensures DigitValue(DigitChar(d)) == d
  {
  }

  /** `format!("{}", n)` for an unsigned integer. */
  function NatToString(n: nat): (s: string)
    ensures |s| >= 1 && AllDigits(s)
  {
    if n < 10 then [DigitChar(n)] else NatToString(n / 10) + [DigitChar(n % 10)]
  }

  /** The value of a string of decimal digits. */
  function DigitsValue(s: string): nat
    requires AllDigits(s)
  {
    if |s| == 0 then 0 else 10 * DigitsValue(s[..|s| - 1]) + DigitValue(s[|s| - 1])
  }

  /** A digits-only parse, the inverse used for the text formats below. */
  function ParseNat(s: string): (r: Option<nat>)
    ensures r.Some? <==> |s| > 0 && AllDigits(s)
  {
    if |s| > 0 && AllDigits(s) then Some(DigitsValue(s)) else None
  }

  lemma {:induction false} ParseNatToString(n: nat)
    ensures ParseNat(NatToString(n)) == Some(n)
  {
    var s := NatToString(n);
    if n < 10 {
      DigitRoundTrip(n);
      assert s[..0] == [];
      assert DigitsValue(s) == DigitValue(s[0]);
    } else {
      ParseNatToString(n / 10);
      assert s[..|s| - 1] == NatToString(n / 10);
      DigitRoundTrip(n % 10);
    }
  }

  lemma NoWhitespaceInNumber(n: nat)
    ensures NoAsciiWhitespace(NatToString(n))
    ensures '\n' !in NatToString(n) && ' ' !in NatToString(n)
  {
    var s := NatToString(n);
    assert forall i :: 0 <= i < |s| ==> IsDigit(s[i]);
  }

  /** One past the largest 64-bit `usize`. */
  const UsizeLimit: nat := 0x1_0000_0000_0000_0000

  /** `str::parse::<usize>`: an optional `+`, then at least one decimal digit, in range. */
  function ParseUsize(s: string): (r: Option<nat>)
    ensures r.Some? ==> r.value < UsizeLimit
  {
    var digits := if |s| > 0 && s[0] == '+' then s[1..] else s;
    match ParseNat(digits)
    case Some(v) => if v < UsizeLimit then Some(v) else None
    case None => None
  }

  lemma ParseUsizeToString(n: nat)
    requires n < UsizeLimit
    ensures ParseUsize(NatToString(n)) == Some(n)
  {
    ParseNatToString(n);
  }

  // ---------------------------------------------------------------------------
  // "i j w" line lists

  /** `format!("{} {} {}", x, y, w)`. */
  function TripleLine(t: (nat, nat, nat)): string {
    Join([NatToString(t.0), NatToString(t.1), NatToString(t.2)], " ")
  }

  /** One "x y w" line per triple. */
  function TripleStrs(ts: seq<(nat, nat, nat)>): (r: seq<string>)
    ensures |r| == |ts| && forall k :: 0 <= k < |ts| ==> r[k] == TripleLine(ts[k])
  {
    if |ts| == 0 then [] else [TripleLine(ts[0])] + TripleStrs(ts[1..])
  }

  /** A newline-joined list of "x y w" lines without a trailing newline. */
  function TripleLines(ts: seq<(nat, nat, nat)>): string {
    Join(TripleStrs(ts), "\n")
  }

  function ParseTripleLine(line: string): Option<(nat, nat, nat)> {
    var fields := Split(line, ' ');
    if |fields| != 3 then None
    else
      var x :- ParseNat(fields[0]);
      var y :- ParseNat(fields[1]);
      var w :- ParseNat(fields[2]);
      Some((x, y, w))
  }

  function ParseTripleList(lines: seq<string>): Option<seq<(nat, nat, nat)>> {
    if |lines| == 0 then Some([])
    else
      var t :- ParseTripleLine(lines[0]);
      var rest :- ParseTripleList(lines[1..]);
      Some([t] + rest)
  }

  /** Reads a triple list back; the empty text is the empty list. */
  function ParseTripleLines(text: string): Option<seq<(nat, nat, nat)>> {
    if text == "" then Some([]) else ParseTripleList(Split(text, '\n'))
  }

  lemma TripleLineRoundTrip(t: (nat, nat, nat))
    ensures '\n' !in TripleLine(t)
    ensures ParseTripleLine(TripleLine(t)) == Some(t)
  {
    var a, b, c := NatToString(t.0), NatToString(t.1), NatToString(t.2);
    NoWhitespaceInNumber(t.0);
    NoWhitespaceInNumber(t.1);
    NoWhitespaceInNumber(t.2);
    var line := TripleLine(t);
    assert line == a + " " + (b + " " + c);
    assert '\n' !in line by {
      assert forall i :: 0 <= i < |line| ==> line[i] != '\n';
    }
    assert " " == [' '];
    SplitJoin([a, b, c], ' ');
    var fields := Split(line, ' ');
    assert fields == [a, b, c];
    ParseNatToString(t.0);
    ParseNatToString(t.1);
    ParseNatToString(t.2);
  }

  lemma {:induction false} ParseTripleListRoundTrip(ts: seq<(nat, nat, nat)>)
    ensures ParseTripleList(TripleStrs(ts)) == Some(ts)
  {
    if |ts| > 0 {
      var t, rest := ts[0], ts[1..];
      assert [t] + rest == ts;
      assert TripleStrs(ts) == [TripleLine(t)] + TripleStrs(rest);
      TripleLineRoundTrip(t);
      ParseTripleListRoundTrip(rest);
      ParseTripleListCons(TripleLine(t), TripleStrs(rest), t, rest);
    }
  }

  lemma ParseTripleListCons(line: string, lines: seq<string>, t: (nat, nat, nat), rest: seq<(nat, nat, nat)>)
    requires ParseTripleLine(line) == Some(t) && ParseTripleList(lines) == Some(rest)
    ensures ParseTripleList([line] + lines) == Some([t] + rest)
  {
    assert ([line] + lines)[1..] == lines;
  }

  /** The "x y w" text reads back as the same triples in the same order. */
  lemma TripleLinesRoundTrip(ts: seq<(nat, nat, nat)>)
    ensures ParseTripleLines(TripleLines(ts)) == Some(ts)
  {
    var lines := TripleStrs(ts);
    if |ts| > 0 {
      forall k | 0 <= k < |lines| ensures '\n' !in lines[k] {
        TripleLineRoundTrip(ts[k]);
      }
      SplitJoin(lines, '\n');
      assert TripleLines(ts) != "" by {
        assert |NatToString(ts[0].0)| >= 1;
        JoinFirstPrefix(lines, "\n");
      }
    }
    ParseTripleListRoundTrip(ts);
  }

  lemma JoinFirstPrefix(parts: seq<string>, sep: string)
    requires |parts| >= 1
    ensures |Join(parts, sep)| >= |parts[0]|
  {
  }
}
