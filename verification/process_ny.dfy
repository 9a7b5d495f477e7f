/** `src/process_ny.rs`: cleaning the scraped ingredient phrases before they are matched to
    ingredient names: unicode fractions spelled in ASCII, whitespace collapsed, quantity and
    phrase joined, and the result lower-cased. */
module ProcessNy {
  import opened Results
  import opened Text
  import Nytc
  import Seqs

  // ---------------------------------------------------------------------------
  // character replacement

  /** A replacement table: each character is replaced by a string. */
  type Table = seq<(char, string)>

  /** What a character becomes under a table: the string of its first entry, or itself. */
  function Lookup(c: char, table: Table): (r: string)
    ensures (forall i :: 0 <= i < |table| ==> table[i].0 != c) ==> r == [c]
  {
    if |table| == 0 then [c]
    else if table[0].0 == c then table[0].1
    else Lookup(c, table[1..])
  }

  /** Every character replaced at once by what the table maps it to. */
  function MapChars(s: string, table: Table): string {
    if |s| == 0 then "" else Lookup(s[0], table) + MapChars(s[1..], table)
  }

  /** `str::replace` with a one-character pattern: every `c` becomes `t`. */
  function Replace(s: string, c: char, t: string): string {
    MapChars(s, [(c, t)])
  }

  predicate IsKey(c: char, table: Table) {
    exists i :: 0 <= i < |table| && table[i].0 == c
  }

  /** No character of `s` is replaced by the table. */
  predicate NoKey(s: string, table: Table) {
    forall j :: 0 <= j < |s| ==> !IsKey(s[j], table)
  }

  /** The loop of `unicode_ascii`: for each entry in turn, when the text contains the
      character, replace every occurrence. */
  function ReplaceEach(s: string, table: Table): string
    decreases |table|
  {
    if |table| == 0 then s
    else
      var next := if table[0].0 in s then Replace(s, table[0].0, table[0].1) else s;
      ReplaceEach(next, table[1..])
  }

  lemma {:induction false} MapCharsAppend(a: string, b: string, table: Table)
    ensures MapChars(a + b, table) == MapChars(a, table) + MapChars(b, table)
  {
    if |a| > 0 {
      assert (a + b)[0] == a[0];
      assert (a + b)[1..] == a[1..] + b;
      MapCharsAppend(a[1..], b, table);
    } else {
      assert a + b == b;
    }
  }

  /** Text without keys is left as it is. */
  lemma {:induction false} MapCharsFixed(s: string, table: Table)
    requires NoKey(s, table)
    ensures MapChars(s, table) == s
  {
    if |s| > 0 {
      assert !IsKey(s[0], table);
      MapCharsFixed(s[1..], table);
    }
  }

  /** Replacing one character and then mapping by the rest of the table is mapping by the whole
      table, when the replacement holds no key of the rest. */
  lemma {:induction false} MapCharsCompose(s: string, e: (char, string), rest: Table)
    requires NoKey(e.1, rest)
    ensures MapChars(MapChars(s, [e]), rest) == MapChars(s, [e] + rest)
  {
    if |s| > 0 {
      var head := Lookup(s[0], [e]);
      assert MapChars(s, [e]) == head + MapChars(s[1..], [e]);
      MapCharsAppend(head, MapChars(s[1..], [e]), rest);
      MapCharsCompose(s[1..], e, rest);
      if s[0] == e.0 {
        MapCharsFixed(e.1, rest);
      } else {
        assert head == [s[0]];
        assert MapChars([s[0]], rest) == Lookup(s[0], rest) + MapChars([], rest);
        assert ([e] + rest)[1..] == rest;
      }
    }
  }

  /** No replacement string of the table holds a key of a later entry. */
  predicate Closed(table: Table) {
    forall i, j :: 0 <= i < j < |table| ==> NoKey(table[i].1, table[j..])
  }

  /** The loop of replacements, guard included, is one simultaneous replacement when no
      replacement introduces a character a later step would replace. */
  lemma {:induction false} ReplaceEachIsMapChars(s: string, table: Table)
    requires Closed(table)
    ensures ReplaceEach(s, table) == MapChars(s, table)
    decreases |table|
  {
    if |table| == 0 {
      MapCharsFixed(s, table);
    } else {
      var e, rest := table[0], table[1..];
      if e.0 !in s {
        assert NoKey(s, [e]);
        MapCharsFixed(s, [e]);
      }
      var next := MapChars(s, [e]);
      assert Closed(rest) by {
        forall i, j | 0 <= i < j < |rest| ensures NoKey(rest[i].1, rest[j..]) {
          assert rest[j..] == table[j + 1..];
          assert NoKey(table[i + 1].1, table[j + 1..]);
        }
      }
      ReplaceEachIsMapChars(next, rest);
      assert NoKey(e.1, rest) by {
        if |rest| > 0 {
          assert NoKey(table[0].1, table[1..]);
        }
      }
      MapCharsCompose(s, e, rest);
      assert [e] + rest == table;
    }
  }

  // ---------------------------------------------------------------------------
  // unicode fractions

  /** The fraction characters and their ASCII spellings, paired in the source's order. */
  const Unicode: seq<char> := ['⅛', '⅜', '⅝', '⅞', '⅙', '⅚', '⅕', '⅖', '⅗', '⅘', '¼', '¾', '⅓', '⅔', '½']
  const Ascii: seq<string> := [" 1/8", " 3/8", " 5/8", " 7/8", " 1/6", " 5/6", " 1/5", " 2/5", " 3/5", " 4/5", " 1/4", " 3/4", " 1/3", " 2/3", " 1/2"]

  function Fractions(): (r: Table)
    ensures |r| == 15
    ensures forall i :: 0 <= i < |r| ==> r[i] == (Unicode[i], Ascii[i])
  {
    Seqs.Zip(Unicode, Ascii)
  }

  /** The fifteen fractions occupy the code points U+00BC to U+00BE and U+2153 to U+215E;
      `FractionListed` shows that these are exactly the listed characters. */
  predicate IsFraction(c: char) {
    '\U{00BC}' <= c <= '\U{00BE}' || '\U{2153}' <= c <= '\U{215E}'
  }

  predicate NoFraction(s: string) {
    forall j :: 0 <= j < |s| ==> !IsFraction(s[j])
  }

  lemma FractionListed(c: char)
    ensures IsFraction(c) <==> c in Unicode
  {
    if IsFraction(c) {
      if c <= '\U{00BE}' {
        assert c == '¼' || c == '½' || c == '¾';
      } else {
        assert c == '⅓' || c == '⅔' || c == '⅕' || c == '⅖' || c == '⅗' || c == '⅘'
          || c == '⅙' || c == '⅚' || c == '⅛' || c == '⅜' || c == '⅝' || c == '⅞';
      }
    } else {
      forall i | 0 <= i < |Unicode| ensures Unicode[i] != c {
        ListedFraction(i);
      }
    }
  }

  lemma ListedFraction(i: nat)
    requires i < 15
    ensures IsFraction(Unicode[i])
  {
  }

  lemma NoFractionAppend(a: string, b: string)
    requires NoFraction(a) && NoFraction(b)
    ensures NoFraction(a + b)
  {
    assert forall j :: |a| <= j < |a| + |b| ==> (a + b)[j] == b[j - |a|];
  }

  /** The ASCII spellings are a space, a digit, a slash and a digit. */
  lemma AsciiShape(i: nat)
    requires i < 15
    ensures |Ascii[i]| == 4 && Ascii[i][0] == ' ' && Ascii[i][2] == '/'
    ensures IsDigit(Ascii[i][1]) && IsDigit(Ascii[i][3])
  {
  }

  lemma AsciiNoFraction(i: nat)
    requires i < 15
    ensures NoFraction(Ascii[i])
  {
    AsciiShape(i);
    forall j | 0 <= j < 4 ensures !IsFraction(Ascii[i][j]) {
    }
  }

  /** A table that spells fractions: its keys are exactly the fractions and no replacement
      holds one. */
  predicate Spells(t: Table) {
    && (forall i :: 0 <= i < |t| ==> IsFraction(t[i].0) && NoFraction(t[i].1))
    && (forall c :: IsFraction(c) ==> IsKey(c, t))
  }

  lemma FractionsSpell()
    ensures Spells(Fractions())
  {
    var t := Fractions();
    forall i | 0 <= i < |t| ensures IsFraction(t[i].0) && NoFraction(t[i].1) {
      ListedFraction(i);
      AsciiNoFraction(i);
    }
    forall c | IsFraction(c) ensures IsKey(c, t) {
      FractionListed(c);
      var i :| 0 <= i < 15 && Unicode[i] == c;
      assert t[i].0 == c;
    }
  }

  lemma NoFractionNoKey(s: string, t: Table)
    requires Spells(t) && NoFraction(s)
    ensures NoKey(s, t)
  {
  }

  /** A table that spells fractions never reintroduces a key it has passed. */
  lemma SpellsClosed(t: Table)
    requires Spells(t)
    ensures Closed(t)
  {
    forall i, j | 0 <= i < j < |t| ensures NoKey(t[i].1, t[j..]) {
      assert forall m :: 0 <= m < |t| - j ==> t[j..][m] == t[j + m];
    }
  }

  /** A character is either not a key and kept, or replaced by the string of an entry. */
  lemma {:induction false} LookupCases(c: char, table: Table)
    ensures || (!IsKey(c, table) && Lookup(c, table) == [c])
            || (exists i :: 0 <= i < |table| && table[i].0 == c && Lookup(c, table) == table[i].1)
  {
    if |table| > 0 && table[0].0 != c {
      LookupCases(c, table[1..]);
      if !IsKey(c, table[1..]) {
        assert !IsKey(c, table) by {
          forall i | 0 <= i < |table| ensures table[i].0 != c {
            if i > 0 {
              assert table[1..][i - 1] == table[i];
            }
          }
        }
      } else {
        var i :| 0 <= i < |table[1..]| && table[1..][i].0 == c && Lookup(c, table[1..]) == table[1..][i].1;
        assert table[i + 1] == table[1..][i];
      }
    }
  }

  lemma LookupNoFraction(c: char, t: Table)
    requires Spells(t)
    ensures NoFraction(Lookup(c, t))
  {
    LookupCases(c, t);
    if IsKey(c, t) {
      var i :| 0 <= i < |t| && t[i].0 == c && Lookup(c, t) == t[i].1;
    }
  }

  lemma {:induction false} MapCharsNoFraction(s: string, t: Table)
    requires Spells(t)
    ensures NoFraction(MapChars(s, t))
  {
    if |s| > 0 {
      MapCharsNoFraction(s[1..], t);
      LookupNoFraction(s[0], t);
      NoFractionAppend(Lookup(s[0], t), MapChars(s[1..], t));
    }
  }

  // ---------------------------------------------------------------------------
  // unicode_ascii

  /** `unicode_ascii`: each fraction character spelled as its ASCII fraction, then the text
      split at ASCII whitespace and joined with single spaces. */
  function UnicodeAscii(phrase: string): (r: string)
    ensures Normalized(r)
  {
    var ws := Words(ReplaceEach(phrase, Fractions()));
    JoinNormalized(ws);
    Join(ws, " ")
  }

  lemma {:induction false} WordsNoFraction(s: string)
    requires NoFraction(s)
    ensures forall k :: 0 <= k < |Words(s)| ==> NoFraction(Words(s)[k])
    decreases |s|
  {
    if |s| > 0 {
      if IsAsciiWhitespace(s[0]) {
        WordsNoFraction(s[1..]);
      } else {
        var k := WordLength(s);
        WordsNoFraction(s[k..]);
        assert Words(s) == [s[..k]] + Words(s[k..]);
      }
    }
  }

  lemma {:induction false} JoinNoFraction(ws: seq<string>)
    requires forall k :: 0 <= k < |ws| ==> NoFraction(ws[k])
    ensures NoFraction(Join(ws, " "))
  {
    if |ws| > 1 {
      JoinNoFraction(ws[1..]);
    }
  }

  /** No fraction character survives `unicode_ascii`. */
  lemma UnicodeAsciiNoFraction(phrase: string)
    ensures NoFraction(UnicodeAscii(phrase))
  {
    var t := Fractions();
    FractionsSpell();
    SpellsClosed(t);
    ReplaceEachIsMapChars(phrase, t);
    MapCharsNoFraction(phrase, t);
    WordsNoFraction(MapChars(phrase, t));
    JoinNoFraction(Words(MapChars(phrase, t)));
  }

  /** `unicode_ascii` changes nothing the second time. */
  lemma UnicodeAsciiIdempotent(phrase: string)
    ensures UnicodeAscii(UnicodeAscii(phrase)) == UnicodeAscii(phrase)
  {
    var t := Fractions();
    var once := UnicodeAscii(phrase);
    var ws := Words(ReplaceEach(phrase, t));
    UnicodeAsciiNoFraction(phrase);
    FractionsSpell();
    SpellsClosed(t);
    ReplaceEachIsMapChars(once, t);
    NoFractionNoKey(once, t);
    MapCharsFixed(once, t);
    WordsOfJoin(ws);
  }

  // ---------------------------------------------------------------------------
  // get_phrases

  predicate IsUpper(c: char) {
    'A' <= c <= 'Z'
  }

  /** `str::make_ascii_lowercase`: only ASCII capitals change. */
  function Lower(s: string): (r: string)
    ensures |r| == |s|
    ensures forall j :: 0 <= j < |s| ==> !IsUpper(r[j])
    ensures forall j :: 0 <= j < |s| ==> (r[j] == '\n' <==> s[j] == '\n')
    ensures forall j :: 0 <= j < |s| ==> (IsFraction(r[j]) <==> IsFraction(s[j]))
    ensures forall j :: 0 <= j < |s| && !IsUpper(s[j]) ==> r[j] == s[j]
    ensures forall j :: 0 <= j < |s| && IsUpper(s[j]) ==> r[j] as int == s[j] as int + 32
  {
    seq(|s|, j requires 0 <= j < |s| => if IsUpper(s[j]) then (s[j] as int + 32) as char else s[j])
  }

  const Capitals: string := "ABCDEFGHIJKLMNOPQRSTUVWXYZ"
  const Smalls: string := "abcdefghijklmnopqrstuvwxyz"

  /** Lower-casing maps the `k`-th capital of the alphabet to its `k`-th small letter and
      leaves every character that is not a capital as it is. */
  lemma LowerAlphabet(s: string)
    ensures forall j, k :: 0 <= j < |s| && 0 <= k < 26 && s[j] == Capitals[k] ==> Lower(s)[j] == Smalls[k]
    ensures forall j :: 0 <= j < |s| && s[j] !in Capitals ==> Lower(s)[j] == s[j]
  {
    assert forall k :: 0 <= k < 26 ==> Capitals[k] as int == 'A' as int + k && Smalls[k] as int == 'a' as int + k;
  }

  /** Lower-casing twice is lower-casing once. */
  lemma LowerIdempotent(s: string)
    ensures Lower(Lower(s)) == Lower(s)
  {
  }

  /** The text handed to `unicode_ascii`: the trimmed quantity and a space when there is a
      quantity, then the phrase with its line breaks as spaces. */
  function Combined(qty: string, phrase: string): string {
    var newPhrase := Replace(phrase, '\n', " ");
    if Trim(qty) != "" then Trim(qty) + " " + newPhrase else newPhrase
  }

  /** The cleaned text before lower-casing: `unicode_ascii` of the combined text, trimmed. It
      has neither line breaks nor fractions. */
  function Clean(qty: string, phrase: string): (r: string)
    ensures forall j :: 0 <= j < |r| ==> r[j] != '\n' && !IsFraction(r[j])
  {
    var c := Combined(qty, phrase);
    var u := UnicodeAscii(c);
    UnicodeAsciiNoFraction(c);
    NormalizedNoNewline(u);
    TrimKeeps(u);
    Trim(u)
  }

  /** Normalised text separates words by single spaces only. */
  lemma NormalizedNoNewline(t: string)
    requires Normalized(t)
    ensures forall j :: 0 <= j < |t| ==> t[j] != '\n'
  {
    forall j | 0 <= j < |t| ensures t[j] != '\n' {
      if t[j] == '\n' {
        assert IsAsciiWhitespace(t[j]);
      }
    }
  }

  /** Neither line breaks nor fraction characters. */
  predicate Clear(s: string) {
    forall j :: 0 <= j < |s| ==> s[j] != '\n' && !IsFraction(s[j])
  }

  lemma SliceClear(s: string, lo: nat, hi: nat)
    requires lo <= hi <= |s| && Clear(s)
    ensures Clear(s[lo..hi])
  {
    forall j | 0 <= j < hi - lo ensures s[lo..hi][j] != '\n' && !IsFraction(s[lo..hi][j]) {
      assert s[lo..hi][j] == s[lo + j];
    }
  }

  /** Text with neither line breaks nor fractions keeps both absent when trimmed. */
  lemma TrimKeeps(s: string)
    requires forall j :: 0 <= j < |s| ==> s[j] != '\n'
    requires NoFraction(s)
    ensures Clear(Trim(s))
  {
    var a := TrimStart(s);
    var b := TrimEnd(a);
    assert a == s[|s| - |a|..|s|];
    assert b == a[0..|b|];
    SliceClear(s, |s| - |a|, |s|);
    SliceClear(a, 0, |b|);
  }

  /** Cleaned text: no ASCII capitals, no line breaks, no fraction characters. */
  predicate Plain(s: string) {
    forall j :: 0 <= j < |s| ==> !IsUpper(s[j]) && s[j] != '\n' && !IsFraction(s[j])
  }

  /** A phrase `trim` empties: every character is whitespace. */
  predicate Blank(s: string) {
    forall j :: 0 <= j < |s| ==> IsWhitespace(s[j])
  }

  lemma BlankIsTrimEmpty(s: string)
    ensures Blank(s) <==> Trim(s) == ""
  {
    TrimEmptyIffBlank(s);
  }

  /** One entry of `get_phrases`'s `filter_map`: nothing for a blank phrase, otherwise the
      quantity and phrase cleaned, trimmed and lower-cased. */
  function Phrase(qty: string, phrase: string): (r: Option<string>)
    ensures r.Some? <==> !Blank(phrase)
    ensures r.Some? ==> Plain(r.value)
  {
    if Blank(phrase) then None else Some(Lower(Clean(qty, phrase)))
  }

  /** The entries whose phrase is not blank, in their order. */
  function Kept(pairs: seq<(string, string)>): (r: seq<(string, string)>)
    ensures |r| <= |pairs|
  {
    if |pairs| == 0 then []
    else if Blank(pairs[0].1) then Kept(pairs[1..])
    else [pairs[0]] + Kept(pairs[1..])
  }

  /** An entry is kept exactly when it is one of the entries and its phrase is not blank. */
  lemma {:induction false} KeptMember(pairs: seq<(string, string)>, x: (string, string))
    ensures x in Kept(pairs) <==> x in pairs && !Blank(x.1)
  {
    if |pairs| > 0 {
      KeptMember(pairs[1..], x);
      assert pairs == [pairs[0]] + pairs[1..];
    }
  }

  /** Keeping distributes over concatenation, so the kept entries stay in their order. */
  lemma {:induction false} KeptAppend(a: seq<(string, string)>, b: seq<(string, string)>)
    ensures Kept(a + b) == Kept(a) + Kept(b)
  {
    if |a| > 0 {
      assert (a + b)[0] == a[0];
      assert (a + b)[1..] == a[1..] + b;
      KeptAppend(a[1..], b);
    } else {
      assert a + b == b;
    }
  }

  /** The phrases of one recipe: `filter_map` over its `(quantity, phrase)` pairs. */
  function RecipePhrases(pairs: seq<(string, string)>): (r: seq<string>)
    ensures |r| == |Kept(pairs)|
  {
    if |pairs| == 0 then []
    else
      var rest := RecipePhrases(pairs[1..]);
      if Blank(pairs[0].1) then rest
      else [Phrase(pairs[0].0, pairs[0].1).value] + rest
  }

  /** The phrases are those of the kept entries, one each, in order. */
  lemma {:induction false} RecipePhrasesKept(pairs: seq<(string, string)>, k: nat)
    requires k < |Kept(pairs)|
    ensures Phrase(Kept(pairs)[k].0, Kept(pairs)[k].1) == Some(RecipePhrases(pairs)[k])
  {
    var rest := pairs[1..];
    if Blank(pairs[0].1) {
      RecipePhrasesKept(rest, k);
    } else if k > 0 {
      RecipePhrasesKept(rest, k - 1);
    }
  }

  /** Every phrase `get_phrases` yields is plain. */
  lemma GetPhrasesPlain(recipes: seq<Nytc.Recipe>, i: nat, k: nat)
    requires i < |recipes| && k < |GetPhrases(recipes)[i]|
    ensures Plain(GetPhrases(recipes)[i][k])
  {
    var pairs := recipes[i].ingredients.ingredients;
    GetPhrasesAt(recipes, i);
    RecipePhrasesKept(pairs, k);
  }

  /** `get_phrases`: the phrases of each recipe's ingredient list. */
  function GetPhrases(recipes: seq<Nytc.Recipe>): (r: seq<seq<string>>)
    ensures |r| == |recipes|
  {
    Seqs.Map(PhrasesOf, recipes)
  }

  /** The phrases of one recipe's ingredient list. */
  function PhrasesOf(recipe: Nytc.Recipe): seq<string> {
    RecipePhrases(recipe.ingredients.ingredients)
  }

  lemma GetPhrasesAt(recipes: seq<Nytc.Recipe>, i: nat)
    requires i < |recipes|
    ensures GetPhrases(recipes)[i] == RecipePhrases(recipes[i].ingredients.ingredients)
  {
    Seqs.MapAt(PhrasesOf, recipes, i);
  }

  /** One phrase list per recipe, none longer than its ingredient list. */
  lemma GetPhrasesShape(recipes: seq<Nytc.Recipe>)
    ensures |GetPhrases(recipes)| == |recipes|
    ensures forall i :: 0 <= i < |recipes| ==> |GetPhrases(recipes)[i]| <= |recipes[i].ingredients.ingredients|
  {
    forall i | 0 <= i < |recipes| ensures |GetPhrases(recipes)[i]| <= |recipes[i].ingredients.ingredients| {
      GetPhrasesAt(recipes, i);
    }
  }

  // ---------------------------------------------------------------------------
  // quantity first

  lemma {:induction false} WordsSpace(a: string, b: string)
    ensures Words(a + " " + b) == Words(a) + Words(b)
    decreases |a|
  {
    if |a| == 0 {
      var s := a + " " + b;
      assert s == " " + b && s[1..] == b;
    } else if IsAsciiWhitespace(a[0]) {
      WordsSpace(a[1..], b);
      WordsSpaceBlank(a, b);
    } else {
      var k := WordLength(a);
      if k < |a| {
        WordsSpace(a[k..], b);
      }
      WordsSpaceWord(a, b, k);
    }
  }

  /** The step of `WordsSpace` past leading whitespace. */
  lemma WordsSpaceBlank(a: string, b: string)
    requires |a| > 0 && IsAsciiWhitespace(a[0])
    requires Words(a[1..] + " " + b) == Words(a[1..]) + Words(b)
    ensures Words(a + " " + b) == Words(a) + Words(b)
  {
    var s := a + " " + b;
    assert s[1..] == a[1..] + " " + b;
  }

  /** The step of `WordsSpace` past a leading word of length `k`. */
  lemma WordsSpaceWord(a: string, b: string, k: nat)
    requires |a| > 0 && !IsAsciiWhitespace(a[0]) && k == WordLength(a)
    requires k < |a| ==> Words(a[k..] + " " + b) == Words(a[k..]) + Words(b)
    ensures Words(a + " " + b) == Words(a) + Words(b)
  {
    var s := a + " " + b;
    var w, r := a[..k], a[k..];
    assert a == w + r;
    assert s == w + (r + " " + b);
    assert NoAsciiWhitespace(w) by {
      forall i | 0 <= i < |w| ensures !IsAsciiWhitespace(w[i]) {
        assert w[i] == a[i];
      }
    }
    WordsSplitAt(s, w, r + " " + b);
    WordsSplitAt(a, w, r);
    if k == |a| {
      assert r + " " + b == " " + b;
      assert (" " + b)[1..] == b;
    }
  }

  /** Two texts joined by a space are cleaned into the first one's words followed by the
      second one's. */
  lemma UnicodeAsciiSpace(q: string, p: string)
    ensures UnicodeAscii(q + " " + p) == Join(Words(MapChars(q, Fractions())) + Words(MapChars(p, Fractions())), " ")
  {
    var t := Fractions();
    FractionsSpell();
    ReplaceSpace(q, p, t);
    WordsSpace(MapChars(q, t), MapChars(p, t));
  }

  lemma ReplaceSpace(q: string, p: string, t: Table)
    requires Spells(t)
    ensures ReplaceEach(q + " " + p, t) == MapChars(q, t) + " " + MapChars(p, t)
  {
    SpellsClosed(t);
    ReplaceEachIsMapChars(q + " " + p, t);
    MapCharsAppend(q + " ", p, t);
    MapCharsAppend(q, " ", t);
    NoFractionNoKey(" ", t);
    MapCharsFixed(" ", t);
  }

  /** With a quantity, the cleaned words are the trimmed quantity's words followed by the
      phrase's. */
  lemma QuantityFirst(qty: string, phrase: string)
    requires Trim(qty) != ""
    ensures UnicodeAscii(Combined(qty, phrase))
      == Join(Words(MapChars(Trim(qty), Fractions())) + Words(MapChars(Replace(phrase, '\n', " "), Fractions())), " ")
  {
    UnicodeAsciiSpace(Trim(qty), Replace(phrase, '\n', " "));
  }
}
