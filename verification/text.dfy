/** The Python string primitives the configuration toolkit is built from:
    `str.isspace`, `strip`, `split()`, `split(sep)`, `sep.join`, `lower`,
    and the two regular-expression fragments it uses on every line,
    ` *` (a run of spaces) and `.*` (anything up to a newline). */
module Text {
  import opened Results

  /** Python 3's `str.isspace` for one character: the characters `split()` and `strip()` treat as whitespace. */
  predicate IsWhitespace(c: char) {
    var n := c as int;
    (9 <= n <= 13) || (28 <= n <= 32) || n == 0x85 || n == 0xA0 || n == 0x1680
    || (0x2000 <= n <= 0x200A) || n == 0x2028 || n == 0x2029 || n == 0x202F
    || n == 0x205F || n == 0x3000
  }

  predicate NoWhitespace(s: string) {
    forall i :: 0 <= i < |s| ==> !IsWhitespace(s[i])
  }

  /** Made only of the space character (the regex ` *` matches all of it). */
  predicate AllSpaces(s: string) {
    forall i :: 0 <= i < |s| ==> s[i] == ' '
  }

  /** Length of the match of the regex `^ *`: the leading space characters (tabs are not spaces here). */
  function LeadingSpaces(s: string): (n: nat)
    ensures n <= |s| && AllSpaces(s[..n])
    ensures n == |s| || s[n] != ' '
  {
    if |s| > 0 && s[0] == ' ' then
      var n := 1 + LeadingSpaces(s[1..]);
      assert s[..n] == [s[0]] + s[1..][..n - 1];
      n
    else 0
  }

  /** `re.sub("^ *", "", s)`: the text with its leading spaces removed. */
  function DropSpaces(s: string): string {
    s[LeadingSpaces(s)..]
  }

  /** `s.lstrip()`. */
  function LStrip(s: string): (r: string)
    ensures |r| <= |s|
    ensures |r| == 0 || !IsWhitespace(r[0])
  {
    if |s| > 0 && IsWhitespace(s[0]) then LStrip(s[1..]) else s
  }

  /** LStrip removes exactly a leading run of whitespace. */
  lemma {:induction false} LStripRemovesWhitespacePrefix(s: string)
    ensures LStrip(s) == s[|s| - |LStrip(s)|..]
    ensures forall i :: 0 <= i < |s| - |LStrip(s)| ==> IsWhitespace(s[i])
  {
    if |s| > 0 && IsWhitespace(s[0]) {
      LStripRemovesWhitespacePrefix(s[1..]);
      assert forall i :: 1 <= i < |s| - |LStrip(s)| ==> s[i] == s[1..][i - 1];
    }
  }

  /** `s.rstrip()`. */
  function RStrip(s: string): (r: string)
    ensures |r| <= |s|
    ensures |r| == 0 || !IsWhitespace(r[|r| - 1])
  {
    if |s| > 0 && IsWhitespace(s[|s| - 1]) then RStrip(s[..|s| - 1]) else s
  }

  /** RStrip removes exactly a trailing run of whitespace. */
  lemma {:induction false} RStripRemovesWhitespaceSuffix(s: string)
    ensures RStrip(s) == s[..|RStrip(s)|]
    ensures forall i :: |RStrip(s)| <= i < |s| ==> IsWhitespace(s[i])
  {
    if |s| > 0 && IsWhitespace(s[|s| - 1]) {
      RStripRemovesWhitespaceSuffix(s[..|s| - 1]);
      assert forall i :: |RStrip(s)| <= i < |s| - 1 ==> s[i] == s[..|s| - 1][i];
    }
  }

  /** `s.strip()`. */
  function Strip(s: string): (r: string)
    ensures |r| == 0 || (!IsWhitespace(r[0]) && !IsWhitespace(r[|r| - 1]))
  {
    var l := LStrip(s);
    RStripRemovesWhitespaceSuffix(l);
    RStrip(l)
  }

  /** Length of the leading run of non-whitespace characters. */
  function WordLength(s: string): (n: nat)
    ensures n <= |s| && NoWhitespace(s[..n])
    ensures n == |s| || IsWhitespace(s[n])
  {
    if |s| > 0 && !IsWhitespace(s[0]) then
      var n := 1 + WordLength(s[1..]);
      assert s[..n] == [s[0]] + s[1..][..n - 1];
      n
    else 0
  }

  /** `s.split()`: the maximal runs of non-whitespace characters, in order. */
  function Words(s: string): (ws: seq<string>)
    ensures forall i :: 0 <= i < |ws| ==> |ws[i]| > 0 && NoWhitespace(ws[i])
    decreases |s|
  {
    var t := LStrip(s);
    if |t| == 0 then []
    else
      var n := WordLength(t);
      var w := t[..n];
      var rest := Words(t[n..]);
      [w] + rest
  }

  /** `sep.join(parts)`. */
  function JoinWith(parts: seq<string>, sep: string): string {
    if |parts| == 0 then ""
    else if |parts| == 1 then parts[0]
    else parts[0] + sep + JoinWith(parts[1..], sep)
  }

  /** `s.split(sep)` for a one-character separator: empty pieces are kept. */
  function SplitOn(s: string, sep: char): (r: seq<string>)
    ensures |r| == Count(s, sep) + 1
    ensures forall i :: 0 <= i < |r| ==> sep !in r[i]
  {
    if |s| == 0 then [""]
    else
      var rest := SplitOn(s[1..], sep);
      if s[0] == sep then [""] + rest
      else [[s[0]] + rest[0]] + rest[1..]
  }

  /** `s.count(c)`. */
  function Count(s: string, c: char): nat {
    if |s| == 0 then 0 else (if s[0] == c then 1 else 0) + Count(s[1..], c)
  }

  /** The text the regex `.*` matches at the start of `s`: everything before the first newline. */
  function UpToNewline(s: string): (r: string)
    ensures r <= s && '\n' !in r
    ensures |r| == |s| || s[|r|] == '\n'
  {
    if |s| == 0 || s[0] == '\n' then ""
    else
      var r := [s[0]] + UpToNewline(s[1..]);
      assert '\n' !in r;
      r
  }

  /** On a line without a newline, `.*` takes the whole line. */
  lemma UpToNewlineWhole(s: string)
    requires '\n' !in s
    ensures UpToNewline(s) == s
  {
  }

  /** Index of the first occurrence of `c` (`s.index(c)`). */
  function IndexOf(s: string, c: char): (i: nat)
    requires c in s
    ensures i < |s| && s[i] == c && c !in s[..i]
  {
    if s[0] == c then 0
    else
      var i := 1 + IndexOf(s[1..], c);
      assert s[..i] == [s[0]] + s[1..][..i - 1];
      i
  }

  /** `c.lower()` for the ASCII letters. */
  function LowerChar(c: char): char {
    if 'A' <= c <= 'Z' then (c as int + 32) as char else c
  }

  /** `s.lower()` restricted to ASCII case mapping. */
  function Lower(s: string): (r: string)
    ensures |r| == |s| && forall i :: 0 <= i < |s| ==> r[i] == LowerChar(s[i])
  {
    if |s| == 0 then "" else [LowerChar(s[0])] + Lower(s[1..])
  }

  /** The characters Python's `re` gives a special meaning outside a character class. */
  predicate IsRegexMeta(c: char) {
    c in ".^$*+?{}[]\\|()"
  }

  /** A name or key that, spliced into a pattern, matches only itself. */
  predicate IsLiteral(s: string) {
    forall i :: 0 <= i < |s| ==> !IsRegexMeta(s[i])
  }

  /** The regex ` *` followed by the literal `lit` matches `s` starting at offset `k`,
      the spaces occupying `s[..k]`. */
  predicate SpacesThenAt(s: string, lit: string, k: nat) {
    k + |lit| <= |s| && AllSpaces(s[..k]) && s[k..k + |lit|] == lit
  }

  /** Where the match of the regex ` *<lit>` at the start of `s` ends, if it matches.
      When `lit` itself starts with spaces the regex engine backtracks; the greedy
      ` *` makes it settle on the longest run of spaces that still lets `lit` follow. */
  function MatchSpacesThen(s: string, lit: string): (r: Option<nat>)
    ensures r.Some? ==> |lit| <= r.value <= |s|
  {
    var n := LeadingSpaces(s);
    var p := LeadingSpaces(lit);
    if n >= p && lit[p..] <= s[n..] then Some(n + |lit| - p) else None
  }

  /** MatchSpacesThen is the regex: it succeeds exactly when some run of spaces followed by
      `lit` begins `s`, and it reports the end of the match the engine chooses, the one
      with the most spaces. */
  lemma MatchSpacesThenIsRegex(s: string, lit: string)
    ensures MatchSpacesThen(s, lit).Some? <==> exists k: nat :: SpacesThenAt(s, lit, k)
    ensures MatchSpacesThen(s, lit).Some? ==>
              var e := MatchSpacesThen(s, lit).value;
              SpacesThenAt(s, lit, e - |lit|)
              && forall k: nat :: SpacesThenAt(s, lit, k) ==> k <= e - |lit|
  {
    var n := LeadingSpaces(s);
    var p := LeadingSpaces(lit);
    if n >= p && lit[p..] <= s[n..] {
      SpacesThenAtGreedy(s, lit, n, p);
      forall k: nat | SpacesThenAt(s, lit, k)
        ensures k <= n - p
      {
        SpacesThenAtBound(s, lit, k);
      }
    } else {
      forall k: nat | SpacesThenAt(s, lit, k)
        ensures false
      {
        SpacesThenAtBound(s, lit, k);
      }
    }
  }

  /** When the literal's non-space remainder follows the line's indentation, the literal
      matches with its own leading spaces taken from the end of that indentation. */
  lemma SpacesThenAtGreedy(s: string, lit: string, n: nat, p: nat)
    requires n <= |s| && AllSpaces(s[..n]) && p <= |lit| && AllSpaces(lit[..p])
    requires n >= p && lit[p..] <= s[n..]
    ensures SpacesThenAt(s, lit, n - p)
  {
    var k := n - p;
    var q := |lit| - p;
    var rest := s[n..];
    assert rest[..q] == lit[p..];
    assert rest[..q] == s[n..n + q];
    var head := s[..n];
    AllSpacesSlice(head, k, n);
    assert head[k..n] == s[k..n];
    AllSpacesEqual(s[k..n], lit[..p]);
    SliceOfPieces(s, lit, k, p);
    AllSpacesSlice(head, 0, k);
    assert head[0..k] == s[..k];
  }

  /** Two adjacent slices of `s` that equal the two halves of `lit` make up `lit`. */
  lemma SliceOfPieces(s: string, lit: string, k: nat, p: nat)
    requires p <= |lit| && k + |lit| <= |s|
    requires s[k..k + p] == lit[..p] && s[k + p..k + |lit|] == lit[p..]
    ensures s[k..k + |lit|] == lit
  {
    assert s[k..k + |lit|] == s[k..k + p] + s[k + p..k + |lit|];
    assert lit == lit[..p] + lit[p..];
  }

  /** Any place ` *<lit>` matches lines up the literal's own leading spaces with the
      line's, so the remainder of the literal starts where the line's spaces end. */
  lemma SpacesThenAtBound(s: string, lit: string, k: nat)
    requires SpacesThenAt(s, lit, k)
    ensures LeadingSpaces(s) >= LeadingSpaces(lit)
    ensures lit[LeadingSpaces(lit)..] <= s[LeadingSpaces(s)..]
    ensures k <= LeadingSpaces(s) - LeadingSpaces(lit)
  {
    var p := LeadingSpaces(lit);
    assert s[..k + |lit|] == s[..k] + lit;
    if p == |lit| {
      // The literal is all spaces: the whole match is spaces.
      assert lit[..p] == lit;
      AllSpacesConcat(s[..k], lit);
      LeadingSpacesAtLeast(s, k + |lit|);
    } else {
      // The first non-space of the literal is the first non-space of the line.
      assert s[..k + p] == s[..k] + lit[..p];
      AllSpacesConcat(s[..k], lit[..p]);
      assert s[k + p] == lit[p];
      LeadingSpacesExact(s, k + p);
      assert lit[p..] == s[k + p..k + |lit|];
    }
  }

  lemma AllSpacesSlice(s: string, i: nat, j: nat)
    requires AllSpaces(s) && i <= j <= |s|
    ensures AllSpaces(s[i..j])
  {
    assert forall m :: 0 <= m < j - i ==> s[i..j][m] == s[i + m];
  }

  lemma AllSpacesEqual(a: string, b: string)
    requires AllSpaces(a) && AllSpaces(b) && |a| == |b|
    ensures a == b
  {
  }

  lemma AllSpacesConcat(a: string, b: string)
    requires AllSpaces(a) && AllSpaces(b)
    ensures AllSpaces(a + b)
  {
    assert forall m :: |a| <= m < |a| + |b| ==> (a + b)[m] == b[m - |a|];
  }

  /** A prefix made of spaces is covered by the leading-space count. */
  lemma {:induction false} LeadingSpacesAtLeast(s: string, m: nat)
    requires m <= |s| && AllSpaces(s[..m])
    ensures LeadingSpaces(s) >= m
    decreases m
  {
    if m > 0 {
      assert s[..m][0] == ' ';
      assert s[1..][..m - 1] == s[..m][1..];
      LeadingSpacesAtLeast(s[1..], m - 1);
    }
  }

  /** A run of spaces that ends at a non-space is exactly the leading spaces. */
  lemma {:induction false} LeadingSpacesExact(s: string, m: nat)
    requires m < |s| && s[m] != ' ' && AllSpaces(s[..m])
    ensures LeadingSpaces(s) == m
    decreases m
  {
    if m > 0 {
      assert s[..m][0] == ' ';
      assert s[1..][..m - 1] == s[..m][1..];
      LeadingSpacesExact(s[1..], m - 1);
    }
  }

  /** The indentation ends at or before the first non-space character. */
  lemma LeadingSpacesBelow(s: string, j: nat)
    requires j < |s| && s[j] != ' '
    ensures LeadingSpaces(s) <= j
  {
  }

  /** Stripping leaves a string alone when it neither starts nor ends with whitespace. */
  lemma StripUnchanged(s: string)
    requires |s| == 0 || (!IsWhitespace(s[0]) && !IsWhitespace(s[|s| - 1]))
    ensures Strip(s) == s
  {
  }

  /** A leading separator space is stripped away with the rest of the indentation. */
  lemma StripAfterSpace(v: string)
    ensures Strip(" " + v) == Strip(v)
  {
    assert (" " + v)[1..] == v;
  }

  /** The run of non-whitespace at the front of `w + rest` is all of `w` when `rest`
      starts with whitespace or is empty. */
  lemma {:induction false} WordLengthOfWord(w: string, rest: string)
    requires NoWhitespace(w) && (|rest| == 0 || IsWhitespace(rest[0]))
    ensures WordLength(w + rest) == |w|
    decreases |w|
  {
    if |w| > 0 {
      assert (w + rest)[0] == w[0];
      assert (w + rest)[1..] == w[1..] + rest;
      WordLengthOfWord(w[1..], rest);
    } else {
      assert w + rest == rest;
    }
  }

  /** A word followed by whitespace (or nothing) is the first word `split()` returns. */
  lemma WordsCons(w: string, rest: string)
    requires |w| > 0 && NoWhitespace(w) && (|rest| == 0 || IsWhitespace(rest[0]))
    ensures Words(w + rest) == [w] + Words(rest)
  {
    assert (w + rest)[0] == w[0];
    assert LStrip(w + rest) == w + rest;
    WordLengthOfWord(w, rest);
    assert (w + rest)[..|w|] == w;
    assert (w + rest)[|w|..] == rest;
  }

  /** `split()` skips a leading space. */
  lemma WordsAfterSpace(s: string)
    ensures Words(" " + s) == Words(s)
  {
    assert (" " + s)[1..] == s;
    assert LStrip(" " + s) == LStrip(s);
  }

  /** `split()` recovers the words that `" ".join` glued together. */
  lemma {:induction false} WordsOfJoin(ws: seq<string>)
    requires forall i :: 0 <= i < |ws| ==> |ws[i]| > 0 && NoWhitespace(ws[i])
    ensures Words(JoinWith(ws, " ")) == ws
  {
    if |ws| == 1 {
      WordsCons(ws[0], "");
      assert ws[0] + "" == ws[0];
    } else if |ws| > 1 {
      var rest := JoinWith(ws[1..], " ");
      assert JoinWith(ws, " ") == ws[0] + (" " + rest);
      WordsCons(ws[0], " " + rest);
      WordsAfterSpace(rest);
      WordsOfJoin(ws[1..]);
    }
  }

  /** Joining the pieces of `s.split(sep)` with `sep` gives back `s`: the strict split loses nothing. */
  lemma {:induction false} JoinOfSplit(s: string, sep: char)
    ensures JoinWith(SplitOn(s, sep), [sep]) == s
  {
    if |s| > 0 {
      var rest := SplitOn(s[1..], sep);
      JoinOfSplit(s[1..], sep);
      if s[0] == sep {
        assert JoinWith([""] + rest, [sep]) == "" + [sep] + JoinWith(rest, [sep]);
      } else {
        var first := [s[0]] + rest[0];
        if |rest| == 1 {
          assert JoinWith([first], [sep]) == first;
        } else {
          assert ([first] + rest[1..])[1..] == rest[1..];
          assert JoinWith([first] + rest[1..], [sep]) == first + [sep] + JoinWith(rest[1..], [sep]);
          assert JoinWith(rest, [sep]) == rest[0] + [sep] + JoinWith(rest[1..], [sep]);
        }
      }
    }
  }

  /** Splitting `p + t` where `p` holds no separator glues `p` onto the first piece of `t`. */
  lemma {:induction false} SplitOnPrefix(p: string, t: string, sep: char)
    requires sep !in p
    ensures SplitOn(p + t, sep) == [p + SplitOn(t, sep)[0]] + SplitOn(t, sep)[1..]
    decreases |p|
  {
    if |p| == 0 {
      var u := SplitOn(t, sep);
      assert p + t == t && p + u[0] == u[0];
      assert u == [u[0]] + u[1..];
    } else {
      assert (p + t)[0] == p[0];
      assert (p + t)[1..] == p[1..] + t;
      assert p[0] != sep;
      SplitOnPrefix(p[1..], t, sep);
      var r := SplitOn(p[1..] + t, sep);
      var u := SplitOn(t, sep);
      assert r[0] == p[1..] + u[0] && r[1..] == u[1..];
      assert SplitOn(p + t, sep) == [[p[0]] + r[0]] + r[1..];
      assert [p[0]] + (p[1..] + u[0]) == p + u[0];
    }
  }

  /** `s.split(sep)` recovers the pieces that `sep.join` glued together, provided no piece
      contains the separator. */
  lemma {:induction false} SplitOfJoin(ps: seq<string>, sep: char)
    requires |ps| >= 1 && forall i :: 0 <= i < |ps| ==> sep !in ps[i]
    ensures SplitOn(JoinWith(ps, [sep]), sep) == ps
  {
    if |ps| == 1 {
      SplitOnPrefix(ps[0], "", sep);
      assert ps[0] + "" == ps[0];
    } else {
      var rest := JoinWith(ps[1..], [sep]);
      assert JoinWith(ps, [sep]) == ps[0] + ([sep] + rest);
      SplitOnPrefix(ps[0], [sep] + rest, sep);
      assert ([sep] + rest)[1..] == rest;
      SplitOfJoin(ps[1..], sep);
      assert ps[0] + "" == ps[0];
    }
  }
  /** The first part begins the joined string. */
  lemma JoinStartsWith(ps: seq<string>, sep: string)
    requires |ps| >= 1
    ensures ps[0] <= JoinWith(ps, sep)
  {
    if |ps| > 1 {
      assert JoinWith(ps, sep) == ps[0] + (sep + JoinWith(ps[1..], sep));
    }
  }

  /** The last part ends the joined string. */
  lemma {:induction false} JoinEndsWith(ps: seq<string>, sep: string)
    requires |ps| >= 1
    ensures var j := JoinWith(ps, sep);
            |ps[|ps| - 1]| <= |j| && j[|j| - |ps[|ps| - 1]|..] == ps[|ps| - 1]
  {
    if |ps| > 1 {
      JoinEndsWith(ps[1..], sep);
      var rest := JoinWith(ps[1..], sep);
      var j := JoinWith(ps, sep);
      assert j == (ps[0] + sep) + rest;
      assert j[|j| - |rest|..] == rest;
    }
  }

  /** A character in neither the parts nor the separator is not in the joined string. */
  lemma {:induction false} JoinAvoids(ps: seq<string>, sep: string, c: char)
    requires c !in sep && forall i :: 0 <= i < |ps| ==> c !in ps[i]
    ensures c !in JoinWith(ps, sep)
  {
    if |ps| > 1 {
      JoinAvoids(ps[1..], sep, c);
    }
  }

  /** A prefix of the first part can be taken out of the join. */
  lemma JoinHeadPrefix(p: string, x: string, rest: seq<string>, sep: string)
    ensures JoinWith([p + x] + rest, sep) == p + JoinWith([x] + rest, sep)
  {
    if |rest| > 0 {
      assert ([p + x] + rest)[1..] == rest && ([x] + rest)[1..] == rest;
    }
  }

  /** Stripping keeps a slice of the string, so it adds no character. */
  lemma StripKeeps(s: string, c: char)
    requires c !in s
    ensures c !in Strip(s)
  {
    LStripRemovesWhitespacePrefix(s);
    RStripRemovesWhitespaceSuffix(LStrip(s));
  }
}
