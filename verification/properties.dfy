/** Property lines `<key>: <value>`: `getProperty` finds the value of one key and
    `getProperties` collects every key of a block into a dictionary. */
module Properties {
  import opened Results
  import opened Text
  import opened Dicts

  /** The key `^ *(.*?):.*` captures: after the indentation, the text before the first
      colon, provided that colon comes before any newline. */
  function ColonKey(line: string): (r: Option<string>)
    ensures r.Some? <==> ':' in UpToNewline(DropSpaces(line))
    ensures r.Some? ==> ':' !in r.value && '\n' !in r.value && r.value + ":" <= DropSpaces(line)
  {
    var t := DropSpaces(line);
    var u := UpToNewline(t);
    if ':' in u then
      var i := IndexOf(u, ':');
      assert u[..i] + ":" == u[..i + 1];
      Some(u[..i])
    else None
  }

  /** What `^ *<key> *:(.*)` makes of one line, with the key taken literally: the
      captured rest of the line, stripped, or None when the pattern does not match. The
      spaces before the colon follow the end of the key the engine settles on. */
  function PropertyValue(line: string, key: string): (r: Option<string>)
    ensures r.Some? ==> MatchSpacesThen(line, key).Some?
    ensures r.Some? ==> |r.value| == 0 || (!IsWhitespace(r.value[0]) && !IsWhitespace(r.value[|r.value| - 1]))
  {
    match MatchSpacesThen(line, key)
    case None => None
    case Some(e) =>
      var t := DropSpaces(line[e..]);
      if |t| > 0 && t[0] == ':' then Some(Strip(UpToNewline(t[1..]))) else None
  }

  /** The pattern `^ *<key> *:` matches `line` with `k` spaces before the key and its
      colon at index `c`. */
  predicate PropertyAt(line: string, key: string, k: nat, c: nat) {
    && SpacesThenAt(line, key, k)
    && k + |key| <= c < |line|
    && AllSpaces(line[k + |key|..c])
    && line[c] == ':'
  }

  /** `PropertyValue` is the pattern: it finds a value exactly when ` *<key> *:` begins
      the line, and then the value is the text after that colon, up to the first newline,
      stripped. However the pattern is laid over the line, the colon is the same one. */
  lemma PropertyValueIsRegex(line: string, key: string)
    ensures PropertyValue(line, key).Some? ==> exists k: nat, c: nat :: PropertyAt(line, key, k, c)
    ensures forall k: nat, c: nat :: PropertyAt(line, key, k, c) ==>
              PropertyValue(line, key) == Some(Strip(UpToNewline(line[c + 1..])))
  {
    if PropertyValue(line, key).Some? {
      PropertyValueHasColon(line, key);
    }
    forall k: nat, c: nat | PropertyAt(line, key, k, c)
      ensures PropertyValue(line, key) == Some(Strip(UpToNewline(line[c + 1..])))
    {
      PropertyValueAt(line, key, k, c);
    }
  }

  /** A value is only found where the pattern matches. */
  lemma PropertyValueHasColon(line: string, key: string)
    requires PropertyValue(line, key).Some?
    ensures exists k: nat, c: nat :: PropertyAt(line, key, k, c)
  {
    var e := MatchSpacesThen(line, key).value;
    var s := line[e..];
    var m := LeadingSpaces(s);
    assert DropSpaces(s)[0] == s[m];
    ColonOfMatch(line, key, e);
  }

  /** Where the pattern matches, the value is the stripped text after its colon. */
  lemma PropertyValueAt(line: string, key: string, k: nat, c: nat)
    requires PropertyAt(line, key, k, c)
    ensures PropertyValue(line, key) == Some(Strip(UpToNewline(line[c + 1..])))
  {
    MatchSpacesThenIsRegex(line, key);
    var e := MatchSpacesThen(line, key).value;
    ColonAfterMatch(line, key, e, k, c);
    var s := line[e..];
    assert s[c - e] == line[c];
    assert DropSpaces(s) == s[c - e..];
    assert s[c - e..][1..] == line[c + 1..];
  }

  /** When spaces and a colon follow the key the engine matched, the pattern matches
      there. */
  lemma ColonOfMatch(line: string, key: string, e: nat)
    requires MatchSpacesThen(line, key) == Some(e)
    requires LeadingSpaces(line[e..]) < |line| - e && line[e + LeadingSpaces(line[e..])] == ':'
    ensures PropertyAt(line, key, e - |key|, e + LeadingSpaces(line[e..]))
  {
    MatchSpacesThenIsRegex(line, key);
    var m := LeadingSpaces(line[e..]);
    assert line[e..][..m] == line[e..e + m];
  }

  /** Wherever the pattern matches, its colon ends the run of spaces after the end of the
      key the engine matched. */
  lemma ColonAfterMatch(line: string, key: string, e: nat, k: nat, c: nat)
    requires MatchSpacesThen(line, key) == Some(e) && PropertyAt(line, key, k, c)
    ensures e <= c && LeadingSpaces(line[e..]) == c - e
  {
    if LeadingSpaces(key) < |key| {
      MatchEndOfKey(line, key, k);
      assert e == k + |key|;
    } else {
      MatchEndOfSpaces(line, key, k, c);
      assert e == c;
    }
    assert line[e..][..c - e] == line[e..c];
    assert line[e..][c - e] == line[c];
    LeadingSpacesExact(line[e..], c - e);
  }

  /** A key with a non-space character is matched at one place only: its first non-space
      sits on the line's first non-space. */
  lemma MatchEndOfKey(line: string, key: string, k: nat)
    requires SpacesThenAt(line, key, k) && LeadingSpaces(key) < |key|
    ensures LeadingSpaces(line) == k + LeadingSpaces(key)
  {
    var p := LeadingSpaces(key);
    SpacesThroughKey(line, key, k, p);
    assert line[k + p] == line[k..k + |key|][p];
    LeadingSpacesExact(line, k + p);
  }

  /** A key of spaces only is swallowed by the indentation, so the line's spaces run up to
      the colon. */
  lemma MatchEndOfSpaces(line: string, key: string, k: nat, c: nat)
    requires PropertyAt(line, key, k, c) && LeadingSpaces(key) == |key|
    ensures LeadingSpaces(line) == c
  {
    assert key[..|key|] == key;
    SpacesThroughKey(line, key, k, |key|);
    AllSpacesExtend(line, k + |key|, c);
    LeadingSpacesExact(line, c);
  }

  /** Spaces before the key and the key's own leading spaces make one run of spaces. */
  lemma SpacesThroughKey(line: string, key: string, k: nat, j: nat)
    requires k + |key| <= |line| && line[k..k + |key|] == key && AllSpaces(line[..k])
    requires j <= |key| && AllSpaces(key[..j])
    ensures AllSpaces(line[..k + j])
  {
    var n := k + j;
    forall i | 0 <= i < n
      ensures line[..n][i] == ' '
    {
      if i < k {
        assert line[..k][i] == line[i];
      } else {
        assert line[k..k + |key|][i - k] == line[i];
        assert key[..j][i - k] == key[i - k];
      }
    }
  }

  /** Two adjacent runs of spaces at the start of a string make one. */
  lemma AllSpacesExtend(s: string, a: nat, b: nat)
    requires a <= b <= |s| && AllSpaces(s[..a]) && AllSpaces(s[a..b])
    ensures AllSpaces(s[..b])
  {
    forall i | 0 <= i < b
      ensures s[..b][i] == ' '
    {
      if i < a {
        assert s[..a][i] == s[i];
      } else {
        assert s[a..b][i - a] == s[i];
      }
    }
  }

  /** `getProperty`: the value on the first line that matches the key, or "" when none does. */
  function GetProperty(lines: seq<string>, key: string): string
    requires IsLiteral(key)
  {
    if |lines| == 0 then ""
    else
      match PropertyValue(lines[0], key)
      case Some(v) => v
      case None => GetProperty(lines[1..], key)
  }

  /** The first matching line decides the value; later lines are never looked at. */
  lemma {:induction false} GetPropertyFirstMatch(lines: seq<string>, key: string, i: nat)
    requires IsLiteral(key) && i < |lines|
    requires PropertyValue(lines[i], key).Some?
    requires forall j :: 0 <= j < i ==> PropertyValue(lines[j], key).None?
    ensures GetProperty(lines, key) == PropertyValue(lines[i], key).value
  {
    if i > 0 {
      assert PropertyValue(lines[0], key).None?;
      assert forall j :: 0 <= j < i - 1 ==> lines[1..][j] == lines[j + 1];
      GetPropertyFirstMatch(lines[1..], key, i - 1);
    }
  }

  /** A key no line matches has the empty value. */
  lemma {:induction false} GetPropertyNoMatch(lines: seq<string>, key: string)
    requires IsLiteral(key)
    requires forall j :: 0 <= j < |lines| ==> PropertyValue(lines[j], key).None?
    ensures GetProperty(lines, key) == ""
  {
    if |lines| > 0 {
      assert PropertyValue(lines[0], key).None?;
      assert forall j :: 0 <= j < |lines| - 1 ==> lines[1..][j] == lines[j + 1];
      GetPropertyNoMatch(lines[1..], key);
    }
  }

  /** Every captured key can be spliced into a pattern as a literal. */
  predicate KeysLiteral(lines: seq<string>) {
    forall i :: 0 <= i < |lines| && ColonKey(lines[i]).Some? ==> IsLiteral(ColonKey(lines[i]).value)
  }

  /** The captured keys, line by line, repetitions included. */
  function ColonKeys(lines: seq<string>): seq<string> {
    if |lines| == 0 then []
    else
      (match ColonKey(lines[0]) case Some(k) => [k] case None => []) + ColonKeys(lines[1..])
  }

  /** Each entry of `d` holds what `getProperty` finds for its key in `lines`. */
  predicate ValuesFrom(d: Dict<string>, lines: seq<string>) {
    forall i :: 0 <= i < |d| ==> IsLiteral(d[i].0) && d[i].1 == GetProperty(lines, d[i].0)
  }

  /** Storing a key's looked-up value keeps every entry looked up. */
  lemma {:induction false} PutKeepsValuesFrom(d: Dict<string>, k: string, lines: seq<string>)
    requires IsLiteral(k) && ValuesFrom(d, lines)
    ensures ValuesFrom(Put(d, k, GetProperty(lines, k)), lines)
  {
    if |d| > 0 && d[0].0 != k {
      assert ValuesFrom(d[1..], lines) by {
        assert forall i :: 0 <= i < |d| - 1 ==> d[1..][i] == d[i + 1];
      }
      PutKeepsValuesFrom(d[1..], k, lines);
    }
  }

  /** One store of the loop keeps the dictionary a dictionary and every entry looked up,
      and adds the key at the end when it is new. */
  lemma StoreStep(acc: Dict<string>, k: string, all: seq<string>)
    requires IsLiteral(k)
    ensures IsDict(acc) ==> IsDict(Put(acc, k, GetProperty(all, k)))
    ensures ValuesFrom(acc, all) ==> ValuesFrom(Put(acc, k, GetProperty(all, k)), all)
    ensures Keys(Put(acc, k, GetProperty(all, k))) == if k in Keys(acc) then Keys(acc) else Keys(acc) + [k]
  {
    var v := GetProperty(all, k);
    if IsDict(acc) {
      PutKeepsDict(acc, k, v);
    }
    if ValuesFrom(acc, all) {
      PutKeepsValuesFrom(acc, k, all);
    }
    if k !in Keys(acc) {
      KeysAppend(acc, k, v);
    }
  }

  /** The loop of `getProperties` from a given point on: each line with a key stores
      `getProperty(all, key)` under that key. */
  function CollectProperties(all: seq<string>, rest: seq<string>, acc: Dict<string>): (r: Dict<string>)
    requires KeysLiteral(rest)
    ensures IsDict(acc) ==> IsDict(r)
    ensures Keys(r) == AddNew(Keys(acc), ColonKeys(rest))
    ensures ValuesFrom(acc, all) ==> ValuesFrom(r, all)
    decreases |rest|
  {
    if |rest| == 0 then acc
    else
      assert KeysLiteral(rest[1..]) by {
        assert forall i :: 0 <= i < |rest| - 1 ==> rest[1..][i] == rest[i + 1];
      }
      match ColonKey(rest[0])
      case None =>
        assert ColonKeys(rest) == ColonKeys(rest[1..]);
        CollectProperties(all, rest[1..], acc)
      case Some(k) =>
        var v := GetProperty(all, k);
        var ks := ColonKeys(rest[1..]);
        assert ColonKeys(rest) == [k] + ks;
        assert ([k] + ks)[1..] == ks;
        StoreStep(acc, k, all);
        CollectProperties(all, rest[1..], Put(acc, k, v))
  }

  /** `getProperties`: one entry per distinct key, in order of first appearance, each
      holding the value `getProperty` gives for that key over the whole block. */
  function GetProperties(lines: seq<string>): (r: Dict<string>)
    requires KeysLiteral(lines)
    ensures IsDict(r)
    ensures Keys(r) == Dedup(ColonKeys(lines))
    ensures forall i :: 0 <= i < |r| ==> IsLiteral(r[i].0) && r[i].1 == GetProperty(lines, r[i].0)
  {
    CollectProperties(lines, lines, [])
  }

  /** A key `compressParsedBuffer` can write and `getProperties` reads back as written:
      a literal without colon or newline, not beginning or ending with a space. */
  predicate KeyOk(k: string) {
    IsLiteral(k) && ':' !in k && '\n' !in k && (|k| == 0 || (k[0] != ' ' && k[|k| - 1] != ' '))
  }

  /** A value that survives the round trip: already stripped, on one line. */
  predicate ValueOk(v: string) {
    '\n' !in v && Strip(v) == v
  }

  /** The line `compressParsedBuffer` writes for one property. */
  function PropLine(k: string, v: string): string {
    k + ": " + v
  }

  /** The key of a written property line is the key that was written. */
  lemma ColonKeyOfPropLine(k: string, v: string)
    requires KeyOk(k) && ValueOk(v)
    ensures ColonKey(PropLine(k, v)) == Some(k)
  {
    var line := PropLine(k, v);
    assert line[|k|] == ':';
    LeadingSpacesExact(line, 0);
    assert DropSpaces(line) == line;
    UpToNewlineWhole(line);
    assert line[..|k|] == k;
    assert ':' !in line[..|k|];
  }

  /** A written property line gives its own key's value back. */
  lemma PropertyOfOwnLine(k: string, v: string)
    requires KeyOk(k) && ValueOk(v)
    ensures PropertyValue(PropLine(k, v), k) == Some(v)
  {
    var line := PropLine(k, v);
    assert line[|k|] == ':';
    LeadingSpacesExact(line, 0);
    assert LeadingSpaces(k) == 0;
    assert k <= line;
    assert MatchSpacesThen(line, k) == Some(|k|);
    var rest := line[|k|..];
    assert rest == ": " + v;
    LeadingSpacesExact(rest, 0);
    assert rest[1..] == " " + v;
    UpToNewlineWhole(" " + v);
    StripAfterSpace(v);
  }

  /** A written property line does not match any other well-formed key. */
  lemma PropertyOfOtherLine(k: string, v: string, k2: string)
    requires KeyOk(k) && ValueOk(v) && KeyOk(k2) && k2 != k
    ensures PropertyValue(PropLine(k, v), k2).None?
  {
    var line := PropLine(k, v);
    assert line[|k|] == ':';
    LeadingSpacesExact(line, 0);
    assert LeadingSpaces(k2) == 0;
    if k2 <= line && |k2| < |k| {
      var rest := line[|k2|..];
      assert rest == k[|k2|..] + ": " + v;
      var m := LeadingSpaces(rest);
      assert rest[|k| - |k2| - 1] == k[|k| - 1];
      LeadingSpacesBelow(rest, |k| - |k2| - 1);
      assert rest[m] == k[|k2| + m];
      assert k[|k2| + m] in k;
    }
  }

  /** A property dictionary `compressParsedBuffer` can write and read back unchanged. */
  predicate PropsOk(p: Dict<string>) {
    IsDict(p) && forall i :: 0 <= i < |p| ==> KeyOk(p[i].0) && ValueOk(p[i].1)
  }

  /** The property lines of one option, in dictionary order. */
  function PropLines(p: Dict<string>): (r: seq<string>)
    ensures |r| == |p|
  {
    seq(|p|, i requires 0 <= i < |p| => PropLine(p[i].0, p[i].1))
  }

  lemma {:induction false} ColonKeysOfPropLines(p: Dict<string>)
    requires forall i :: 0 <= i < |p| ==> KeyOk(p[i].0) && ValueOk(p[i].1)
    ensures ColonKeys(PropLines(p)) == Keys(p)
  {
    if |p| > 0 {
      ColonKeyOfPropLine(p[0].0, p[0].1);
      assert PropLines(p)[1..] == PropLines(p[1..]);
      ColonKeysOfPropLines(p[1..]);
      assert Keys(p) == [p[0].0] + Keys(p[1..]);
    }
  }

  /** The written lines carry exactly the written keys. */
  lemma PropLinesKeys(p: Dict<string>)
    requires forall i :: 0 <= i < |p| ==> KeyOk(p[i].0) && ValueOk(p[i].1)
    ensures forall i :: 0 <= i < |p| ==> ColonKey(PropLines(p)[i]) == Some(p[i].0)
    ensures KeysLiteral(PropLines(p))
  {
    forall i | 0 <= i < |p|
      ensures ColonKey(PropLines(p)[i]) == Some(p[i].0)
    {
      ColonKeyOfPropLine(p[i].0, p[i].1);
    }
  }

  /** Each written key finds its own line first, so it reads back its own value. */
  lemma PropLinesValue(p: Dict<string>, i: nat)
    requires PropsOk(p) && i < |p|
    ensures GetProperty(PropLines(p), p[i].0) == p[i].1
  {
    var lines := PropLines(p);
    var k := p[i].0;
    forall j | 0 <= j < i
      ensures PropertyValue(lines[j], k).None?
    {
      PropertyOfOtherLine(p[j].0, p[j].1, k);
    }
    PropertyOfOwnLine(k, p[i].1);
    GetPropertyFirstMatch(lines, k, i);
  }

  /** Reading back the written property lines gives the dictionary that was written:
      same keys in the same order, same values. */
  lemma PropertiesRoundTrip(p: Dict<string>)
    requires PropsOk(p)
    ensures KeysLiteral(PropLines(p))
    ensures GetProperties(PropLines(p)) == p
  {
    var lines := PropLines(p);
    PropLinesKeys(p);
    ColonKeysOfPropLines(p);
    DictKeysDistinct(p);
    AddNewOfDistinct([], Keys(p));
    assert [] + Keys(p) == Keys(p);
    var r := GetProperties(lines);
    assert Keys(r) == Keys(p);
    forall i | 0 <= i < |p|
      ensures r[i] == p[i]
    {
      assert r[i].0 == Keys(r)[i];
      PropLinesValue(p, i);
    }
  }
}
