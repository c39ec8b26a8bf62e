/** `compressParsedBuffer` is the inverse of `parseCompressedBuffer`: parsing what it
    writes gives the parsed document back, for every document whose names and keys the
    line format can carry. */
module RoundTrip {
  import opened Results
  import opened Text
  import opened Dicts
  import opened Blocks
  import opened Properties
  import opened Document
  import opened Writer
  import opened LineFilter

  /** A key whose property line cannot be mistaken for a block marker. */
  predicate KeyQuiet(k: string) {
    && !(Opener(SectionBlock) <= k) && !(Opener(OptionBlock) <= k)
    && !(Closer(SectionBlock) <= k) && !(Closer(OptionBlock) <= k)
  }

  /** The properties of an option the line format carries: well-formed keys and values,
      none of which reads as a block marker. */
  predicate OptionFits(p: Props) {
    PropsOk(p) && forall m :: 0 <= m < |p| ==> KeyQuiet(p[m].0)
  }

  /** A section the line format carries: distinct names, none a prefix of another. */
  predicate SectionFits(sm: SectionMap) {
    && IsDict(sm) && PrefixFree(Keys(sm))
    && forall j :: 0 <= j < |sm| ==> NameOk(sm[j].0) && OptionFits(sm[j].1)
  }

  /** A document the line format carries. */
  predicate DocFits(d: Doc) {
    && IsDict(d) && PrefixFree(Keys(d))
    && forall i :: 0 <= i < |d| ==> NameOk(d[i].0) && SectionFits(d[i].1)
  }

  /** An option `parseCompressedBuffer` accepts: it has a `Type`, and a `Value` whenever
      the type is the one that triggers relocation. */
  predicate OptionOk(p: Props, tag: string) {
    && OptionFits(p)
    && Get(p, TypeKey).Some?
    && (Get(p, TypeKey).value == tag ==> Get(p, ValueKey).Some?)
  }

  predicate SectionOk(sm: SectionMap, tag: string) {
    SectionFits(sm) && forall j :: 0 <= j < |sm| ==> OptionOk(sm[j].1, tag)
  }

  /** A document the format carries and `parseCompressedBuffer` accepts. */
  predicate DocOk(d: Doc, tag: string) {
    DocFits(d) && forall i :: 0 <= i < |d| ==> SectionOk(d[i].1, tag)
  }

  /** An option the format carries always survives relocation. */
  lemma RewriteOk(p: Props, tag: string, absPath: string)
    requires OptionOk(p, tag)
    ensures Rewrite(p, tag, absPath).Ok?
  {
  }

  /** The options of a section after relocation. */
  function MovedOptions(sm: SectionMap, tag: string, absPath: string): (r: SectionMap)
    requires SectionOk(sm, tag)
    ensures |r| == |sm| && Keys(r) == Keys(sm)
    ensures forall j :: 0 <= j < |sm| ==> Rewrite(sm[j].1, tag, absPath) == Ok(r[j].1)
  {
    var r := seq(|sm|, j requires 0 <= j < |sm| => MovedOption(sm[j].0, sm[j].1, tag, absPath));
    assert forall j :: 0 <= j < |sm| ==> Keys(r)[j] == Keys(sm)[j];
    r
  }

  /** One option after relocation, under its name. */
  function MovedOption(name: string, p: Props, tag: string, absPath: string): (r: (string, Props))
    requires OptionOk(p, tag)
    ensures r.0 == name && Rewrite(p, tag, absPath) == Ok(r.1)
  {
    RewriteOk(p, tag, absPath);
    (name, Rewrite(p, tag, absPath).value)
  }

  /** A document after relocation. */
  function MovedDoc(d: Doc, tag: string, absPath: string): (r: Doc)
    requires DocOk(d, tag)
    ensures |r| == |d| && Keys(r) == Keys(d)
    ensures forall i :: 0 <= i < |d| ==> r[i].1 == MovedOptions(d[i].1, tag, absPath)
  {
    var r := seq(|d|, i requires 0 <= i < |d| => (d[i].0, MovedOptions(d[i].1, tag, absPath)));
    assert forall i :: 0 <= i < |d| ==> Keys(r)[i] == Keys(d)[i];
    r
  }

  /** A written property line is neither a marker nor a closing line of either kind. */
  lemma PropLineQuiet(k: string, v: string, kind: Kind)
    requires KeyOk(k) && ValueOk(v) && KeyQuiet(k)
    ensures Quiet(PropLine(k, v), kind)
  {
    var line := PropLine(k, v);
    assert line[|k|] == ':';
    LeadingSpacesExact(line, 0);
    KeywordBeforeColon(k, v, Opener(kind));
    KeywordBeforeColon(k, v, Closer(kind));
  }

  /** A keyword without a colon begins a property line only if it begins the key. */
  lemma KeywordBeforeColon(k: string, v: string, kw: string)
    requires ':' !in kw && ':' !in k
    ensures kw <= PropLine(k, v) ==> kw <= k
  {
    var line := PropLine(k, v);
    assert line[|k|] == ':';
    assert |kw| > |k| ==> kw[|k|] in kw && kw[|k|] != line[|k|];
    assert kw <= line && |kw| <= |k| ==> kw == line[..|kw|] == k[..|kw|];
  }

  /** A written property line contributes only its key to patterns. */
  lemma PropLineSafe(k: string, v: string)
    requires KeyOk(k) && ValueOk(v) && KeyQuiet(k)
    ensures LineSafe(PropLine(k, v))
  {
    ColonKeyOfPropLine(k, v);
    PropLineQuiet(k, v, SectionBlock);
    PropLineQuiet(k, v, OptionBlock);
  }

  lemma PropLinesFacts(p: Props)
    requires PropsOk(p) && forall m :: 0 <= m < |p| ==> KeyQuiet(p[m].0)
    ensures RegexSafe(PropLines(p))
    ensures AllQuiet(PropLines(p), SectionBlock) && AllQuiet(PropLines(p), OptionBlock)
  {
    forall m | 0 <= m < |p|
      ensures LineSafe(PropLines(p)[m])
      ensures Quiet(PropLines(p)[m], SectionBlock) && Quiet(PropLines(p)[m], OptionBlock)
    {
      PropLineSafe(p[m].0, p[m].1);
      PropLineQuiet(p[m].0, p[m].1, SectionBlock);
      PropLineQuiet(p[m].0, p[m].1, OptionBlock);
    }
  }

  /** The prefix of a literal is literal. */
  lemma LiteralPrefix(s: string, t: string)
    requires IsLiteral(t) && s <= t
    ensures IsLiteral(s)
  {
    assert forall i :: 0 <= i < |s| ==> s[i] == t[i];
  }

  lemma LiteralConcat(a: string, b: string)
    requires IsLiteral(a) && IsLiteral(b)
    ensures IsLiteral(a + b)
  {
    assert forall i :: |a| <= i < |a + b| ==> (a + b)[i] == b[i - |a|];
  }

  predicate IsLetter(c: char) {
    'a' <= c <= 'z' || 'A' <= c <= 'Z'
  }

  /** Words of letters need no escaping in a pattern and hold no colon or newline. */
  lemma LettersLiteral(s: string)
    requires forall i :: 0 <= i < |s| ==> IsLetter(s[i])
    ensures IsLiteral(s) && ':' !in s && '\n' !in s && ' ' !in s
  {
  }

  lemma OpenerLiteral(k: Kind)
    ensures IsLiteral(Opener(k) + " ")
  {
    LettersLiteral(Opener(k));
    LiteralConcat(Opener(k), " ");
  }

  /** A written header is literal, and so is any key a colon in it would delimit. */
  lemma HeaderSafe(k: Kind, name: string)
    requires NameOk(name)
    ensures LineSafe(Header(k, name))
  {
    var h := Header(k, name);
    HeaderShape(k, name);
    OpenerLiteral(k);
    LiteralConcat(Opener(k) + " ", name);
    ColonKeyLiteral(h);
  }

  /** The key a colon delimits in a literal unindented line is literal. */
  lemma ColonKeyLiteral(line: string)
    requires IsLiteral(line) && DropSpaces(line) == line
    ensures ColonKey(line).Some? ==> IsLiteral(ColonKey(line).value)
  {
    if ColonKey(line).Some? {
      LiteralPrefix(ColonKey(line).value, line);
    }
  }

  /** A closing line has no colon and opens nothing. */
  lemma CloserSafe(k: Kind)
    ensures LineSafe(Closer(k))
  {
    var c := Closer(k);
    LettersLiteral(c);
    LeadingSpacesExact(c, 0);
    UpToNewlineWhole(c);
    CloserShape(k);
    CloserQuiet(k, if k == SectionBlock then OptionBlock else SectionBlock);
  }

  /** Written blocks contribute only literal names and keys when their bodies do. */
  lemma {:induction false} NestSafe(k: Kind, names: seq<string>, bodies: seq<seq<string>>)
    requires |names| == |bodies|
    requires forall j :: 0 <= j < |names| ==> NameOk(names[j]) && RegexSafe(bodies[j])
    ensures RegexSafe(Nest(k, names, bodies))
  {
    if |names| > 0 {
      HeaderSafe(k, names[0]);
      CloserSafe(k);
      NestSafe(k, names[1..], bodies[1..]);
    }
  }

  /** The option blocks written for a section are safe to parse and quiet at section level. */
  lemma OptionLinesFacts(sm: SectionMap)
    requires SectionFits(sm)
    ensures RegexSafe(OptionLines(sm)) && AllQuiet(OptionLines(sm), SectionBlock)
    ensures forall j :: 0 <= j < |sm| ==> AllQuiet(PropBodies(sm)[j], OptionBlock)
  {
    var names := Keys(sm);
    var bodies := PropBodies(sm);
    forall j | 0 <= j < |sm|
      ensures NameOk(names[j]) && RegexSafe(bodies[j])
      ensures AllQuiet(bodies[j], SectionBlock) && AllQuiet(bodies[j], OptionBlock)
    {
      PropLinesFacts(sm[j].1);
    }
    NestSafe(OptionBlock, names, bodies);
    NestQuiet(OptionBlock, SectionBlock, names, bodies);
  }

  /** Each written option block parses back to the option's properties, relocated. */
  lemma ParseWrittenOption(sm: SectionMap, tag: string, absPath: string, j: nat)
    requires SectionOk(sm, tag) && j < |sm|
    ensures RegexSafe(OptionLines(sm)) && IsLiteral(sm[j].0)
    ensures ParseOption(OptionLines(sm), sm[j].0, tag, absPath) == Ok(MovedOptions(sm, tag, absPath)[j].1)
  {
    OptionLinesFacts(sm);
    LinesWithinNest(OptionBlock, Keys(sm), PropBodies(sm), j);
    PropertiesRoundTrip(sm[j].1);
  }

  /** Every option of `want` is what parsing its block of `lines` gives. */
  predicate OptionsWritten(want: SectionMap, lines: seq<string>, tag: string, absPath: string) {
    && RegexSafe(lines)
    && forall j :: 0 <= j < |want| ==> IsLiteral(want[j].0) && ParseOption(lines, want[j].0, tag, absPath) == Ok(want[j].1)
  }

  /** Two option maps with the same keys, both read off the same lines, are equal. */
  lemma OptionsEqual(want: SectionMap, r: SectionMap, lines: seq<string>, tag: string, absPath: string)
    requires OptionsWritten(want, lines, tag, absPath)
    requires Keys(r) == Keys(want) && OptionsFrom(r, lines, tag, absPath)
    ensures r == want
  {
    forall j | 0 <= j < |want|
      ensures r[j] == want[j]
    {
      assert r[j].0 == Keys(r)[j] == want[j].0;
      assert r[j] in r;
    }
  }

  lemma OptionNamesParse(want: SectionMap, lines: seq<string>, tag: string, absPath: string)
    requires OptionsWritten(want, lines, tag, absPath)
    ensures forall n :: n in Keys(want) ==> IsLiteral(n) && ParseOption(lines, n, tag, absPath).Ok?
  {
    forall n | n in Keys(want)
      ensures IsLiteral(n) && ParseOption(lines, n, tag, absPath).Ok?
    {
      var j :| 0 <= j < |want| && Keys(want)[j] == n;
    }
  }

  /** The option blocks written for a section parse back to the section, relocated. */
  lemma ParseWrittenOptions(sm: SectionMap, tag: string, absPath: string)
    requires SectionOk(sm, tag)
    ensures RegexSafe(OptionLines(sm)) && forall n :: n in Keys(sm) ==> IsLiteral(n)
    ensures ParseOptions(OptionLines(sm), Keys(sm), [], tag, absPath) == Ok(MovedOptions(sm, tag, absPath))
  {
    var lines := OptionLines(sm);
    var want := MovedOptions(sm, tag, absPath);
    OptionLinesFacts(sm);
    forall j | 0 <= j < |want|
      ensures IsLiteral(want[j].0) && ParseOption(lines, want[j].0, tag, absPath) == Ok(want[j].1)
    {
      ParseWrittenOption(sm, tag, absPath, j);
    }
    OptionNamesParse(want, lines, tag, absPath);
    DictKeysDistinct(sm);
    AddNewOfDistinct([], Keys(sm));
    assert [] + Keys(sm) == Keys(sm);
    var r := ParseOptions(lines, Keys(sm), [], tag, absPath);
    OptionsEqual(want, r.value, lines, tag, absPath);
  }

  /** Each written section block parses back to the section, relocated. */
  lemma ParseWrittenSection(d: Doc, tag: string, absPath: string, i: nat)
    requires DocOk(d, tag) && i < |d|
    ensures RegexSafe(CompressParsed(d)) && IsLiteral(d[i].0)
    ensures ParseSection(CompressParsed(d), d[i].0, tag, absPath) == Ok(MovedOptions(d[i].1, tag, absPath))
  {
    DocFacts(d);
    LinesWithinNest(SectionBlock, Keys(d), SectionBodies(d), i);
    var sm := d[i].1;
    OptionLinesFacts(sm);
    ListNamesOfNest(OptionBlock, Keys(sm), PropBodies(sm));
    ParseWrittenOptions(sm, tag, absPath);
  }

  lemma DocFacts(d: Doc)
    requires DocFits(d)
    ensures RegexSafe(CompressParsed(d))
    ensures forall i :: 0 <= i < |d| ==> AllQuiet(SectionBodies(d)[i], SectionBlock)
  {
    forall i | 0 <= i < |d|
      ensures RegexSafe(SectionBodies(d)[i]) && AllQuiet(SectionBodies(d)[i], SectionBlock)
    {
      OptionLinesFacts(d[i].1);
    }
    NestSafe(SectionBlock, Keys(d), SectionBodies(d));
  }

  /** Every section of `want` is what parsing its block of `lines` gives. */
  predicate SectionsWritten(want: Doc, lines: seq<string>, tag: string, absPath: string) {
    && RegexSafe(lines)
    && forall i :: 0 <= i < |want| ==> IsLiteral(want[i].0) && ParseSection(lines, want[i].0, tag, absPath) == Ok(want[i].1)
  }

  lemma SectionsEqual(want: Doc, r: Doc, lines: seq<string>, tag: string, absPath: string)
    requires SectionsWritten(want, lines, tag, absPath)
    requires Keys(r) == Keys(want) && SectionsFrom(r, lines, tag, absPath)
    ensures r == want
  {
    forall i | 0 <= i < |want|
      ensures r[i] == want[i]
    {
      assert r[i].0 == Keys(r)[i] == want[i].0;
      assert r[i] in r;
    }
  }

  lemma SectionNamesParse(want: Doc, lines: seq<string>, tag: string, absPath: string)
    requires SectionsWritten(want, lines, tag, absPath)
    ensures forall n :: n in Keys(want) ==> IsLiteral(n) && ParseSection(lines, n, tag, absPath).Ok?
  {
    forall n | n in Keys(want)
      ensures IsLiteral(n) && ParseSection(lines, n, tag, absPath).Ok?
    {
      var i :| 0 <= i < |want| && Keys(want)[i] == n;
    }
  }

  /** Parsing what `compressParsedBuffer` writes gives the document back, with the options
      of type `tag` relocated. */
  lemma ParseOfCompressParsed(d: Doc, tag: string, absPath: string)
    requires DocOk(d, tag)
    ensures RegexSafe(CompressParsed(d))
    ensures ParseWith(CompressParsed(d), tag, absPath) == Ok(MovedDoc(d, tag, absPath))
  {
    var lines := CompressParsed(d);
    var want := MovedDoc(d, tag, absPath);
    DocFacts(d);
    ListNamesOfNest(SectionBlock, Keys(d), SectionBodies(d));
    forall i | 0 <= i < |want|
      ensures IsLiteral(want[i].0) && ParseSection(lines, want[i].0, tag, absPath) == Ok(want[i].1)
    {
      ParseWrittenSection(d, tag, absPath, i);
    }
    SectionNamesParse(want, lines, tag, absPath);
    DictKeysDistinct(d);
    AddNewOfDistinct([], Keys(d));
    assert [] + Keys(d) == Keys(d);
    var r := ParseWith(lines, tag, absPath);
    SectionsEqual(want, r.value, lines, tag, absPath);
  }

  /** No option of `d` has the type `tag`. */
  predicate NoneTagged(d: Doc, tag: string) {
    forall i, j :: 0 <= i < |d| && 0 <= j < |d[i].1| ==> Get(d[i].1[j].1, TypeKey) != Some(tag)
  }

  /** Relocation leaves a section alone when none of its options has the type `tag`. */
  lemma MovedOptionsUnchanged(sm: SectionMap, tag: string, absPath: string)
    requires SectionOk(sm, tag)
    requires forall j :: 0 <= j < |sm| ==> Get(sm[j].1, TypeKey) != Some(tag)
    ensures MovedOptions(sm, tag, absPath) == sm
  {
    var r := MovedOptions(sm, tag, absPath);
    forall j | 0 <= j < |sm|
      ensures r[j] == sm[j]
    {
      assert r[j].0 == Keys(r)[j];
    }
  }

  /** Relocation leaves a document alone when none of its options has the type `tag`. */
  lemma MovedDocUnchanged(d: Doc, tag: string, absPath: string)
    requires DocOk(d, tag) && NoneTagged(d, tag)
    ensures MovedDoc(d, tag, absPath) == d
  {
    var want := MovedDoc(d, tag, absPath);
    forall i | 0 <= i < |d|
      ensures want[i] == d[i]
    {
      MovedOptionsUnchanged(d[i].1, tag, absPath);
      assert want[i].0 == Keys(want)[i];
    }
  }

  /** When no option has the relocating type, parsing the written document gives it back
      exactly. */
  lemma ParseOfCompressParsedExact(d: Doc, tag: string, absPath: string)
    requires DocOk(d, tag) && NoneTagged(d, tag)
    ensures RegexSafe(CompressParsed(d))
    ensures ParseWith(CompressParsed(d), tag, absPath) == Ok(d)
  {
    ParseOfCompressParsed(d, tag, absPath);
    MovedDocUnchanged(d, tag, absPath);
  }

  /** Each written option block reads back as the option's properties. */
  lemma WrittenOptionProps(sm: SectionMap, j: nat)
    requires SectionFits(sm) && j < |sm|
    ensures RegexSafe(OptionLines(sm)) && IsLiteral(sm[j].0)
    ensures OptionProps(OptionLines(sm), sm[j].0) == sm[j].1
  {
    OptionLinesFacts(sm);
    LinesWithinNest(OptionBlock, Keys(sm), PropBodies(sm), j);
    PropertiesRoundTrip(sm[j].1);
  }

  /** Every option of `want` is what reading its block of `lines` gives. */
  predicate PropsWritten(want: SectionMap, lines: seq<string>) {
    && RegexSafe(lines)
    && forall j :: 0 <= j < |want| ==> IsLiteral(want[j].0) && OptionProps(lines, want[j].0) == want[j].1
  }

  lemma {:induction false} OutlineOfPropsWritten(want: SectionMap, lines: seq<string>)
    requires PropsWritten(want, lines)
    ensures RegexSafe(lines) && forall n :: n in Keys(want) ==> IsLiteral(n)
    ensures OutlineOptions(lines, Keys(want)) == want
  {
    assert forall j :: 0 <= j < |want| ==> Keys(want)[j] == want[j].0;
    if |want| > 0 {
      assert PropsWritten(want[1..], lines) by {
        assert forall j :: 0 <= j < |want| - 1 ==> want[1..][j] == want[j + 1];
      }
      OutlineOfPropsWritten(want[1..], lines);
      assert Keys(want)[1..] == Keys(want[1..]);
    }
  }

  /** The option blocks written for a section read back as the section. */
  lemma OutlineOfOptionLines(sm: SectionMap)
    requires SectionFits(sm)
    ensures RegexSafe(OptionLines(sm)) && forall n :: n in Keys(sm) ==> IsLiteral(n)
    ensures OutlineOptions(OptionLines(sm), Keys(sm)) == sm
  {
    OptionLinesFacts(sm);
    forall j | 0 <= j < |sm|
      ensures IsLiteral(sm[j].0) && OptionProps(OptionLines(sm), sm[j].0) == sm[j].1
    {
      WrittenOptionProps(sm, j);
    }
    OutlineOfPropsWritten(sm, OptionLines(sm));
  }

  /** Each written section block reads back as the section. */
  lemma WrittenOutlineSection(d: Doc, i: nat)
    requires DocFits(d) && i < |d|
    ensures RegexSafe(CompressParsed(d)) && IsLiteral(d[i].0)
    ensures OutlineSection(CompressParsed(d), d[i].0) == Ok(d[i].1)
  {
    DocFacts(d);
    LinesWithinNest(SectionBlock, Keys(d), SectionBodies(d), i);
    var sm := d[i].1;
    OptionLinesFacts(sm);
    ListNamesOfNest(OptionBlock, Keys(sm), PropBodies(sm));
    OutlineOfOptionLines(sm);
  }

  /** Every section of `want` is what reading its block of `lines` gives. */
  predicate SectionsOutlined(want: Doc, lines: seq<string>) {
    && RegexSafe(lines)
    && forall i :: 0 <= i < |want| ==> IsLiteral(want[i].0) && OutlineSection(lines, want[i].0) == Ok(want[i].1)
  }

  lemma {:induction false} OutlineOfSectionsOutlined(want: Doc, lines: seq<string>)
    requires SectionsOutlined(want, lines)
    ensures RegexSafe(lines) && forall n :: n in Keys(want) ==> IsLiteral(n)
    ensures OutlineSections(lines, Keys(want)) == Ok(want)
  {
    assert forall i :: 0 <= i < |want| ==> Keys(want)[i] == want[i].0;
    if |want| > 0 {
      assert SectionsOutlined(want[1..], lines) by {
        assert forall i :: 0 <= i < |want| - 1 ==> want[1..][i] == want[i + 1];
      }
      OutlineOfSectionsOutlined(want[1..], lines);
      assert Keys(want)[1..] == Keys(want[1..]);
      assert OutlineSection(lines, Keys(want)[0]) == Ok(want[0].1);
      assert want == [(want[0].0, want[0].1)] + want[1..];
    }
  }

  /** The outline `beautify` walks, read off the canonical lines of a document, is the
      document itself. */
  lemma OutlineOfCompressParsed(d: Doc)
    requires DocFits(d)
    ensures RegexSafe(CompressParsed(d))
    ensures GetOutline(CompressParsed(d)) == Ok(d)
  {
    DocFacts(d);
    ListNamesOfNest(SectionBlock, Keys(d), SectionBodies(d));
    forall i | 0 <= i < |d|
      ensures IsLiteral(d[i].0) && OutlineSection(CompressParsed(d), d[i].0) == Ok(d[i].1)
    {
      WrittenOutlineSection(d, i);
    }
    OutlineOfSectionsOutlined(d, CompressParsed(d));
  }

  /** `beautify` of the canonical lines lays out the document itself, and compressing
      that layout gives the canonical lines back. */
  lemma BeautifyOfCompressParsed(d: Doc, product: string)
    requires DocFits(d) && PrettyKeys(d)
    ensures RegexSafe(CompressParsed(d))
    ensures Beautify(CompressParsed(d), product) == Ok(Title(product) + PrettySections(d))
    ensures Compress(Title(product) + PrettySections(d)) == CompressParsed(d)
  {
    OutlineOfCompressParsed(d);
    BeautifyCompresses(d, product);
  }
}
