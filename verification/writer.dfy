/** The two serialisers of a parsed configuration: `compressParsedBuffer`, the inverse
    of `parseCompressedBuffer`, and `beautify`, which lays a compressed buffer out with
    indentation and blank lines for people to read. */
module Writer {
  import opened Results
  import opened Text
  import opened Dicts
  import opened Blocks
  import opened Properties
  import opened LineFilter
  import opened Document

  /** The property lines of every option of a section, in order. */
  function PropBodies(sm: SectionMap): (r: seq<seq<string>>)
    ensures |r| == |sm|
  {
    seq(|sm|, j requires 0 <= j < |sm| => PropLines(sm[j].1))
  }

  /** The option blocks of one section. */
  function OptionLines(sm: SectionMap): seq<string> {
    Nest(OptionBlock, Keys(sm), PropBodies(sm))
  }

  /** The option blocks of every section, in order. */
  function SectionBodies(d: Doc): (r: seq<seq<string>>)
    ensures |r| == |d|
  {
    seq(|d|, i requires 0 <= i < |d| => OptionLines(d[i].1))
  }

  /** `compressParsedBuffer`: `Section <name>`, then per option `Option <name>`, its
      `<key>: <value>` lines and `EndOption`, then `EndSection`, for every section. */
  function CompressParsed(d: Doc): seq<string> {
    Nest(SectionBlock, Keys(d), SectionBodies(d))
  }

  /** Line count of a section's option blocks: two marker lines per option plus its properties. */
  function OptionsSize(sm: SectionMap): nat {
    if |sm| == 0 then 0 else 2 + |sm[0].1| + OptionsSize(sm[1..])
  }

  /** Line count of a whole document: two marker lines per section plus its option blocks. */
  function DocSize(d: Doc): nat {
    if |d| == 0 then 0 else 2 + OptionsSize(d[0].1) + DocSize(d[1..])
  }

  lemma {:induction false} OptionLinesLength(sm: SectionMap)
    ensures |OptionLines(sm)| == OptionsSize(sm)
  {
    if |sm| > 0 {
      OptionLinesLength(sm[1..]);
      assert Keys(sm)[1..] == Keys(sm[1..]);
      assert PropBodies(sm)[1..] == PropBodies(sm[1..]);
    }
  }

  /** `compressParsedBuffer` writes two lines per section, two per option and one per
      property. */
  lemma {:induction false} CompressParsedLength(d: Doc)
    ensures |CompressParsed(d)| == DocSize(d)
  {
    if |d| > 0 {
      OptionLinesLength(d[0].1);
      CompressParsedLength(d[1..]);
      assert Keys(d)[1..] == Keys(d[1..]);
      assert SectionBodies(d)[1..] == SectionBodies(d[1..]);
    }
  }

  /** What `beautify` walks: each listed section with each listed option and its
      properties. Repeated names are kept, as `beautify` repeats them. */
  type Outline = seq<(string, seq<(string, Props)>)>

  /** The options of one section, each with its properties. */
  function OutlineOptions(lines: seq<string>, names: seq<string>): (r: seq<(string, Props)>)
    requires RegexSafe(lines) && forall n :: n in names ==> IsLiteral(n)
    ensures |r| == |names| && forall j :: 0 <= j < |r| ==> r[j].0 == names[j]
  {
    if |names| == 0 then []
    else
      [(names[0], OptionProps(lines, names[0]))] + OutlineOptions(lines, names[1..])
  }

  /** One section's options, as `beautify` lists them; fails when the listing fails. */
  function OutlineSection(lines: seq<string>, name: string): Result<seq<(string, Props)>>
    requires RegexSafe(lines) && IsLiteral(name)
  {
    var within := LinesWithin(lines, SectionBlock, name);
    SafeWithin(lines, SectionBlock, name);
    var options :- ListNames(within, OptionBlock);
    SafeNames(within, OptionBlock);
    Ok(OutlineOptions(within, options))
  }

  /** The sections, each with its options; fails when an option listing fails. */
  function OutlineSections(lines: seq<string>, names: seq<string>): (r: Result<Outline>)
    requires RegexSafe(lines) && forall n :: n in names ==> IsLiteral(n)
    ensures r.Ok? ==> |r.value| == |names| && forall i :: 0 <= i < |r.value| ==> r.value[i].0 == names[i]
  {
    if |names| == 0 then Ok([])
    else
      var options :- OutlineSection(lines, names[0]);
      var rest :- OutlineSections(lines, names[1..]);
      Ok([(names[0], options)] + rest)
  }

  function GetOutline(lines: seq<string>): Result<Outline>
    requires RegexSafe(lines)
  {
    var names :- ListNames(lines, SectionBlock);
    SafeNames(lines, SectionBlock);
    OutlineSections(lines, names)
  }

  /** The three lines `beautify` starts with. */
  function Title(product: string): seq<string> {
    ["# " + product + " Configuration File", "", ""]
  }

  /** A property line of `beautify`, indented by four spaces. */
  function PrettyProp(k: string, v: string): string {
    "    " + k + ": " + v
  }

  function PrettyProps(p: Props): (r: seq<string>)
    ensures |r| == |p|
  {
    seq(|p|, i requires 0 <= i < |p| => PrettyProp(p[i].0, p[i].1))
  }

  /** One option as `beautify` lays it out. */
  function PrettyOption(name: string, p: Props): seq<string> {
    ["  Option " + name, ""] + PrettyProps(p) + ["", "  EndOption", "", ""]
  }

  function PrettyOptions(opts: seq<(string, Props)>): seq<string> {
    if |opts| == 0 then [] else PrettyOption(opts[0].0, opts[0].1) + PrettyOptions(opts[1..])
  }

  /** One section as `beautify` lays it out. */
  function PrettySection(name: string, opts: seq<(string, Props)>): seq<string> {
    ["Section " + name, "", ""] + PrettyOptions(opts) + ["EndSection", "", ""]
  }

  function PrettySections(o: Outline): seq<string> {
    if |o| == 0 then [] else PrettySection(o[0].0, o[0].1) + PrettySections(o[1..])
  }

  /** `beautify(buffers)`, with `config.product` as the parameter `product`. */
  function Beautify(lines: seq<string>, product: string): Result<seq<string>>
    requires RegexSafe(lines)
  {
    var o :- GetOutline(lines);
    Ok(Title(product) + PrettySections(o))
  }

  /** Line count of one section's options as `beautify` lays them out. */
  function PrettyOptionsSize(opts: seq<(string, Props)>): nat {
    if |opts| == 0 then 0 else 6 + |opts[0].1| + PrettyOptionsSize(opts[1..])
  }

  /** Line count of all sections as `beautify` lays them out. */
  function PrettySize(o: Outline): nat {
    if |o| == 0 then 0 else 6 + PrettyOptionsSize(o[0].1) + PrettySize(o[1..])
  }

  lemma {:induction false} PrettyOptionsLength(opts: seq<(string, Props)>)
    ensures |PrettyOptions(opts)| == PrettyOptionsSize(opts)
  {
    if |opts| > 0 {
      PrettyOptionsLength(opts[1..]);
    }
  }

  /** `beautify` writes a three-line title, six lines around every section and six
      around every option, plus one line per property. */
  lemma {:induction false} BeautifyLength(o: Outline, product: string)
    ensures |Title(product) + PrettySections(o)| == 3 + PrettySize(o)
  {
    PrettySectionsLength(o);
  }

  /** `beautify` fails exactly when its outline does, and otherwise writes three title
      lines, six lines per section, six per option and one per property of the outline. */
  lemma BeautifyLineCount(lines: seq<string>, product: string)
    requires RegexSafe(lines)
    ensures Beautify(lines, product).Ok? <==> GetOutline(lines).Ok?
    ensures Beautify(lines, product).Ok? ==>
              |Beautify(lines, product).value| == 3 + PrettySize(GetOutline(lines).value)
  {
    if GetOutline(lines).Ok? {
      BeautifyLength(GetOutline(lines).value, product);
    }
  }

  lemma {:induction false} PrettySectionsLength(o: Outline)
    ensures |PrettySections(o)| == PrettySize(o)
  {
    if |o| > 0 {
      PrettyOptionsLength(o[0].1);
      PrettySectionsLength(o[1..]);
    }
  }

  /** A key `beautify` output compresses back to: it neither starts with a space, which
      unindenting would eat, nor with `#`, which would make the line a comment. */
  predicate PrettyKey(k: string) {
    |k| == 0 || (k[0] != ' ' && k[0] != '#')
  }

  predicate PrettyKeys(o: Outline) {
    forall i, j, m :: 0 <= i < |o| && 0 <= j < |o[i].1| && 0 <= m < |o[i].1[j].1| ==> PrettyKey(o[i].1[j].1[m].0)
  }

  lemma OneLine(line: string)
    ensures KeepAndUnindent([line]) == if Kept(line) then [DropSpaces(line)] else []
  {
    assert [line][1..] == [];
  }

  lemma BlankDropped()
    ensures KeepAndUnindent([""]) == []
  {
    OneLine("");
    assert IsBlank("");
  }

  lemma TitleDropped(product: string)
    ensures KeepAndUnindent(Title(product)) == []
  {
    var t := "# " + product + " Configuration File";
    OneLine(t);
    LeadingSpacesExact(t, 0);
    assert IsComment(t);
    BlankDropped();
    KeepAndUnindentAppend([t], ["", ""]);
    KeepAndUnindentAppend([""], [""]);
  }

  /** A line made of `indent` spaces and then a text that starts with neither a space nor
      `#` and is not a lone newline compresses to that text. */
  lemma IndentedKept(indent: nat, text: string)
    requires |text| > 0 && text[0] != ' ' && text[0] != '#' && text != "\n"
    ensures KeepAndUnindent([Spaces(indent) + text]) == [text]
  {
    var line := Spaces(indent) + text;
    assert line[..indent] == Spaces(indent) && line[indent..] == text;
    LeadingSpacesExact(line, indent);
    NotBlank(line, indent);
    OneLine(line);
  }

  /** A line with a character that is neither a space nor a final newline is not blank. */
  lemma NotBlank(line: string, i: nat)
    requires i < |line| && line[i] != ' ' && (i < |line| - 1 || line[i] != '\n')
    ensures !IsBlank(line)
  {
    assert i < |line| - 1 ==> line[..|line| - 1][i] == line[i];
  }

  function Spaces(n: nat): (r: string)
    ensures |r| == n && AllSpaces(r)
  {
    if n == 0 then "" else " " + Spaces(n - 1)
  }

  lemma SpacesLiterals()
    ensures Spaces(2) == "  " && Spaces(4) == "    " && Spaces(0) == ""
  {
    assert Spaces(1) == " ";
    assert Spaces(3) == "   ";
  }

  /** Each property line of `beautify` compresses to the line `compressParsedBuffer` writes. */
  lemma {:induction false} PrettyPropsCompress(p: Props)
    requires forall m :: 0 <= m < |p| ==> PrettyKey(p[m].0)
    ensures KeepAndUnindent(PrettyProps(p)) == PropLines(p)
  {
    if |p| > 0 {
      var k := p[0].0;
      PrettyPropCompress(k, p[0].1);
      assert PrettyProps(p) == [PrettyProp(k, p[0].1)] + PrettyProps(p[1..]);
      KeepAndUnindentAppend([PrettyProp(k, p[0].1)], PrettyProps(p[1..]));
      PrettyPropsCompress(p[1..]);
      assert PropLines(p) == [PropLine(k, p[0].1)] + PropLines(p[1..]);
    }
  }

  lemma PrettyPropCompress(k: string, v: string)
    requires PrettyKey(k)
    ensures KeepAndUnindent([PrettyProp(k, v)]) == [PropLine(k, v)]
  {
    var text := PropLine(k, v);
    SpacesLiterals();
    assert PrettyProp(k, v) == Spaces(4) + text;
    assert text[|k|] == ':';
    assert text[0] != ' ' && text[0] != '#';
    assert text != "\n";
    IndentedKept(4, text);
  }

  lemma ThreeParts(pre: seq<string>, mid: seq<string>, post: seq<string>)
    ensures KeepAndUnindent(pre + mid + post) == KeepAndUnindent(pre) + KeepAndUnindent(mid) + KeepAndUnindent(post)
  {
    KeepAndUnindentAppend(pre + mid, post);
    KeepAndUnindentAppend(pre, mid);
  }

  /** A kept line followed by blank lines compresses to the kept line alone, and so does
      a kept line preceded by one. */
  lemma PaddedLine(line: string, n: nat)
    requires KeepAndUnindent([line]) == [DropSpaces(line)]
    ensures KeepAndUnindent([line] + Blanks(n)) == [DropSpaces(line)]
    ensures KeepAndUnindent(Blanks(n) + [line]) == [DropSpaces(line)]
  {
    BlanksDropped(n);
    KeepAndUnindentAppend([line], Blanks(n));
    KeepAndUnindentAppend(Blanks(n), [line]);
  }

  function Blanks(n: nat): (r: seq<string>)
    ensures |r| == n
  {
    if n == 0 then [] else [""] + Blanks(n - 1)
  }

  lemma {:induction false} BlanksDropped(n: nat)
    ensures KeepAndUnindent(Blanks(n)) == []
  {
    if n > 0 {
      BlankDropped();
      BlanksDropped(n - 1);
      KeepAndUnindentAppend([""], Blanks(n - 1));
    }
  }

  lemma OptionHeaderCompress(x: string)
    ensures KeepAndUnindent(["  Option " + x, ""]) == [Header(OptionBlock, x)]
    ensures KeepAndUnindent(["", "  EndOption", "", ""]) == [Closer(OptionBlock)]
  {
    OptionOpenerCompress(x);
    OptionCloserCompress();
  }

  lemma OptionOpenerCompress(x: string)
    ensures KeepAndUnindent(["  Option " + x, ""]) == [Header(OptionBlock, x)]
  {
    SpacesLiterals();
    var h := "  Option " + x;
    assert h == Spaces(2) + Header(OptionBlock, x);
    IndentedKept(2, Header(OptionBlock, x));
    LeadingSpacesExact(h, 2);
    PaddedLine(h, 1);
    assert [h] + Blanks(1) == [h, ""];
  }

  lemma OptionCloserCompress()
    ensures KeepAndUnindent(["", "  EndOption", "", ""]) == [Closer(OptionBlock)]
  {
    assert ["", "  EndOption", "", ""] == Blanks(1) + [Spaces(2) + Closer(OptionBlock)] + Blanks(2) by {
      SpacesLiterals();
      assert Spaces(2) + Closer(OptionBlock) == "  EndOption";
      assert Blanks(1) == [""] && Blanks(2) == ["", ""];
    }
    IndentedPadded(2, Closer(OptionBlock), 1, 2);
  }

  /** An indented kept line between blank lines compresses to its text alone. */
  lemma IndentedPadded(indent: nat, text: string, before: nat, after: nat)
    requires |text| > 0 && text[0] != ' ' && text[0] != '#' && text != "\n"
    ensures KeepAndUnindent(Blanks(before) + [Spaces(indent) + text] + Blanks(after)) == [text]
  {
    IndentedKept(indent, text);
    BlanksDropped(before);
    BlanksDropped(after);
    ThreeParts(Blanks(before), [Spaces(indent) + text], Blanks(after));
  }

  lemma SectionHeaderCompress(s: string)
    ensures KeepAndUnindent(["Section " + s, "", ""]) == [Header(SectionBlock, s)]
    ensures KeepAndUnindent(["EndSection", "", ""]) == [Closer(SectionBlock)]
  {
    SpacesLiterals();
    var h := "Section " + s;
    assert h == Spaces(0) + Header(SectionBlock, s);
    IndentedKept(0, Header(SectionBlock, s));
    LeadingSpacesExact(h, 0);
    PaddedLine(h, 2);
    assert [h] + Blanks(2) == [h, "", ""];
    var c := "EndSection";
    assert c == Spaces(0) + Closer(SectionBlock);
    IndentedKept(0, Closer(SectionBlock));
    LeadingSpacesExact(c, 0);
    PaddedLine(c, 2);
    assert [c] + Blanks(2) == ["EndSection", "", ""];
  }

  /** One option laid out by `beautify` compresses to the block `compressParsedBuffer` writes. */
  lemma PrettyOptionCompress(x: string, p: Props)
    requires forall m :: 0 <= m < |p| ==> PrettyKey(p[m].0)
    ensures KeepAndUnindent(PrettyOption(x, p)) == Framed(OptionBlock, x, PropLines(p))
  {
    OptionHeaderCompress(x);
    PrettyPropsCompress(p);
    ThreeParts(["  Option " + x, ""], PrettyProps(p), ["", "  EndOption", "", ""]);
  }

  /** The options of a section laid out by `beautify` compress to the option blocks
      `compressParsedBuffer` writes. */
  lemma {:induction false} PrettyOptionsCompress(opts: seq<(string, Props)>)
    requires forall j, m :: 0 <= j < |opts| && 0 <= m < |opts[j].1| ==> PrettyKey(opts[j].1[m].0)
    ensures KeepAndUnindent(PrettyOptions(opts)) == OptionLines(opts)
  {
    if |opts| > 0 {
      PrettyOptionCompress(opts[0].0, opts[0].1);
      assert forall j :: 0 <= j < |opts| - 1 ==> opts[1..][j] == opts[j + 1];
      PrettyOptionsCompress(opts[1..]);
      KeepAndUnindentAppend(PrettyOption(opts[0].0, opts[0].1), PrettyOptions(opts[1..]));
      OptionLinesCons(opts);
    }
  }

  lemma OptionLinesCons(opts: seq<(string, Props)>)
    requires |opts| > 0
    ensures OptionLines(opts) == Framed(OptionBlock, opts[0].0, PropLines(opts[0].1)) + OptionLines(opts[1..])
  {
    assert Keys(opts)[1..] == Keys(opts[1..]);
    assert PropBodies(opts)[1..] == PropBodies(opts[1..]);
  }

  /** One section laid out by `beautify` compresses to the block `compressParsedBuffer` writes. */
  lemma PrettySectionCompress(s: string, opts: seq<(string, Props)>)
    requires forall j, m :: 0 <= j < |opts| && 0 <= m < |opts[j].1| ==> PrettyKey(opts[j].1[m].0)
    ensures KeepAndUnindent(PrettySection(s, opts)) == Framed(SectionBlock, s, OptionLines(opts))
  {
    SectionHeaderCompress(s);
    PrettyOptionsCompress(opts);
    ThreeParts(["Section " + s, "", ""], PrettyOptions(opts), ["EndSection", "", ""]);
  }

  lemma {:induction false} PrettySectionsCompress(o: Outline)
    requires PrettyKeys(o)
    ensures KeepAndUnindent(PrettySections(o)) == CompressParsed(o)
  {
    if |o| > 0 {
      PrettySectionCompress(o[0].0, o[0].1);
      PrettySectionsCompress(o[1..]);
      KeepAndUnindentAppend(PrettySection(o[0].0, o[0].1), PrettySections(o[1..]));
      assert Keys(o)[1..] == Keys(o[1..]);
      assert SectionBodies(o)[1..] == SectionBodies(o[1..]);
    }
  }

  /** Compressing what `beautify` writes gives what `compressParsedBuffer` writes for the
      same sections, options and properties: the title, the blank lines and the
      indentation are all dropped again. */
  lemma BeautifyCompresses(o: Outline, product: string)
    requires PrettyKeys(o)
    ensures Compress(Title(product) + PrettySections(o)) == CompressParsed(o)
  {
    CompressIsOnePass(Title(product) + PrettySections(o));
    KeepAndUnindentAppend(Title(product), PrettySections(o));
    TitleDropped(product);
    PrettySectionsCompress(o);
  }
}
