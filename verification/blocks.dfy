/** The block grammar: `Section <name>` … `EndSection` and `Option <name>` … `EndOption`.
    `getSections`/`getOptions` list the names declared by marker lines, and
    `getLinesWithinSection`/`getLinesWithinOption` cut out the body of one named block
    with a two-state scan ("not yet opened", then "inside"). */
module Blocks {
  import opened Results
  import opened Text

  /** The two nesting levels of the format. */
  datatype Kind = SectionBlock | OptionBlock

  /** The keyword that opens a block of this kind. */
  function Opener(k: Kind): string {
    match k
    case SectionBlock => "Section"
    case OptionBlock => "Option"
  }

  /** The keyword that closes a block of this kind. */
  function Closer(k: Kind): string {
    match k
    case SectionBlock => "EndSection"
    case OptionBlock => "EndOption"
  }

  /** `^ *<keyword> *.*` matches: after its indentation the line begins with the keyword
      (so `Sections x` is a section marker too, and `EndSection` is not). */
  predicate IsMarker(line: string, keyword: string) {
    keyword <= DropSpaces(line)
  }

  /** `line.split()[1].strip()`, which raises IndexError on a line of fewer than two words. */
  function SecondWord(line: string): (r: Result<string>)
    ensures r.Ok? <==> |Words(line)| >= 2
    ensures r.Ok? ==> r.value == Words(line)[1]
  {
    var ws := Words(line);
    if |ws| < 2 then Err(IndexError)
    else
      StripUnchanged(ws[1]);
      Ok(Strip(ws[1]))
  }

  /** What one line contributes to the name list: nothing, its second word, or the
      IndexError of a marker line without one. */
  function LineNames(line: string, k: Kind): (r: Result<seq<string>>)
    ensures r.Ok? <==> !IsMarker(line, Opener(k)) || |Words(line)| >= 2
    ensures r.Ok? ==> r.value == if IsMarker(line, Opener(k)) then [Words(line)[1]] else []
  {
    if !IsMarker(line, Opener(k)) then Ok([])
    else
      match SecondWord(line)
      case Err(e) => Err(e)
      case Ok(n) => Ok([n])
  }

  /** Two partial lists joined: the first failure wins. */
  function Combine(x: Result<seq<string>>, y: Result<seq<string>>): (r: Result<seq<string>>)
    ensures r.Ok? <==> x.Ok? && y.Ok?
    ensures r.Ok? ==> r.value == x.value + y.value
  {
    if x.Err? then x else if y.Err? then y else Ok(x.value + y.value)
  }

  /** `getSections` (kind SectionBlock) and `getOptions` (kind OptionBlock): the second
      word of every marker line, in document order and with repetitions. */
  function ListNames(lines: seq<string>, k: Kind): (r: Result<seq<string>>)
  {
    if |lines| == 0 then Ok([])
    else Combine(LineNames(lines[0], k), ListNames(lines[1..], k))
  }

  lemma {:induction false} ListNamesAppend(a: seq<string>, b: seq<string>, k: Kind)
    ensures ListNames(a + b, k) == Combine(ListNames(a, k), ListNames(b, k))
  {
    if |a| == 0 {
      assert a + b == b;
      var y := ListNames(b, k);
      if y.Ok? {
        assert [] + y.value == y.value;
      }
    } else {
      var ab := a + b;
      assert ab[0] == a[0];
      assert ab[1..] == a[1..] + b;
      ListNamesAppend(a[1..], b, k);
      CombineAssociative(LineNames(a[0], k), ListNames(a[1..], k), ListNames(b, k));
    }
  }

  lemma CombineAssociative(x: Result<seq<string>>, y: Result<seq<string>>, z: Result<seq<string>>)
    ensures Combine(Combine(x, y), z) == Combine(x, Combine(y, z))
  {
    if x.Ok? && y.Ok? && z.Ok? {
      assert (x.value + y.value) + z.value == x.value + (y.value + z.value);
    }
  }

  function GetSections(lines: seq<string>): Result<seq<string>> {
    ListNames(lines, SectionBlock)
  }

  function GetOptions(lines: seq<string>): Result<seq<string>> {
    ListNames(lines, OptionBlock)
  }

  /** The listing fails exactly when some marker line has no second word. */
  lemma {:induction false} ListNamesFails(lines: seq<string>, k: Kind)
    ensures ListNames(lines, k).Ok? <==>
            forall i :: 0 <= i < |lines| && IsMarker(lines[i], Opener(k)) ==> |Words(lines[i])| >= 2
  {
    if |lines| > 0 {
      ListNamesFails(lines[1..], k);
      assert forall i :: 1 <= i < |lines| ==> lines[i] == lines[1..][i - 1];
    }
  }

  /** Every listed name is the second word of a marker line, so it is non-empty and free
      of whitespace. */
  lemma {:induction false} ListedNamesComeFromMarkers(lines: seq<string>, k: Kind)
    requires ListNames(lines, k).Ok?
    ensures forall n :: n in ListNames(lines, k).value ==>
              && |n| > 0 && NoWhitespace(n)
              && exists i :: 0 <= i < |lines| && IsMarker(lines[i], Opener(k)) && SecondWord(lines[i]) == Ok(n)
  {
    if |lines| > 0 {
      ListedNamesComeFromMarkers(lines[1..], k);
      var r := ListNames(lines, k).value;
      var head := LineNames(lines[0], k).value;
      var tail := ListNames(lines[1..], k).value;
      assert r == head + tail;
      forall n | n in r
        ensures |n| > 0 && NoWhitespace(n)
        ensures exists i :: 0 <= i < |lines| && IsMarker(lines[i], Opener(k)) && SecondWord(lines[i]) == Ok(n)
      {
        if n in head {
          assert SecondWord(lines[0]) == Ok(n);
        } else {
          var i :| 0 <= i < |lines| - 1 && IsMarker(lines[1..][i], Opener(k)) && SecondWord(lines[1..][i]) == Ok(n);
          assert lines[i + 1] == lines[1..][i];
        }
      }
    }
  }

  /** Every marker line is listed: its second word is among the names. */
  lemma {:induction false} ListedNamesComplete(lines: seq<string>, k: Kind, i: nat)
    requires ListNames(lines, k).Ok? && i < |lines| && IsMarker(lines[i], Opener(k))
    ensures |Words(lines[i])| >= 2 && Words(lines[i])[1] in ListNames(lines, k).value
  {
    var head := LineNames(lines[0], k);
    var tail := ListNames(lines[1..], k);
    assert ListNames(lines, k) == Combine(head, tail);
    assert ListNames(lines, k).value == head.value + tail.value;
    if i == 0 {
      assert head.value == [Words(lines[0])[1]];
    } else {
      assert lines[1..][i - 1] == lines[i];
      ListedNamesComplete(lines[1..], k, i - 1);
    }
  }

  /** A closing line is never a marker of the same kind, so `EndSection`/`EndOption` lines
      are never listed as names. */
  lemma CloserIsNotOpener(line: string, k: Kind)
    requires IsMarker(line, Closer(k))
    ensures !IsMarker(line, Opener(k))
  {
    assert Closer(k)[0] == DropSpaces(line)[0];
  }

  /** `^ *<Opener> *<name>.*` matches, with the name taken literally: the marker keyword,
      then spaces, then text beginning with the name. A name that is a prefix of the
      declared one matches too. */
  predicate Opens(line: string, k: Kind, name: string) {
    IsMarker(line, Opener(k)) && MatchSpacesThen(DropSpaces(line)[|Opener(k)|..], name).Some?
  }

  /** `^ *<Closer> *.*` matches. */
  predicate Closes(line: string, k: Kind) {
    IsMarker(line, Closer(k))
  }

  /** The "inside" state of the scan: lines up to, not including, the first closing line. */
  function BlockBody(lines: seq<string>, k: Kind): (r: seq<string>)
    ensures r <= lines
  {
    if |lines| == 0 || Closes(lines[0], k) then []
    else [lines[0]] + BlockBody(lines[1..], k)
  }

  /** The body holds no closing line and ends at the first one, or at the end of the input. */
  lemma {:induction false} BlockBodyEnds(lines: seq<string>, k: Kind)
    ensures forall i :: 0 <= i < |BlockBody(lines, k)| ==> !Closes(lines[i], k)
    ensures |BlockBody(lines, k)| == |lines| || Closes(lines[|BlockBody(lines, k)|], k)
  {
    if |lines| > 0 && !Closes(lines[0], k) {
      BlockBodyEnds(lines[1..], k);
      var r := BlockBody(lines[1..], k);
      assert BlockBody(lines, k) == [lines[0]] + r;
      forall i | 1 <= i <= |r|
        ensures !Closes(lines[i], k)
      {
        assert lines[i] == lines[1..][i - 1];
      }
      assert |r| + 1 < |lines| ==> lines[|r| + 1] == lines[1..][|r|];
    }
  }

  /** `getLinesWithinSection` / `getLinesWithinOption`: the "not yet opened" state of the
      scan skips lines until one opens the named block, then the body follows. */
  function LinesWithin(lines: seq<string>, k: Kind, name: string): (r: seq<string>)
    requires IsLiteral(name)
  {
    if |lines| == 0 then []
    else if Opens(lines[0], k, name) then BlockBody(lines[1..], k)
    else LinesWithin(lines[1..], k, name)
  }

  /** Every line of a block body is a line of the input. */
  lemma {:induction false} LinesWithinFrom(lines: seq<string>, k: Kind, name: string)
    requires IsLiteral(name)
    ensures forall l :: l in LinesWithin(lines, k, name) ==> l in lines
  {
    if |lines| > 0 {
      if Opens(lines[0], k, name) {
        assert BlockBody(lines[1..], k) <= lines[1..];
        assert forall l :: l in lines[1..] ==> l in lines;
      } else {
        LinesWithinFrom(lines[1..], k, name);
        assert forall l :: l in lines[1..] ==> l in lines;
      }
    }
  }

  /** Index of the first line opening the named block, or `|lines|` when none does. */
  function FirstOpen(lines: seq<string>, k: Kind, name: string): (i: nat)
    ensures i <= |lines|
  {
    if |lines| == 0 then 0
    else if Opens(lines[0], k, name) then 0
    else 1 + FirstOpen(lines[1..], k, name)
  }

  /** The line at the index found opens the named block, and no line before it does. */
  lemma {:induction false} FirstOpenIsFirst(lines: seq<string>, k: Kind, name: string)
    ensures FirstOpen(lines, k, name) < |lines| ==> Opens(lines[FirstOpen(lines, k, name)], k, name)
    ensures forall j :: 0 <= j < FirstOpen(lines, k, name) ==> !Opens(lines[j], k, name)
  {
    if |lines| > 0 && !Opens(lines[0], k, name) {
      FirstOpenIsFirst(lines[1..], k, name);
      var i := FirstOpen(lines[1..], k, name);
      assert i < |lines| - 1 ==> lines[1..][i] == lines[i + 1];
      assert forall j :: 1 <= j <= i ==> lines[j] == lines[1..][j - 1];
    }
  }

  /** The scan returns a contiguous slice of its input: empty when no line opens the
      block, and otherwise the lines strictly after the first opening line up to the next
      closing line, or to the end of the input when no closing line follows. */
  lemma {:induction false} LinesWithinIsSlice(lines: seq<string>, k: Kind, name: string)
    requires IsLiteral(name)
    ensures var i := FirstOpen(lines, k, name);
            LinesWithin(lines, k, name) == if i == |lines| then [] else BlockBody(lines[i + 1..], k)
  {
    if |lines| > 0 && !Opens(lines[0], k, name) {
      LinesWithinStep(lines, k, name);
      LinesWithinIsSlice(lines[1..], k, name);
      var i := FirstOpen(lines[1..], k, name);
      if i < |lines| - 1 {
        DropTwice(lines, 1, i + 1);
      }
    }
  }

  /** A first line that does not open the block is skipped by both the scan and the search. */
  lemma LinesWithinStep(lines: seq<string>, k: Kind, name: string)
    requires IsLiteral(name) && |lines| > 0 && !Opens(lines[0], k, name)
    ensures LinesWithin(lines, k, name) == LinesWithin(lines[1..], k, name)
    ensures FirstOpen(lines, k, name) == 1 + FirstOpen(lines[1..], k, name)
  {
  }

  lemma DropTwice<T>(s: seq<T>, a: nat, b: nat)
    requires a + b <= |s|
    ensures s[a..][b..] == s[a + b..]
  {
  }

  /** Lines that do not open the named block are skipped. */
  lemma {:induction false} LinesWithinSkips(a: seq<string>, b: seq<string>, k: Kind, name: string)
    requires IsLiteral(name)
    requires forall i :: 0 <= i < |a| ==> !Opens(a[i], k, name)
    ensures LinesWithin(a + b, k, name) == LinesWithin(b, k, name)
  {
    if |a| == 0 {
      assert a + b == b;
    } else {
      assert (a + b)[0] == a[0];
      assert (a + b)[1..] == a[1..] + b;
      LinesWithinSkips(a[1..], b, k, name);
    }
  }

  /** A body free of closing lines, followed by a closing line, is cut out exactly. */
  lemma {:induction false} BlockBodyStopsAtCloser(body: seq<string>, rest: seq<string>, k: Kind)
    requires forall i :: 0 <= i < |body| ==> !Closes(body[i], k)
    requires |rest| > 0 && Closes(rest[0], k)
    ensures BlockBody(body + rest, k) == body
  {
    if |body| == 0 {
      assert body + rest == rest;
    } else {
      assert (body + rest)[0] == body[0];
      assert (body + rest)[1..] == body[1..] + rest;
      BlockBodyStopsAtCloser(body[1..], rest, k);
    }
  }

  /** The marker line `compressParsedBuffer` writes to open a block. */
  function Header(k: Kind, name: string): string {
    Opener(k) + " " + name
  }

  /** One block as `compressParsedBuffer` writes it: header, body, closing line. */
  function Framed(k: Kind, name: string, body: seq<string>): seq<string> {
    [Header(k, name)] + body + [Closer(k)]
  }

  /** A run of blocks of one kind, one per name, in order. */
  function Nest(k: Kind, names: seq<string>, bodies: seq<seq<string>>): seq<string>
    requires |names| == |bodies|
  {
    if |names| == 0 then [] else Framed(k, names[0], bodies[0]) + Nest(k, names[1..], bodies[1..])
  }

  /** A block name that reads back as itself: one non-empty word, free of regex syntax. */
  predicate NameOk(name: string) {
    |name| > 0 && NoWhitespace(name) && IsLiteral(name)
  }

  /** No name is a prefix of another one, so each opening pattern finds only its own block. */
  predicate PrefixFree(names: seq<string>) {
    forall i, j :: 0 <= i < |names| && 0 <= j < |names| && i != j ==> !(names[i] <= names[j])
  }

  /** A line that neither opens nor closes a block of this kind. */
  predicate Quiet(line: string, k: Kind) {
    !IsMarker(line, Opener(k)) && !IsMarker(line, Closer(k))
  }

  predicate AllQuiet(lines: seq<string>, k: Kind) {
    forall i :: 0 <= i < |lines| ==> Quiet(lines[i], k)
  }

  /** A written header is its own marker line, starts no indentation, and splits into the
      keyword and the name. */
  lemma HeaderShape(k: Kind, name: string)
    requires NameOk(name)
    ensures DropSpaces(Header(k, name)) == Header(k, name)
    ensures IsMarker(Header(k, name), Opener(k)) && !IsMarker(Header(k, name), Closer(k))
    ensures SecondWord(Header(k, name)) == Ok(name)
  {
    var h := Header(k, name);
    assert h[0] == Opener(k)[0];
    LeadingSpacesExact(h, 0);
    assert Opener(k) <= h;
    assert h == Opener(k) + (" " + name);
    WordsCons(Opener(k), " " + name);
    WordsAfterSpace(name);
    WordsCons(name, "");
    assert name + "" == name;
    assert Words("") == [];
  }

  /** The written closing line closes its kind and opens nothing. */
  lemma CloserShape(k: Kind)
    ensures IsMarker(Closer(k), Closer(k)) && !IsMarker(Closer(k), Opener(k))
  {
    LeadingSpacesExact(Closer(k), 0);
  }

  /** A written header is unindented and is a marker of its opening keyword. */
  lemma HeaderMarks(k: Kind, name: string)
    ensures DropSpaces(Header(k, name)) == Header(k, name)
    ensures IsMarker(Header(k, name), Opener(k))
  {
    var h := Header(k, name);
    assert h[0] == Opener(k)[0];
    LeadingSpacesExact(h, 0);
  }

  /** A written header opens the block of every name that is a prefix of its own name. */
  lemma HeaderOpens(k: Kind, name: string, wanted: string)
    requires NameOk(name) && NameOk(wanted)
    ensures Opens(Header(k, name), k, wanted) <==> wanted <= name
  {
    HeaderMarks(k, name);
    assert Header(k, name)[|Opener(k)|..] == " " + name;
    SpaceThenName(name, wanted);
  }

  /** After the keyword, a header holds one space and the name: the pattern's ` *<wanted>`
      matches there exactly when `wanted` begins the name. */
  lemma SpaceThenName(name: string, wanted: string)
    requires NameOk(name) && NameOk(wanted)
    ensures MatchSpacesThen(" " + name, wanted).Some? <==> wanted <= name
  {
    var rest := " " + name;
    assert rest[1] == name[0];
    LeadingSpacesExact(rest, 1);
    LeadingSpacesExact(wanted, 0);
    assert rest[1..] == name;
  }

  /** Where the header, the body and the closing line sit in a written block. */
  lemma FramedLines(k: Kind, name: string, body: seq<string>)
    ensures var f := Framed(k, name, body);
            && |f| == |body| + 2 && f[0] == Header(k, name) && f[|body| + 1] == Closer(k)
            && forall j :: 0 < j <= |body| ==> f[j] == body[j - 1]
  {
  }

  /** Quiet lines list no names. */
  lemma {:induction false} ListNamesOfQuiet(lines: seq<string>, k: Kind)
    requires AllQuiet(lines, k)
    ensures ListNames(lines, k) == Ok([])
  {
    if |lines| > 0 {
      ListNamesOfQuiet(lines[1..], k);
    }
  }

  lemma ListNamesOfOne(line: string, k: Kind)
    ensures ListNames([line], k) == LineNames(line, k)
  {
    assert [line][1..] == [];
    var x := LineNames(line, k);
    if x.Ok? {
      assert x.value + [] == x.value;
    }
  }

  /** A header, quiet lines and a closing line list the header's name alone. */
  lemma ListNamesOfBlock(h: string, body: seq<string>, c: string, k: Kind, name: string)
    requires LineNames(h, k) == Ok([name]) && AllQuiet(body, k) && LineNames(c, k) == Ok([])
    ensures ListNames([h] + body + [c], k) == Ok([name])
  {
    ListNamesOfQuiet(body, k);
    ListNamesOfOne(h, k);
    ListNamesOfOne(c, k);
    ListNamesAppend([h] + body, [c], k);
    ListNamesAppend([h], body, k);
    assert [name] + [] + [] == [name];
  }

  /** A written block lists exactly its own name. */
  lemma ListNamesOfFramed(k: Kind, name: string, body: seq<string>)
    requires NameOk(name) && AllQuiet(body, k)
    ensures ListNames(Framed(k, name, body), k) == Ok([name])
  {
    HeaderShape(k, name);
    CloserShape(k);
    ListNamesOfBlock(Header(k, name), body, Closer(k), k, name);
  }

  /** A run of written blocks lists the names in the order they were written. */
  lemma {:induction false} ListNamesOfNest(k: Kind, names: seq<string>, bodies: seq<seq<string>>)
    requires |names| == |bodies|
    requires forall i :: 0 <= i < |names| ==> NameOk(names[i]) && AllQuiet(bodies[i], k)
    ensures ListNames(Nest(k, names, bodies), k) == Ok(names)
  {
    if |names| > 0 {
      ListNamesOfFramed(k, names[0], bodies[0]);
      ListNamesOfNest(k, names[1..], bodies[1..]);
      ListNamesAppend(Framed(k, names[0], bodies[0]), Nest(k, names[1..], bodies[1..]), k);
      assert [names[0]] + names[1..] == names;
    }
  }

  /** The block written under another name is skipped by the scan for `wanted`. */
  lemma FramedSkipped(k: Kind, name: string, body: seq<string>, wanted: string)
    requires NameOk(name) && NameOk(wanted) && !(wanted <= name) && AllQuiet(body, k)
    ensures forall j :: 0 <= j < |Framed(k, name, body)| ==> !Opens(Framed(k, name, body)[j], k, wanted)
  {
    HeaderOpens(k, name, wanted);
    CloserShape(k);
    FramedLines(k, name, body);
  }

  /** The scan for a block's own name cuts out the body written under it. */
  lemma FramedFound(k: Kind, name: string, body: seq<string>, rest: seq<string>)
    requires NameOk(name) && AllQuiet(body, k)
    ensures LinesWithin(Framed(k, name, body) + rest, k, name) == body
  {
    var after := body + ([Closer(k)] + rest);
    assert Framed(k, name, body) + rest == [Header(k, name)] + after;
    assert Opens(Header(k, name), k, name) by {
      HeaderOpens(k, name, name);
    }
    LinesWithinOpened(Header(k, name), after, k, name);
    assert BlockBody(after, k) == body by {
      CloserShape(k);
      assert forall i :: 0 <= i < |body| ==> Quiet(body[i], k);
      BlockBodyStopsAtCloser(body, [Closer(k)] + rest, k);
    }
  }

  /** Right after the line that opens the named block, the scan takes the block's body. */
  lemma LinesWithinOpened(first: string, after: seq<string>, k: Kind, name: string)
    requires IsLiteral(name) && Opens(first, k, name)
    ensures LinesWithin([first] + after, k, name) == BlockBody(after, k)
  {
    assert ([first] + after)[1..] == after;
  }

  /** In a run of written blocks with prefix-free names, the scan for one name cuts out
      exactly the body written under it. */
  lemma LinesWithinNest(k: Kind, names: seq<string>, bodies: seq<seq<string>>, i: nat)
    requires |names| == |bodies| && i < |names| && PrefixFree(names)
    requires forall j :: 0 <= j < |names| ==> NameOk(names[j]) && AllQuiet(bodies[j], k)
    ensures NameOk(names[i])
    ensures LinesWithin(Nest(k, names, bodies), k, names[i]) == bodies[i]
  {
    NestFinds(k, names, bodies, i);
  }

  /** The blocks a scan can find in: as many bodies as names, names well-formed and
      prefix-free, bodies quiet. */
  predicate NestOk(k: Kind, names: seq<string>, bodies: seq<seq<string>>) {
    && |names| == |bodies| && PrefixFree(names)
    && forall j :: 0 <= j < |names| ==> NameOk(names[j]) && AllQuiet(bodies[j], k)
  }

  lemma NestOkTail(k: Kind, names: seq<string>, bodies: seq<seq<string>>)
    requires NestOk(k, names, bodies) && |names| > 0
    ensures NestOk(k, names[1..], bodies[1..])
  {
    assert forall a :: 0 <= a < |names| - 1 ==> names[1..][a] == names[a + 1] && bodies[1..][a] == bodies[a + 1];
  }

  lemma {:induction false} NestFinds(k: Kind, names: seq<string>, bodies: seq<seq<string>>, i: nat)
    requires NestOk(k, names, bodies) && i < |names|
    ensures LinesWithin(Nest(k, names, bodies), k, names[i]) == bodies[i]
  {
    if i == 0 {
      NestFindsFirst(k, names, bodies);
    } else {
      assert !(names[i] <= names[0]);
      NestSkipsFirst(k, names, bodies, names[i]);
      NestOkTail(k, names, bodies);
      NestFinds(k, names[1..], bodies[1..], i - 1);
      assert names[1..][i - 1] == names[i] && bodies[1..][i - 1] == bodies[i];
    }
  }

  /** The scan for the first block's name cuts out the first body. */
  lemma NestFindsFirst(k: Kind, names: seq<string>, bodies: seq<seq<string>>)
    requires |names| == |bodies| > 0 && NameOk(names[0]) && AllQuiet(bodies[0], k)
    ensures LinesWithin(Nest(k, names, bodies), k, names[0]) == bodies[0]
  {
    var rest := Nest(k, names[1..], bodies[1..]);
    assert Nest(k, names, bodies) == Framed(k, names[0], bodies[0]) + rest;
    FramedFound(k, names[0], bodies[0], rest);
  }

  /** The scan for a name the first block's name does not start with skips that block. */
  lemma NestSkipsFirst(k: Kind, names: seq<string>, bodies: seq<seq<string>>, wanted: string)
    requires |names| == |bodies| > 0 && NameOk(names[0]) && AllQuiet(bodies[0], k)
    requires NameOk(wanted) && !(wanted <= names[0])
    ensures LinesWithin(Nest(k, names, bodies), k, wanted) == LinesWithin(Nest(k, names[1..], bodies[1..]), k, wanted)
  {
    var first := Framed(k, names[0], bodies[0]);
    var rest := Nest(k, names[1..], bodies[1..]);
    assert Nest(k, names, bodies) == first + rest;
    FramedSkipped(k, names[0], bodies[0], wanted);
    LinesWithinSkips(first, rest, k, wanted);
  }

  /** The header of one kind neither opens nor closes a block of the other kind. */
  lemma HeaderQuiet(k: Kind, other: Kind, name: string)
    requires k != other && NameOk(name)
    ensures Quiet(Header(k, name), other)
  {
    HeaderShape(k, name);
    assert Header(k, name)[0] == Opener(k)[0];
  }

  /** The closing line of one kind neither opens nor closes a block of the other kind. */
  lemma CloserQuiet(k: Kind, other: Kind)
    requires k != other
    ensures Quiet(Closer(k), other)
  {
    LeadingSpacesExact(Closer(k), 0);
    assert Closer(k)[3] != Closer(other)[3];
  }

  /** A written block of one kind is quiet for the other kind when its body is. */
  lemma FramedQuiet(k: Kind, other: Kind, name: string, body: seq<string>)
    requires k != other && NameOk(name) && AllQuiet(body, other)
    ensures AllQuiet(Framed(k, name, body), other)
  {
    HeaderQuiet(k, other, name);
    CloserQuiet(k, other);
    FramedLines(k, name, body);
  }

  /** Written blocks of one kind are quiet for the other kind when their bodies are. */
  lemma {:induction false} NestQuiet(k: Kind, other: Kind, names: seq<string>, bodies: seq<seq<string>>)
    requires k != other && |names| == |bodies|
    requires forall j :: 0 <= j < |names| ==> NameOk(names[j]) && AllQuiet(bodies[j], other)
    ensures AllQuiet(Nest(k, names, bodies), other)
  {
    if |names| > 0 {
      FramedQuiet(k, other, names[0], bodies[0]);
      NestQuiet(k, other, names[1..], bodies[1..]);
      var first := Framed(k, names[0], bodies[0]);
      var rest := Nest(k, names[1..], bodies[1..]);
      assert forall j :: |first| <= j < |first| + |rest| ==> (first + rest)[j] == rest[j - |first|];
    }
  }
}
