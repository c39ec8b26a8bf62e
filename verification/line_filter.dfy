/** The line normaliser: `cleanComments`, `cleanEmptyLines`, `unIndent` and their
    composition `compress`, which turns the raw lines of a configuration file into
    the unindented, comment-free lines every other operation expects. */
module LineFilter {
  import opened Text

  /** `^ *$` matches: the line is spaces only, possibly followed by one final newline
      (Python's `$` also matches just before a newline that ends the string). */
  predicate IsBlank(line: string) {
    AllSpaces(line) || (|line| > 0 && line[|line| - 1] == '\n' && AllSpaces(line[..|line| - 1]))
  }

  /** `^ *#.*` matches: the first character after the indentation is `#`. */
  predicate IsComment(line: string) {
    var t := DropSpaces(line);
    |t| > 0 && t[0] == '#'
  }

  /** A line `compress` lets through. */
  predicate Kept(line: string) {
    !IsComment(line) && !IsBlank(line)
  }

  /** What every line `compress` produces looks like: non-empty, not indented, not a
      comment, and not the lone newline `^ *$` would drop. */
  predicate IsNormalised(line: string) {
    |line| > 0 && line[0] != ' ' && line[0] != '#' && line != "\n"
  }

  /** `cleanComments`: drops the comment lines and keeps the rest in order. */
  function CleanComments(lines: seq<string>): (r: seq<string>)
    ensures |r| <= |lines|
  {
    if |lines| == 0 then []
    else (if IsComment(lines[0]) then [] else [lines[0]]) + CleanComments(lines[1..])
  }

  /** `cleanComments` keeps exactly the lines that are not comments. */
  lemma {:induction false} CleanCommentsKeeps(lines: seq<string>)
    ensures forall l :: l in CleanComments(lines) <==> l in lines && !IsComment(l)
  {
    if |lines| > 0 {
      CleanCommentsKeeps(lines[1..]);
      assert lines == [lines[0]] + lines[1..];
    }
  }

  /** `cleanEmptyLines`: drops the blank lines and keeps the rest in order. */
  function CleanEmptyLines(lines: seq<string>): (r: seq<string>)
    ensures |r| <= |lines|
  {
    if |lines| == 0 then []
    else (if IsBlank(lines[0]) then [] else [lines[0]]) + CleanEmptyLines(lines[1..])
  }

  /** `cleanEmptyLines` keeps exactly the lines that are not blank. */
  lemma {:induction false} CleanEmptyLinesKeeps(lines: seq<string>)
    ensures forall l :: l in CleanEmptyLines(lines) <==> l in lines && !IsBlank(l)
  {
    if |lines| > 0 {
      CleanEmptyLinesKeeps(lines[1..]);
      assert lines == [lines[0]] + lines[1..];
    }
  }

  /** `unIndent`: every line with its leading spaces removed. */
  function UnIndent(lines: seq<string>): (r: seq<string>)
    ensures |r| == |lines| && forall i :: 0 <= i < |lines| ==> r[i] == DropSpaces(lines[i])
  {
    if |lines| == 0 then [] else [DropSpaces(lines[0])] + UnIndent(lines[1..])
  }

  /** `compress`: comments and blank lines removed, indentation stripped. */
  function Compress(lines: seq<string>): (r: seq<string>)
    ensures |r| <= |lines|
    ensures forall i :: 0 <= i < |r| ==> IsNormalised(r[i])
  {
    var c := CleanEmptyLines(CleanComments(lines));
    CleanCommentsKeeps(lines);
    CleanEmptyLinesKeeps(CleanComments(lines));
    forall i | 0 <= i < |c|
      ensures IsNormalised(DropSpaces(c[i]))
    {
      assert c[i] in c;
      KeptLineNormalises(c[i]);
    }
    UnIndent(c)
  }

  /** The single-pass reading of `compress`: walk the lines once, keep each line that is
      neither a comment nor blank, and unindent it. */
  function KeepAndUnindent(lines: seq<string>): seq<string> {
    if |lines| == 0 then []
    else (if Kept(lines[0]) then [DropSpaces(lines[0])] else []) + KeepAndUnindent(lines[1..])
  }

  /** A kept line, once unindented, is normalised. */
  lemma KeptLineNormalises(line: string)
    requires Kept(line)
    ensures IsNormalised(DropSpaces(line))
  {
  }

  /** A normalised line survives `compress` unchanged. */
  lemma NormalisedLineKept(line: string)
    requires IsNormalised(line)
    ensures Kept(line) && DropSpaces(line) == line
  {
    assert LeadingSpaces(line) == 0;
  }

  /** The three passes of `compress` do the same as the single pass: the surviving lines
      keep their input order, each is its original line unindented, and the dropped lines
      are exactly the comments and the blank lines. */
  lemma {:induction false} CompressIsOnePass(lines: seq<string>)
    ensures Compress(lines) == KeepAndUnindent(lines)
  {
    if |lines| > 0 {
      CompressIsOnePass(lines[1..]);
      var head := [lines[0]];
      assert lines == head + lines[1..];
      CleanCommentsAppend(head, lines[1..]);
      CleanEmptyLinesAppend(CleanComments(head), CleanComments(lines[1..]));
      UnIndentAppend(CleanEmptyLines(CleanComments(head)), CleanEmptyLines(CleanComments(lines[1..])));
    }
  }

  lemma {:induction false} CleanCommentsAppend(a: seq<string>, b: seq<string>)
    ensures CleanComments(a + b) == CleanComments(a) + CleanComments(b)
  {
    if |a| > 0 {
      assert (a + b)[1..] == a[1..] + b;
      CleanCommentsAppend(a[1..], b);
    } else {
      assert a + b == b;
    }
  }

  lemma {:induction false} CleanEmptyLinesAppend(a: seq<string>, b: seq<string>)
    ensures CleanEmptyLines(a + b) == CleanEmptyLines(a) + CleanEmptyLines(b)
  {
    if |a| > 0 {
      assert (a + b)[1..] == a[1..] + b;
      CleanEmptyLinesAppend(a[1..], b);
    } else {
      assert a + b == b;
    }
  }

  lemma UnIndentAppend(a: seq<string>, b: seq<string>)
    ensures UnIndent(a + b) == UnIndent(a) + UnIndent(b)
  {
  }

  lemma {:induction false} KeepAndUnindentAppend(a: seq<string>, b: seq<string>)
    ensures KeepAndUnindent(a + b) == KeepAndUnindent(a) + KeepAndUnindent(b)
  {
    if |a| > 0 {
      assert (a + b)[0] == a[0];
      assert (a + b)[1..] == a[1..] + b;
      KeepAndUnindentAppend(a[1..], b);
    } else {
      assert a + b == b;
    }
  }

  /** Normalised lines pass through the single pass untouched. */
  lemma {:induction false} OnePassOfNormalised(lines: seq<string>)
    requires forall i :: 0 <= i < |lines| ==> IsNormalised(lines[i])
    ensures KeepAndUnindent(lines) == lines
  {
    if |lines| > 0 {
      NormalisedLineKept(lines[0]);
      OnePassOfNormalised(lines[1..]);
    }
  }

  /** Compressing twice is compressing once. */
  lemma CompressIdempotent(lines: seq<string>)
    ensures Compress(Compress(lines)) == Compress(lines)
  {
    CompressIsOnePass(Compress(lines));
    OnePassOfNormalised(Compress(lines));
  }

  /** A comment, an empty line and an indented property compress to the bare property. */
  lemma CompressExample()
    ensures Compress(["# c", "", "  A: B"]) == ["A: B"]
  {
    var lines := ["# c", "", "  A: B"];
    CompressIsOnePass(lines);
    assert LeadingSpaces("# c") == 0;
    assert IsComment("# c");
    assert IsBlank("");
    assert LeadingSpaces("  A: B") == 2;
    assert !IsBlank("  A: B") by {
      assert "  A: B"[2] == 'A';
    }
    assert DropSpaces("  A: B") == "A: B";
    assert lines[1..][1..] == ["  A: B"];
  }
}
