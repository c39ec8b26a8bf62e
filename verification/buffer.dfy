/** `getBuffer`: the lines of a configuration file, read up to the first empty or missing
    line, each optionally right-stripped. */
module Buffer {
  import opened Results
  import opened Text

  /** A line that ends the reading: an empty string or None. */
  predicate Stops(line: Option<string>) {
    line.None? || line.value == ""
  }

  /** One line as stored: right-stripped when `strip` is set. */
  function Stored(line: string, strip: bool): string {
    if strip then RStrip(line) else line
  }

  /** `getBuffer(files, strip)`: the lines before the first stopping line, each as stored.
      The emptiness test looks at the line before it is stripped. */
  function GetBuffer(files: seq<Option<string>>, strip: bool): (r: seq<string>)
    ensures |r| <= |files|
    ensures |r| == |files| || Stops(files[|r|])
    ensures forall i :: 0 <= i < |r| ==> !Stops(files[i]) && r[i] == Stored(files[i].value, strip)
  {
    if |files| == 0 || Stops(files[0]) then []
    else
      var rest := GetBuffer(files[1..], strip);
      assert forall i :: 1 <= i <= |rest| ==> files[i] == files[1..][i - 1];
      [Stored(files[0].value, strip)] + rest
  }

  /** Reading stops at the first stopping line: nothing after it is read. */
  lemma {:induction false} GetBufferStopsAt(files: seq<Option<string>>, more: seq<Option<string>>, strip: bool)
    requires |files| > 0 && Stops(files[|files| - 1])
    ensures GetBuffer(files + more, strip) == GetBuffer(files, strip)
  {
    if !Stops(files[0]) {
      assert (files + more)[1..] == files[1..] + more;
      GetBufferStopsAt(files[1..], more, strip);
    }
  }

  /** Without stripping, non-empty lines are read as they are. */
  lemma {:induction false} GetBufferOfLines(lines: seq<string>)
    requires forall i :: 0 <= i < |lines| ==> lines[i] != ""
    ensures GetBuffer(seq(|lines|, i requires 0 <= i < |lines| => Some(lines[i])), false) == lines
  {
    var files := seq(|lines|, i requires 0 <= i < |lines| => Some(lines[i]));
    if |lines| > 0 {
      GetBufferOfLines(lines[1..]);
      assert files[1..] == seq(|lines| - 1, i requires 0 <= i < |lines| - 1 => Some(lines[1..][i]));
    }
  }
}
