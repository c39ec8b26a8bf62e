/** Reading option values: `getValueP`/`getValue` look a property up regardless of case,
    `parseBoolean` reads a yes/no answer from its first letter, `parseMultipleValues` and
    `getMultipleValues` split a list of values, and `getChoices` reads the choice list out
    of a `Choice: a, b, c` type. */
module Decoders {
  import opened Results
  import opened Text
  import opened Dicts
  import opened Document

  /** The type prefix of a choice list. */
  const ChoiceType: string := "Choice"

  /** `getValueP`: the value of the first property whose key equals `prop` once both are
      lower-cased, or None when no key does. */
  function GetValueP<V>(d: Dict<V>, prop: string): (r: Option<V>)
    ensures r.None? <==> forall i :: 0 <= i < |d| ==> Lower(d[i].0) != Lower(prop)
    ensures r.Some? ==> exists i :: 0 <= i < |d| && Lower(d[i].0) == Lower(prop) && r.value == d[i].1
                          && forall j :: 0 <= j < i ==> Lower(d[j].0) != Lower(prop)
  {
    if |d| == 0 then None
    else if Lower(d[0].0) == Lower(prop) then Some(d[0].1)
    else
      var r := GetValueP(d[1..], prop);
      assert forall i :: 1 <= i < |d| ==> d[i] == d[1..][i - 1];
      r
  }

  /** `getValue`: the option's `Value` property, in any case. */
  function GetValue<V>(d: Dict<V>): Option<V> {
    GetValueP(d, ValueKey)
  }

  /** No two keys are equal up to case. */
  predicate CaseDistinct<V>(d: Dict<V>) {
    forall i, j :: 0 <= i < |d| && 0 <= j < |d| && i != j ==> Lower(d[i].0) != Lower(d[j].0)
  }

  /** The lookup only sees the lower-cased property name. */
  lemma GetValuePIgnoresCase<V>(d: Dict<V>, p: string, q: string)
    requires Lower(p) == Lower(q)
    ensures GetValueP(d, p) == GetValueP(d, q)
  {
  }

  /** In a dictionary whose keys differ even up to case, the case-blind lookup of a stored
      key finds that key's value. */
  lemma {:induction false} GetValuePOfKey<V>(d: Dict<V>, k: string)
    requires CaseDistinct(d) && k in Keys(d)
    ensures GetValueP(d, k) == Get(d, k)
  {
    if d[0].0 != k {
      var j :| 0 <= j < |d| && Keys(d)[j] == k;
      assert Lower(d[0].0) != Lower(d[j].0);
      assert Keys(d[1..])[j - 1] == k;
      assert CaseDistinct(d[1..]) by {
        assert forall i :: 0 <= i < |d| - 1 ==> d[1..][i] == d[i + 1];
      }
      GetValuePOfKey(d[1..], k);
    }
  }

  /** `getValue` reads the `Value` property of an option that has one. */
  lemma GetValueOfOption<V>(d: Dict<V>)
    requires CaseDistinct(d) && ValueKey in Keys(d)
    ensures GetValue(d) == Get(d, ValueKey)
  {
    GetValuePOfKey(d, ValueKey);
  }

  /** Any spelling of `value` finds the `Value` property. */
  lemma GetValueAnyCase<V>(d: Dict<V>)
    ensures GetValueP(d, "value") == GetValue(d) && GetValueP(d, "VALUE") == GetValue(d)
  {
    GetValuePIgnoresCase(d, "value", ValueKey);
    GetValuePIgnoresCase(d, "VALUE", ValueKey);
  }

  /** `parseBoolean`: the first letter, lower-cased, decides; `t`/`y` mean true, `f`/`n`
      false, anything else None. An empty answer raises IndexError. */
  function ParseBoolean(s: string): (r: Result<Option<bool>>)
    ensures r == Err(IndexError) <==> |s| == 0
  {
    if |s| == 0 then Err(IndexError)
    else
      var c := Lower(s)[0];
      if c == 't' || c == 'y' then Ok(Some(true))
      else if c == 'f' || c == 'n' then Ok(Some(false))
      else Ok(None)
  }

  /** Reference reading of a yes/no answer by its first letter. */
  function Answer(c: char): Option<bool> {
    if c in "tTyY" then Some(true)
    else if c in "fFnN" then Some(false)
    else None
  }

  /** `parseBoolean` answers by the first letter alone, in either case. */
  lemma ParseBooleanByFirstLetter(s: string)
    requires |s| > 0
    ensures ParseBoolean(s) == Ok(Answer(s[0]))
  {
  }

  /** Only the first letter is read: `nonsense` is a no and `yo-yo` a yes. */
  lemma ParseBooleanIgnoresRest(c: char, rest: string)
    ensures ParseBoolean([c] + rest) == ParseBoolean([c])
  {
    ParseBooleanByFirstLetter([c] + rest);
    ParseBooleanByFirstLetter([c]);
  }

  /** The usual spellings of yes. */
  lemma ParseBooleanYes()
    ensures ParseBoolean("Yes") == Ok(Some(true)) && ParseBoolean("true") == Ok(Some(true))
  {
    ParseBooleanByFirstLetter("Yes");
    ParseBooleanByFirstLetter("true");
  }

  /** The usual spellings of no, and an answer that is neither. */
  lemma ParseBooleanNo()
    ensures ParseBoolean("No") == Ok(Some(false)) && ParseBoolean("False") == Ok(Some(false))
    ensures ParseBoolean("maybe") == Ok(None)
  {
    ParseBooleanByFirstLetter("No");
    ParseBooleanByFirstLetter("False");
    ParseBooleanByFirstLetter("maybe");
  }

  /** `parseMultipleValues`: `option.split(" ")`, empty pieces included. */
  function ParseMultipleValues(s: string): (r: seq<string>)
    ensures |r| == Count(s, ' ') + 1
  {
    SplitOn(s, ' ')
  }

  /** The split loses nothing: joining the pieces with single spaces gives the value back. */
  lemma ParseMultipleValuesLossless(s: string)
    ensures JoinWith(ParseMultipleValues(s), " ") == s
  {
    JoinOfSplit(s, ' ');
  }

  /** Values joined with single spaces split back into those values. */
  lemma ParseMultipleValuesOfJoin(vs: seq<string>)
    requires |vs| >= 1 && forall i :: 0 <= i < |vs| ==> ' ' !in vs[i]
    ensures ParseMultipleValues(JoinWith(vs, " ")) == vs
  {
    SplitOfJoin(vs, ' ');
  }

  /** Every piece, stripped. */
  function StripAll(ps: seq<string>): (r: seq<string>)
    ensures |r| == |ps|
  {
    seq(|ps|, i requires 0 <= i < |ps| => Strip(ps[i]))
  }

  predicate Stripped(s: string) {
    |s| == 0 || (!IsWhitespace(s[0]) && !IsWhitespace(s[|s| - 1]))
  }

  /** The text `^ *Choice *: *(.*)` captures in the stripped value, or None. */
  function ChoiceText(v: string): (r: Option<string>)
    ensures r.Some? ==> '\n' !in r.value
  {
    var t := Strip(v);
    match MatchSpacesThen(t, ChoiceType)
    case None => None
    case Some(e) =>
      var u := DropSpaces(t[e..]);
      if |u| > 0 && u[0] == ':' then Some(UpToNewline(DropSpaces(u[1..]))) else None
  }

  /** `getChoices`: the captured text split at commas, each choice stripped; None when the
      value is not a choice list. */
  function GetChoices(v: string): (r: Option<seq<string>>)
    ensures r.Some? <==> ChoiceText(v).Some?
    ensures r.Some? ==> |r.value| == Count(ChoiceText(v).value, ',') + 1
    ensures r.Some? ==> forall i :: 0 <= i < |r.value| ==>
              Stripped(r.value[i]) && ',' !in r.value[i] && '\n' !in r.value[i]
  {
    match ChoiceText(v)
    case None => None
    case Some(g) =>
      var ps := SplitOn(g, ',');
      var r := StripAll(ps);
      forall i | 0 <= i < |r|
        ensures Stripped(r[i]) && ',' !in r[i] && '\n' !in r[i]
      {
        ChoicePieceClean(g, i);
      }
      Some(r)
  }

  /** A stripped piece of a newline-free text holds no comma and no newline. */
  lemma ChoicePieceClean(g: string, i: nat)
    requires '\n' !in g && i < |SplitOn(g, ',')|
    ensures var r := StripAll(SplitOn(g, ','))[i]; Stripped(r) && ',' !in r && '\n' !in r
  {
    var p := SplitOn(g, ',')[i];
    StripKeeps(p, ',');
    SplitPieceInside(g, ',', i);
    StripKeeps(p, '\n');
  }

  /** The choices are the comma-separated pieces of the captured text, in order, each
      stripped: the text has such a split, and any split of it into comma-free pieces
      gives exactly these choices. */
  lemma GetChoicesArePieces(v: string)
    ensures GetChoices(v).Some? ==>
              exists ps :: |ps| >= 1 && JoinWith(ps, ",") == ChoiceText(v).value
                           && (forall i :: 0 <= i < |ps| ==> ',' !in ps[i])
    ensures GetChoices(v).Some? ==>
              forall ps :: |ps| >= 1 && JoinWith(ps, ",") == ChoiceText(v).value
                           && (forall i :: 0 <= i < |ps| ==> ',' !in ps[i]) ==>
                GetChoices(v).value == StripAll(ps)
  {
    if GetChoices(v).Some? {
      var g := ChoiceText(v).value;
      JoinOfSplit(g, ',');
      assert [','] == ",";
      forall ps | |ps| >= 1 && JoinWith(ps, ",") == g && (forall i :: 0 <= i < |ps| ==> ',' !in ps[i])
        ensures GetChoices(v).value == StripAll(ps)
      {
        SplitOfJoin(ps, ',');
      }
    }
  }

  /** A character missing from the string is missing from every piece of its split. */
  lemma {:induction false} SplitPieceInside(s: string, sep: char, i: nat)
    requires i < |SplitOn(s, sep)|
    ensures forall c :: c in SplitOn(s, sep)[i] ==> c in s
  {
    if |s| > 0 {
      var rest := SplitOn(s[1..], sep);
      if s[0] == sep {
        if i > 0 {
          SplitPieceInside(s[1..], sep, i - 1);
        }
      } else {
        SplitPieceInside(s[1..], sep, i);
      }
    }
  }

  /** A choice that reads back as itself. */
  predicate ChoiceOk(c: string) {
    |c| > 0 && Stripped(c) && ',' !in c && '\n' !in c
  }

  /** The choices joined with `", "`, each but the first behind its separator's space. */
  function Padded(cs: seq<string>): (r: seq<string>)
    ensures |r| == |cs|
  {
    seq(|cs|, i requires 0 <= i < |cs| => if i == 0 then cs[0] else " " + cs[i])
  }

  lemma {:induction false} JoinPadded(cs: seq<string>)
    requires |cs| >= 1
    ensures JoinWith(Padded(cs), ",") == JoinWith(cs, ", ")
  {
    if |cs| > 1 {
      JoinPadded(cs[1..]);
      var tail := Padded(cs[1..]);
      assert Padded(cs)[1..] == [" " + cs[1]] + tail[1..];
      assert tail == [cs[1]] + tail[1..];
      JoinHeadPrefix(" ", cs[1], tail[1..], ",");
      assert JoinWith(cs, ", ") == cs[0] + ", " + JoinWith(cs[1..], ", ");
    }
  }

  /** A choice type whose list starts right after `Choice: ` captures that list. */
  lemma ChoiceTextOfLine(j: string)
    requires |j| > 0 && j[0] != ' ' && '\n' !in j && Strip("Choice: " + j) == "Choice: " + j
    ensures ChoiceText("Choice: " + j) == Some(j)
  {
    var v := "Choice: " + j;
    LeadingSpacesExact(v, 0);
    assert ChoiceType <= v;
    assert MatchSpacesThen(v, ChoiceType) == Some(6);
    var rest := v[6..];
    assert rest == ": " + j;
    LeadingSpacesExact(rest, 0);
    assert rest[1..] == " " + j;
    LeadingSpacesExact(" " + j, 1);
    assert (" " + j)[1..] == j;
    UpToNewlineWhole(j);
  }

  /** The written choice list begins and ends with a choice and stays on one line. */
  lemma WrittenChoicesShape(cs: seq<string>)
    requires |cs| >= 1 && forall i :: 0 <= i < |cs| ==> ChoiceOk(cs[i])
    ensures var j := JoinWith(cs, ", ");
            |j| > 0 && !IsWhitespace(j[0]) && !IsWhitespace(j[|j| - 1]) && '\n' !in j
  {
    JoinStartsWith(cs, ", ");
    JoinEndsWith(cs, ", ");
    JoinAvoids(cs, ", ", '\n');
    var last := cs[|cs| - 1];
    var j := JoinWith(cs, ", ");
    assert j[0] == cs[0][0];
    assert j[|j| - 1] == j[|j| - |last|..][|last| - 1] == last[|last| - 1];
  }

  /** Where the choices begin in a written choice type. */
  lemma ChoiceTextOfWritten(cs: seq<string>)
    requires |cs| >= 1 && forall i :: 0 <= i < |cs| ==> ChoiceOk(cs[i])
    ensures ChoiceText("Choice: " + JoinWith(cs, ", ")) == Some(JoinWith(cs, ", "))
  {
    WrittenChoicesShape(cs);
    ChoiceTextOfTrimmed(JoinWith(cs, ", "));
  }

  /** A list with no whitespace at either end and no newline, behind `Choice: `. */
  lemma ChoiceTextOfTrimmed(j: string)
    requires |j| > 0 && !IsWhitespace(j[0]) && !IsWhitespace(j[|j| - 1]) && '\n' !in j
    ensures ChoiceText("Choice: " + j) == Some(j)
  {
    var v := "Choice: " + j;
    assert v[|v| - 1] == j[|j| - 1];
    StripUnchanged(v);
    assert IsWhitespace(' ');
    ChoiceTextOfLine(j);
  }

  /** Splitting the written list at commas gives the choices, each but the first behind a space. */
  lemma SplitWrittenChoices(cs: seq<string>)
    requires |cs| >= 1 && forall i :: 0 <= i < |cs| ==> ChoiceOk(cs[i])
    ensures SplitOn(JoinWith(cs, ", "), ',') == Padded(cs)
  {
    JoinPadded(cs);
    var ps := Padded(cs);
    forall i | 0 <= i < |ps|
      ensures ',' !in ps[i]
    {
    }
    SplitOfJoin(ps, ',');
  }

  lemma StripPadded(cs: seq<string>)
    requires forall i :: 0 <= i < |cs| ==> ChoiceOk(cs[i])
    ensures StripAll(Padded(cs)) == cs
  {
    var ps := Padded(cs);
    forall i | 0 <= i < |cs|
      ensures Strip(ps[i]) == cs[i]
    {
      StripUnchanged(cs[i]);
      if i > 0 {
        StripAfterSpace(cs[i]);
      }
    }
  }

  /** `getChoices` reads back the choices of the type `Choice: a, b, c`. */
  lemma GetChoicesOfWritten(cs: seq<string>)
    requires |cs| >= 1 && forall i :: 0 <= i < |cs| ==> ChoiceOk(cs[i])
    ensures GetChoices("Choice: " + JoinWith(cs, ", ")) == Some(cs)
  {
    ChoiceTextOfWritten(cs);
    SplitWrittenChoices(cs);
    StripPadded(cs);
  }

  /** A choice type with nothing after the colon captures the empty text. */
  lemma ChoiceTextOfBare()
    ensures ChoiceText("Choice:") == Some("")
  {
    var v := "Choice:";
    StripUnchanged(v);
    LeadingSpacesExact(v, 0);
    assert ChoiceType <= v;
    assert MatchSpacesThen(v, ChoiceType) == Some(6);
    assert v[6..] == ":";
    LeadingSpacesExact(":", 0);
    assert ":"[1..] == "";
  }

  /** A choice type with nothing after the colon reads as the one empty choice. */
  lemma GetChoicesOfBare()
    ensures GetChoices("Choice:") == Some([""])
  {
    ChoiceTextOfBare();
    StripUnchanged("");
    assert StripAll([""]) == [Strip("")];
  }

  /** A type that does not start with `Choice` is not a choice list. */
  lemma GetChoicesOfOtherType()
    ensures GetChoices("Text").None?
  {
    StripUnchanged("Text");
    LeadingSpacesExact("Text", 0);
  }

  /** `getMultipleValues`: the text `^ *(.*)` captures in the stripped value, split at
      whitespace, each value stripped. */
  function GetMultipleValues(v: string): (r: seq<string>)
    ensures forall i :: 0 <= i < |r| ==> |r[i]| > 0 && NoWhitespace(r[i])
  {
    var ws := Words(UpToNewline(DropSpaces(Strip(v))));
    forall i | 0 <= i < |ws|
      ensures Strip(ws[i]) == ws[i]
    {
      StripUnchanged(ws[i]);
    }
    StripAll(ws)
  }

  /** `getMultipleValues` reads back values joined with single spaces. */
  lemma GetMultipleValuesOfJoin(ws: seq<string>)
    requires forall i :: 0 <= i < |ws| ==> |ws[i]| > 0 && NoWhitespace(ws[i])
    ensures GetMultipleValues(JoinWith(ws, " ")) == ws
  {
    var j := JoinWith(ws, " ");
    if |ws| > 0 {
      JoinStartsWith(ws, " ");
      JoinEndsWith(ws, " ");
      assert j[0] == ws[0][0];
      assert j[|j| - 1] == ws[|ws| - 1][|ws[|ws| - 1]| - 1];
      StripUnchanged(j);
      LeadingSpacesExact(j, 0);
      forall i | 0 <= i < |ws|
        ensures '\n' !in ws[i]
      {
        assert IsWhitespace('\n');
      }
      JoinAvoids(ws, " ", '\n');
      UpToNewlineWhole(j);
    }
    WordsOfJoin(ws);
    forall i | 0 <= i < |ws|
      ensures Strip(ws[i]) == ws[i]
    {
      StripUnchanged(ws[i]);
    }
  }

  /** On values joined with single spaces the two list readers agree. */
  lemma MultipleValuesAgree(ws: seq<string>)
    requires |ws| >= 1 && forall i :: 0 <= i < |ws| ==> |ws[i]| > 0 && NoWhitespace(ws[i])
    ensures ParseMultipleValues(JoinWith(ws, " ")) == GetMultipleValues(JoinWith(ws, " ")) == ws
  {
    GetMultipleValuesOfJoin(ws);
    forall i | 0 <= i < |ws|
      ensures ' ' !in ws[i]
    {
      assert IsWhitespace(' ');
    }
    ParseMultipleValuesOfJoin(ws);
  }

  lemma WordsExample()
    ensures Words("a  b") == ["a", "b"]
  {
    WordsOfDoubleSpaced("a", "b");
    assert "a" + "  " + "b" == "a  b";
  }

  /** Two words with two spaces between them split into the two words. */
  lemma WordsOfDoubleSpaced(a: string, b: string)
    requires |a| > 0 && NoWhitespace(a) && |b| > 0 && NoWhitespace(b)
    ensures Words(a + "  " + b) == [a, b]
  {
    assert a + "  " + b == a + (" " + (" " + b));
    WordsCons(a, " " + (" " + b));
    WordsAfterSpace(" " + b);
    WordsAfterSpace(b);
    WordsCons(b, "");
    assert b + "" == b;
  }

  /** The readers differ on doubled spaces: the strict split keeps the empty piece. */
  lemma DoubleSpaceExample()
    ensures ParseMultipleValues("a  b") == ["a", "", "b"]
    ensures GetMultipleValues("a  b") == ["a", "b"]
  {
    StrictSplitExample();
    LooseSplitExample();
  }

  lemma StrictSplitExample()
    ensures ParseMultipleValues("a  b") == ["a", "", "b"]
  {
    SplitOfJoin(["a", "", "b"], ' ');
    assert JoinWith(["a", "", "b"], " ") == "a  b";
  }

  lemma LooseSplitExample()
    ensures GetMultipleValues("a  b") == ["a", "b"]
  {
    var v := "a  b";
    StripUnchanged(v);
    LeadingSpacesExact(v, 0);
    UpToNewlineWhole(v);
    WordsExample();
    StripUnchanged("a");
    StripUnchanged("b");
    assert StripAll(["a", "b"]) == ["a", "b"];
  }
}
