/** `parseCompressedBuffer`: a compressed configuration becomes a dictionary of sections,
    each a dictionary of options, each a dictionary of properties. Options of the file
    type have their `Value` relocated next to the configuration file. */
module Document {
  import opened Results
  import opened Text
  import opened Dicts
  import opened Paths
  import opened Blocks
  import opened Properties

  type Props = Dict<string>
  type SectionMap = Dict<Props>
  type Doc = Dict<SectionMap>

  /** The property holding an option's type. */
  const TypeKey: string := "Type"
  /** The property holding an option's value. */
  const ValueKey: string := "Value"
  /** The type of options whose value names a file. */
  const FilenameType: string := "Filename"

  /** The names and keys a line contributes to patterns can be spliced in literally. */
  predicate LineSafe(line: string) {
    && (ColonKey(line).Some? ==> IsLiteral(ColonKey(line).value))
    && ((IsMarker(line, Opener(SectionBlock)) || IsMarker(line, Opener(OptionBlock))) && SecondWord(line).Ok?
        ==> IsLiteral(SecondWord(line).value))
  }

  predicate RegexSafe(lines: seq<string>) {
    forall l :: l in lines ==> LineSafe(l)
  }

  lemma SafeKeys(lines: seq<string>)
    requires RegexSafe(lines)
    ensures KeysLiteral(lines)
  {
    assert forall i :: 0 <= i < |lines| ==> lines[i] in lines;
  }

  lemma SafeNames(lines: seq<string>, k: Kind)
    requires RegexSafe(lines) && ListNames(lines, k).Ok?
    ensures forall n :: n in ListNames(lines, k).value ==> IsLiteral(n)
  {
    ListedNamesComeFromMarkers(lines, k);
    assert forall i :: 0 <= i < |lines| ==> lines[i] in lines;
  }

  lemma SafeWithin(lines: seq<string>, k: Kind, name: string)
    requires RegexSafe(lines) && IsLiteral(name)
    ensures RegexSafe(LinesWithin(lines, k, name))
  {
    LinesWithinFrom(lines, k, name);
  }

  /** The relocation step of `parseCompressedBuffer` for one option: reading `Type`
      raises KeyError when it is missing; an option whose type is `tag` must have a
      `Value`, which is replaced by its base name joined onto the directory of the
      configuration file. */
  function Rewrite(props: Props, tag: string, absPath: string): (r: Result<Props>)
    ensures Get(props, TypeKey).None? ==> r == Err(KeyError(TypeKey))
    ensures Get(props, TypeKey).Some? && Get(props, TypeKey).value != tag ==> r == Ok(props)
    ensures Get(props, TypeKey) == Some(tag) && Get(props, ValueKey).None? ==> r == Err(KeyError(ValueKey))
    ensures Get(props, TypeKey) == Some(tag) && Get(props, ValueKey).Some? ==>
              && r.Ok?
              && Get(r.value, ValueKey) == Some(Join(Dirname(absPath), Basename(Get(props, ValueKey).value)))
              && Keys(r.value) == Keys(props)
              && forall other :: other != ValueKey ==> Get(r.value, other) == Get(props, other)
    ensures r.Ok? && IsDict(props) ==> IsDict(r.value)
  {
    match Get(props, TypeKey)
    case None => Err(KeyError(TypeKey))
    case Some(t) =>
      if t != tag then Ok(props)
      else
        match Get(props, ValueKey)
        case None => Err(KeyError(ValueKey))
        case Some(v) =>
          var moved := Join(Dirname(absPath), Basename(v));
          PutThenGet(props, ValueKey, moved);
          PutKeepsDictIfDict(props, ValueKey, moved);
          assert forall other :: other != ValueKey ==> Get(Put(props, ValueKey, moved), other) == Get(props, other) by {
            forall other | other != ValueKey
              ensures Get(Put(props, ValueKey, moved), other) == Get(props, other)
            {
              PutKeepsOthers(props, ValueKey, moved, other);
            }
          }
          Ok(Put(props, ValueKey, moved))
  }

  /** An option whose stored type is `tag` had that type before, had a `Value`, and now
      holds that value's base name in the configuration file's directory. */
  lemma RewriteRelocates(props: Props, tag: string, absPath: string)
    requires Rewrite(props, tag, absPath).Ok?
    requires Get(Rewrite(props, tag, absPath).value, TypeKey) == Some(tag)
    ensures Get(props, TypeKey) == Some(tag) && Get(props, ValueKey).Some?
    ensures var moved := Get(Rewrite(props, tag, absPath).value, ValueKey);
            && moved.Some?
            && Dirname(moved.value) == Dirname(absPath)
            && Basename(moved.value) == Basename(Get(props, ValueKey).value)
  {
    assert TypeKey != ValueKey by {
      assert TypeKey[0] != ValueKey[0];
    }
    var b := Basename(Get(props, ValueKey).value);
    DirnameOfJoin(absPath, b);
    BasenameOfJoin(Dirname(absPath), b);
  }

  /** Relocating an already relocated option changes nothing. */
  lemma RewriteIdempotent(props: Props, tag: string, absPath: string)
    requires Rewrite(props, tag, absPath).Ok?
    ensures Rewrite(Rewrite(props, tag, absPath).value, tag, absPath) == Rewrite(props, tag, absPath)
  {
    if Get(props, TypeKey) == Some(tag) {
      var r := Rewrite(props, tag, absPath).value;
      assert TypeKey != ValueKey by {
        assert TypeKey[0] != ValueKey[0];
      }
      var moved := Get(r, ValueKey).value;
      BasenameOfJoin(Dirname(absPath), Basename(Get(props, ValueKey).value));
      PutExisting(r, ValueKey, moved);
    }
  }

  lemma PutKeepsDictIfDict<V>(d: Dict<V>, k: string, v: V)
    ensures IsDict(d) ==> IsDict(Put(d, k, v))
  {
    if IsDict(d) {
      PutKeepsDict(d, k, v);
    }
  }

  /** The properties of one option: `getProperties(getLinesWithinOption(lines, name))`. */
  function OptionProps(lines: seq<string>, name: string): Props
    requires RegexSafe(lines) && IsLiteral(name)
  {
    var within := LinesWithin(lines, OptionBlock, name);
    SafeWithin(lines, OptionBlock, name);
    SafeKeys(within);
    GetProperties(within)
  }

  /** One option of `parseCompressedBuffer`: its properties, then relocation. */
  function ParseOption(lines: seq<string>, name: string, tag: string, absPath: string): Result<Props>
    requires RegexSafe(lines) && IsLiteral(name)
  {
    Rewrite(OptionProps(lines, name), tag, absPath)
  }

  /** Every entry of `sm` is what parsing its option's block gives. */
  predicate OptionsFrom(sm: SectionMap, lines: seq<string>, tag: string, absPath: string)
    requires RegexSafe(lines)
  {
    forall e :: e in sm ==> IsLiteral(e.0) && ParseOption(lines, e.0, tag, absPath) == Ok(e.1)
  }

  /** The inner loop of `parseCompressedBuffer` from a given point on: each listed option
      is parsed and stored under its name; the first failure ends the parse. */
  function ParseOptions(lines: seq<string>, names: seq<string>, acc: SectionMap, tag: string, absPath: string)
    : (r: Result<SectionMap>)
    requires RegexSafe(lines) && forall n :: n in names ==> IsLiteral(n)
    ensures r.Ok? <==> forall n :: n in names ==> ParseOption(lines, n, tag, absPath).Ok?
    ensures r.Ok? ==> Keys(r.value) == AddNew(Keys(acc), names)
    ensures r.Ok? && IsDict(acc) ==> IsDict(r.value)
    ensures r.Ok? && OptionsFrom(acc, lines, tag, absPath) ==> OptionsFrom(r.value, lines, tag, absPath)
    decreases |names|
  {
    if |names| == 0 then Ok(acc)
    else
      var n := names[0];
      match ParseOption(lines, n, tag, absPath)
      case Err(e) => Err(e)
      case Ok(p) =>
        StoreOption(acc, n, p, lines, tag, absPath);
        assert forall m :: m in names <==> m == n || m in names[1..];
        ParseOptions(lines, names[1..], Put(acc, n, p), tag, absPath)
  }

  lemma StoreOption(acc: SectionMap, n: string, p: Props, lines: seq<string>, tag: string, absPath: string)
    requires RegexSafe(lines) && IsLiteral(n) && ParseOption(lines, n, tag, absPath) == Ok(p)
    ensures Keys(Put(acc, n, p)) == if n in Keys(acc) then Keys(acc) else Keys(acc) + [n]
    ensures IsDict(acc) ==> IsDict(Put(acc, n, p))
    ensures OptionsFrom(acc, lines, tag, absPath) ==> OptionsFrom(Put(acc, n, p), lines, tag, absPath)
  {
    PutKeepsDictIfDict(acc, n, p);
    if n !in Keys(acc) {
      KeysAppend(acc, n, p);
    }
    PutEntries(acc, n, p);
  }

  /** One section: `getLinesWithinSection`, `getOptions` on its lines, then every option. */
  function ParseSection(lines: seq<string>, name: string, tag: string, absPath: string): Result<SectionMap>
    requires RegexSafe(lines) && IsLiteral(name)
  {
    var within := LinesWithin(lines, SectionBlock, name);
    SafeWithin(lines, SectionBlock, name);
    var options :- ListNames(within, OptionBlock);
    SafeNames(within, OptionBlock);
    ParseOptions(within, options, [], tag, absPath)
  }

  /** Every entry of `d` is what parsing its section's block gives. */
  predicate SectionsFrom(d: Doc, lines: seq<string>, tag: string, absPath: string)
    requires RegexSafe(lines)
  {
    forall e :: e in d ==> IsLiteral(e.0) && ParseSection(lines, e.0, tag, absPath) == Ok(e.1)
  }

  /** The outer loop of `parseCompressedBuffer` from a given point on. */
  function ParseSections(lines: seq<string>, names: seq<string>, acc: Doc, tag: string, absPath: string)
    : (r: Result<Doc>)
    requires RegexSafe(lines) && forall n :: n in names ==> IsLiteral(n)
    ensures r.Ok? <==> forall n :: n in names ==> ParseSection(lines, n, tag, absPath).Ok?
    ensures r.Ok? ==> Keys(r.value) == AddNew(Keys(acc), names)
    ensures r.Ok? && IsDict(acc) ==> IsDict(r.value)
    ensures r.Ok? && SectionsFrom(acc, lines, tag, absPath) ==> SectionsFrom(r.value, lines, tag, absPath)
    decreases |names|
  {
    if |names| == 0 then Ok(acc)
    else
      var n := names[0];
      match ParseSection(lines, n, tag, absPath)
      case Err(e) => Err(e)
      case Ok(sm) =>
        StoreSection(acc, n, sm, lines, tag, absPath);
        assert forall m :: m in names <==> m == n || m in names[1..];
        ParseSections(lines, names[1..], Put(acc, n, sm), tag, absPath)
  }

  lemma StoreSection(acc: Doc, n: string, sm: SectionMap, lines: seq<string>, tag: string, absPath: string)
    requires RegexSafe(lines) && IsLiteral(n) && ParseSection(lines, n, tag, absPath) == Ok(sm)
    ensures Keys(Put(acc, n, sm)) == if n in Keys(acc) then Keys(acc) else Keys(acc) + [n]
    ensures IsDict(acc) ==> IsDict(Put(acc, n, sm))
    ensures SectionsFrom(acc, lines, tag, absPath) ==> SectionsFrom(Put(acc, n, sm), lines, tag, absPath)
  {
    PutKeepsDictIfDict(acc, n, sm);
    PutEntries(acc, n, sm);
    if n !in Keys(acc) {
      KeysAppend(acc, n, sm);
    }
  }

  /** `parseCompressedBuffer` with the type that triggers relocation as a parameter. The
      document has one entry per distinct section name, in order of first appearance,
      each holding what parsing that section's block gives; the parse fails when the
      section listing fails or any section fails. */
  function ParseWith(lines: seq<string>, tag: string, absPath: string): (r: Result<Doc>)
    requires RegexSafe(lines)
    ensures r.Ok? <==>
              && ListNames(lines, SectionBlock).Ok?
              && forall n :: n in ListNames(lines, SectionBlock).value ==>
                   IsLiteral(n) && ParseSection(lines, n, tag, absPath).Ok?
    ensures r.Ok? ==> IsDict(r.value) && Keys(r.value) == Dedup(ListNames(lines, SectionBlock).value)
    ensures r.Ok? ==> SectionsFrom(r.value, lines, tag, absPath)
  {
    var names :- ListNames(lines, SectionBlock);
    SafeNames(lines, SectionBlock);
    ParseSections(lines, names, [], tag, absPath)
  }

  /** In a parsed section, every option of type `tag` holds a value in the configuration
      file's directory. */
  lemma SectionRelocated(lines: seq<string>, name: string, tag: string, absPath: string)
    requires RegexSafe(lines) && IsLiteral(name) && ParseSection(lines, name, tag, absPath).Ok?
    ensures forall o :: o in ParseSection(lines, name, tag, absPath).value && Get(o.1, TypeKey) == Some(tag) ==>
              Get(o.1, ValueKey).Some? && Dirname(Get(o.1, ValueKey).value) == Dirname(absPath)
  {
    var within := LinesWithin(lines, SectionBlock, name);
    SafeWithin(lines, SectionBlock, name);
    var options := ListNames(within, OptionBlock).value;
    SafeNames(within, OptionBlock);
    var sm := ParseSection(lines, name, tag, absPath).value;
    assert OptionsFrom([], within, tag, absPath);
    assert OptionsFrom(sm, within, tag, absPath);
    forall o | o in sm && Get(o.1, TypeKey) == Some(tag)
      ensures Get(o.1, ValueKey).Some? && Dirname(Get(o.1, ValueKey).value) == Dirname(absPath)
    {
      RewriteRelocates(OptionProps(within, o.0), tag, absPath);
    }
  }

  /** In a parsed document, every option of type `tag` holds a value in the configuration
      file's directory: relocation is applied to every such option, whatever section it is in. */
  lemma ParsedRelocated(lines: seq<string>, tag: string, absPath: string)
    requires RegexSafe(lines) && ParseWith(lines, tag, absPath).Ok?
    ensures forall s, o :: s in ParseWith(lines, tag, absPath).value && o in s.1 && Get(o.1, TypeKey) == Some(tag) ==>
              Get(o.1, ValueKey).Some? && Dirname(Get(o.1, ValueKey).value) == Dirname(absPath)
  {
    var d := ParseWith(lines, tag, absPath).value;
    forall s | s in d
      ensures forall o :: o in s.1 && Get(o.1, TypeKey) == Some(tag) ==>
                Get(o.1, ValueKey).Some? && Dirname(Get(o.1, ValueKey).value) == Dirname(absPath)
    {
      SectionRelocated(lines, s.0, tag, absPath);
    }
  }

  /** `parseCompressedBuffer(buffers, filename)` as written: the type compared against is
      the `filename` argument, the configuration file's own path, which shadows the
      module's `Filename` constant. `absPath` is `os.path.abspath(filename)`. */
  function Parse(lines: seq<string>, filename: string, absPath: string): Result<Doc>
    requires RegexSafe(lines)
  {
    ParseWith(lines, filename, absPath)
  }

  /** `parseCompressedBuffer` as its comment and the constant `Filename` intend: options
      of type `Filename` are relocated. */
  function ParseIntended(lines: seq<string>, absPath: string): Result<Doc>
    requires RegexSafe(lines)
  {
    ParseWith(lines, FilenameType, absPath)
  }
}
