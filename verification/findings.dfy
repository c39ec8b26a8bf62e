/** The shadowed `filename` in `parseCompressedBuffer`: the function compares each option's
    type with its `filename` argument, the configuration file's path, instead of with the
    module constant `Filename`. A one-option document shows the two readings apart. */
module Findings {
  import opened Results
  import opened Text
  import opened Dicts
  import opened Paths
  import opened Blocks
  import opened Properties
  import opened Document
  import opened Writer
  import opened RoundTrip

  /** The configuration file's path, also its absolute path. */
  const ConfPath: string := "/a/conf"

  /** An option naming the file `x.img` next to the configuration file. */
  const FileOption: Props := [(TypeKey, FilenameType), (ValueKey, "x.img")]

  /** The same option with its value relocated. */
  const MovedFileOption: Props := [(TypeKey, FilenameType), (ValueKey, "/a/x.img")]

  const FileDoc: Doc := [("s", [("o", FileOption)])]
  const MovedFileDoc: Doc := [("s", [("o", MovedFileOption)])]

  lemma ExampleKeys()
    ensures KeyOk(TypeKey) && KeyQuiet(TypeKey)
    ensures KeyOk(ValueKey) && KeyQuiet(ValueKey)
  {
    LettersLiteral(TypeKey);
    LettersLiteral(ValueKey);
  }

  lemma ExampleValues()
    ensures ValueOk(FilenameType) && ValueOk("x.img")
  {
    LettersLiteral(FilenameType);
    StripUnchanged(FilenameType);
    StripUnchanged("x.img");
  }

  lemma ExampleNames()
    ensures NameOk("s") && NameOk("o")
  {
    LettersLiteral("s");
    LettersLiteral("o");
  }

  lemma ExampleOptionOk(tag: string)
    ensures OptionOk(FileOption, tag)
  {
    ExampleKeys();
    ExampleValues();
    assert TypeKey != ValueKey by {
      assert TypeKey[0] != ValueKey[0];
    }
  }

  lemma ExampleDocOk(tag: string)
    ensures DocOk(FileDoc, tag)
  {
    ExampleOptionOk(tag);
    ExampleNames();
  }

  /** Relocation against `/a/conf` turns `x.img` into `/a/x.img`. */
  lemma ExampleMove()
    ensures Join(Dirname(ConfPath), Basename("x.img")) == "/a/x.img"
  {
    ComponentStartOfTail("", "x.img");
    assert "" + "x.img" == "x.img";
    var p := ConfPath;
    assert p == "/a/" + "conf";
    ComponentStartOfTail("/a/", "conf");
    assert p[..3] == "/a/";
    assert RStripSlashes("/a/") == RStripSlashes("/a") == "/a";
  }

  /** An option of the relocating type with a `Value` and nothing else is relocated in place. */
  lemma RewritePair(tag: string, v: string, absPath: string)
    ensures Rewrite([(TypeKey, tag), (ValueKey, v)], tag, absPath)
              == Ok([(TypeKey, tag), (ValueKey, Join(Dirname(absPath), Basename(v)))])
  {
    assert TypeKey != ValueKey by {
      assert TypeKey[0] != ValueKey[0];
    }
    var p := [(TypeKey, tag), (ValueKey, v)];
    var moved := Join(Dirname(absPath), Basename(v));
    assert p[1..] == [(ValueKey, v)];
    assert Get(p, TypeKey) == Some(tag);
    assert Get(p, ValueKey) == Some(v);
    assert Put(p[1..], ValueKey, moved) == [(ValueKey, moved)];
    assert Put(p, ValueKey, moved) == [p[0]] + [(ValueKey, moved)] == [(TypeKey, tag), (ValueKey, moved)];
    assert Rewrite(p, tag, absPath) == Ok(Put(p, ValueKey, moved));
  }

  lemma ExampleRewrite()
    ensures Rewrite(FileOption, FilenameType, ConfPath) == Ok(MovedFileOption)
  {
    ExampleMove();
    RewritePair(FilenameType, "x.img", ConfPath);
  }

  /** Relocating a one-option section relocates its option. */
  lemma MovedSingleOption(o: string, p: Props, q: Props, tag: string, absPath: string)
    requires SectionOk([(o, p)], tag) && Rewrite(p, tag, absPath) == Ok(q)
    ensures MovedOptions([(o, p)], tag, absPath) == [(o, q)]
  {
    var sm := MovedOptions([(o, p)], tag, absPath);
    assert Keys([(o, p)])[0] == o;
    assert sm[0].0 == Keys(sm)[0] == o;
    assert Ok(sm[0].1) == Rewrite(p, tag, absPath);
  }

  /** Relocating a one-option document relocates its option. */
  lemma MovedSingleton(s: string, o: string, p: Props, q: Props, tag: string, absPath: string)
    requires DocOk([(s, [(o, p)])], tag) && Rewrite(p, tag, absPath) == Ok(q)
    ensures MovedDoc([(s, [(o, p)])], tag, absPath) == [(s, [(o, q)])]
  {
    var d := [(s, [(o, p)])];
    assert d[0].1 == [(o, p)];
    assert SectionOk([(o, p)], tag);
    MovedSingleOption(o, p, q, tag, absPath);
    var r := MovedDoc(d, tag, absPath);
    assert Keys(d)[0] == s;
    assert r[0].0 == Keys(r)[0] == s;
    assert r[0].1 == [(o, q)];
  }

  lemma ExampleMovedDoc()
    ensures DocOk(FileDoc, FilenameType)
    ensures MovedDoc(FileDoc, FilenameType, ConfPath) == MovedFileDoc
  {
    ExampleDocOk(FilenameType);
    ExampleRewrite();
    MovedSingleton("s", "o", FileOption, MovedFileOption, FilenameType, ConfPath);
  }

  /** As written, the option of type `Filename` in the file `/a/conf` comes back with its
      relative value untouched, since its type is compared with `/a/conf`; as intended, the
      value is relocated to `/a/x.img`. */
  lemma ShadowedFilenameExample()
    ensures RegexSafe(CompressParsed(FileDoc))
    ensures Parse(CompressParsed(FileDoc), ConfPath, ConfPath) == Ok(FileDoc)
    ensures ParseIntended(CompressParsed(FileDoc), ConfPath) == Ok(MovedFileDoc)
  {
    ExampleDocOk(ConfPath);
    ExampleDocOk(FilenameType);
    assert NoneTagged(FileDoc, ConfPath) by {
      assert FilenameType[0] != ConfPath[0];
    }
    ParseOfCompressParsedExact(FileDoc, ConfPath, ConfPath);
    ParseOfCompressParsed(FileDoc, FilenameType, ConfPath);
    ExampleMovedDoc();
  }
}
