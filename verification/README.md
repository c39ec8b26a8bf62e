# relinux configuration utilities, modelled in Dafny

relinux keeps its settings in a plain-text configuration file. The file is a list of
`Section <name>` … `EndSection` blocks. Each section holds `Option <name>` … `EndOption`
blocks, and each option holds `Key: value` property lines, for example `Type`, `Value`,
`Description` or `Choice`. Comment lines start with `#` after optional indentation.
`src/relinux/configutils.py` reads such a file:

- it compresses the raw lines (no comments, no blank lines, no indentation);
- it lists section and option names and slices out the lines of one block;
- it parses a compressed buffer into a dictionary of sections, options and properties,
  relocating `Filename` values next to the configuration file;
- it writes a parsed dictionary back as a compressed buffer, or as an indented "beautified"
  listing;
- it decodes single property values: booleans, space-separated lists, choice lists.

This project models that module as pure Dafny functions over `seq<string>` buffers and
proves what the module promises about them. The modules are:

- `Results`: `Option`, and `Result` with the two errors the code can raise: `IndexError`
  and `KeyError`.
- `Text`: Python's `str.split()`, `split(sep)`, `join`, `strip`/`lstrip`/`rstrip` and
  ASCII `lower()`.
- `Dicts`: insertion-ordered dictionaries as association lists, with Python's
  assignment semantics.
- `Paths`: POSIX `dirname`, `basename` and `join`.
- `LineFilter`: `cleanComments`, `cleanEmptyLines`, `unIndent` and `compress`.
- `Blocks`: `getSections`/`getOptions` and `getLinesWithinSection`/`getLinesWithinOption`.
- `Properties`: `getProperty` and `getProperties`.
- `Document`: `parseCompressedBuffer` and the `Filename` relocation.
- `Writer`: `compressParsedBuffer` and `beautify`.
- `RoundTrip`: parsing a written document gives it back.
- `Findings`: the shadowed `filename` comparison.
- `Decoders`: `getValueP`, `getValue`, `parseBoolean`, `parseMultipleValues`,
  `getChoices` and `getMultipleValues`.
- `Buffer`: `getBuffer`.

The regular expressions of the module are modelled by what they match:

- `^ *X` is `Text.MatchSpacesThen`;
- `.*` stops at a newline (`Text.UpToNewline`);
- `^ *$` also matches a line of spaces ending in one newline (`LineFilter.IsBlank`).

Names and keys are spliced into patterns unescaped. The model therefore requires them to
be free of regular-expression metacharacters (`Text.IsLiteral`, `Document.RegexSafe`).

The model follows the code, which behaves as follows:

- `getChoices` of a bare `Choice:` gives a list holding one empty string.
- The key `getProperties` reads from a line is not right-trimmed before the colon.
- The comment on `compressParsedBuffer` calls it the opposite of `parseCompressedBuffer`.
  That holds only for documents whose text survives the round trip, and only up to the
  relocation of `Filename` values. `RoundTrip.DocOk` says which documents those are.

## Model

| member | source | states |
|---|---|---|
| LineFilter.CleanComments | src/relinux/configutils.py:86-93 | never more lines than the input; which lines it keeps is stated by `LineFilter.CleanCommentsKeeps` and their order by `LineFilter.CompressIsOnePass` |
| LineFilter.CleanCommentsKeeps | src/relinux/configutils.py:86-93 | a line is kept by `cleanComments` exactly when it is in the input and is not a `#` comment after indentation |
| LineFilter.CleanEmptyLines | src/relinux/configutils.py:67-74 | never more lines than the input; which lines it keeps is stated by `LineFilter.CleanEmptyLinesKeeps` and their order by `LineFilter.CompressIsOnePass` |
| LineFilter.CleanEmptyLinesKeeps | src/relinux/configutils.py:67-74 | a line is kept by `cleanEmptyLines` exactly when it is in the input and does not match `^ *$` |
| LineFilter.UnIndent | src/relinux/configutils.py:78-82 | one output line per input line, each the input line without its leading spaces |
| LineFilter.Compress | src/relinux/configutils.py:97-100 | no more lines than the input; every line is non-empty, not indented, not a comment and not a lone newline |
| LineFilter.CompressIsOnePass | src/relinux/configutils.py:97-100 | the three passes equal one pass that keeps, in order, each non-comment non-blank line, unindented |
| LineFilter.CompressIdempotent | src/relinux/configutils.py:97-100 | compressing a compressed buffer changes nothing |
| LineFilter.CompressExample | src/relinux/configutils.py:97-100 | a comment, an empty line and an indented property compress to the bare property |
| Blocks.SecondWord | src/relinux/configutils.py:110 | the name after the opener is the second whitespace-separated word; a marker line with fewer than two words is an `IndexError` |
| Blocks.LineNames | src/relinux/configutils.py:107-110 | a line fails only when it is an opener with fewer than two words; an opener contributes its second word and any other line nothing |
| Blocks.ListNames | src/relinux/configutils.py:104-122 | no contract of its own: the listing is the lines' contributions concatenated in order (`Blocks.ListNamesAppend` with `Blocks.LineNames`), and `Blocks.ListNamesFails`, `Blocks.ListedNamesComeFromMarkers` and `Blocks.ListedNamesComplete` describe it over whole buffers |
| Blocks.ListNamesFails | src/relinux/configutils.py:104-122 | listing names succeeds exactly when every opener line has at least two words |
| Blocks.ListedNamesComeFromMarkers | src/relinux/configutils.py:104-122 | every listed name is non-empty, has no whitespace and is the second word of some opener line |
| Blocks.ListedNamesComplete | src/relinux/configutils.py:104-122 | the second word of every opener line is listed |
| Blocks.ListNamesAppend | src/relinux/configutils.py:104-122 | the names of a concatenation are the names of each part, in order, and an error in either part is an error |
| Blocks.ListNamesOfNest | src/relinux/configutils.py:104-122 | the names listed from consecutive framed blocks are the blocks' names, duplicates and order kept |
| Blocks.BlockBodyEnds | src/relinux/configutils.py:133-139 | the collected body holds no closer and stops at the first closer or at the end |
| Blocks.FirstOpenIsFirst | src/relinux/configutils.py:130-132 | the block starts at an opener matching the wanted name, and no earlier line opens it |
| Blocks.LinesWithin | src/relinux/configutils.py:126-160 | no contract of its own: `Blocks.LinesWithinIsSlice`, `Blocks.FirstOpenIsFirst` and `Blocks.BlockBodyEnds` state the block it returns |
| Blocks.LinesWithinIsSlice | src/relinux/configutils.py:126-160 | the lines within a block are the lines after the first matching opener up to its closer, or nothing when no opener matches |
| Blocks.LinesWithinFrom | src/relinux/configutils.py:126-160 | every line within a block is a line of the buffer |
| Blocks.LinesWithinSkips | src/relinux/configutils.py:126-160 | lines before the first matching opener do not change the result |
| Blocks.BlockBodyStopsAtCloser | src/relinux/configutils.py:133-139 | a closer ends the body, and the lines after it are never read |
| Blocks.HeaderOpens | src/relinux/configutils.py:127 | the opener pattern is unanchored at its end: `Section ab` opens a search for `a`, exactly when the wanted name is a prefix of the written one |
| Blocks.FramedFound | src/relinux/configutils.py:126-160 | a written block is found and its body returned, whatever follows it |
| Blocks.NestFinds | src/relinux/configutils.py:126-160 | in consecutive written blocks with prefix-free names, the search for each name returns that block's body |
| Blocks.LinesWithinNest | src/relinux/configutils.py:126-160 | the same, stated with the layout conditions spelled out |
| Properties.ColonKey | src/relinux/configutils.py:165-170 | a line has a key exactly when a colon comes before its first newline; the key has no colon or newline and starts the unindented line |
| Properties.PropertyValue | src/relinux/configutils.py:176-179 | a value is read only from a line matching the key after spaces, and is stripped of surrounding whitespace |
| Properties.PropertyValueIsRegex | src/relinux/configutils.py:176-179 | a value is found exactly when spaces, the key, spaces and a colon begin the line; the value is the rest of the line after that colon, cut at the first newline and stripped |
| Properties.GetProperty | src/relinux/configutils.py:175-181 | no contract of its own: `Properties.GetPropertyFirstMatch` and `Properties.GetPropertyNoMatch` state its result, with `Properties.PropertyValueIsRegex` for each line |
| Properties.GetPropertyFirstMatch | src/relinux/configutils.py:175-181 | the value comes from the first line that matches the key |
| Properties.GetPropertyNoMatch | src/relinux/configutils.py:175-181 | no matching line gives the empty string |
| Properties.GetProperties | src/relinux/configutils.py:164-171 | the keys are the lines' colon keys without duplicates, in first-seen order; each value is `getProperty` of its key |
| Properties.PropertyOfOwnLine | src/relinux/configutils.py:175-181 | a written `Key: value` line gives back its value |
| Properties.PropertyOfOtherLine | src/relinux/configutils.py:175-181 | a written line of another key gives nothing for this key |
| Properties.ColonKeysOfPropLines | src/relinux/configutils.py:164-171 | the keys read from written property lines are the written keys |
| Properties.PropertiesRoundTrip | src/relinux/configutils.py:164-181 | reading the properties of written property lines gives back the dictionary that was written |
| Document.Rewrite | src/relinux/configutils.py:282-284 | no `Type` is a `KeyError`; a type other than the tag leaves the option alone; the tag without `Value` is a `KeyError`; otherwise only `Value` changes, to the file's base name in the configuration file's directory |
| Document.RewriteRelocates | src/relinux/configutils.py:282-284 | a relocated value lies in the configuration file's directory and keeps the original base name |
| Document.RewriteIdempotent | src/relinux/configutils.py:282-284 | relocating twice is relocating once |
| Document.ParseOptions | src/relinux/configutils.py:279-284 | the options parse exactly when each listed option parses; the keys are the names without duplicates in first-seen order |
| Document.ParseSections | src/relinux/configutils.py:277-284 | the sections parse exactly when each listed section parses; the keys are the names without duplicates in first-seen order |
| Document.ParseWith | src/relinux/configutils.py:275-285 | parsing succeeds exactly when the section names list and each section parses; the keys are the deduplicated section names and each entry is its section's parse |
| Document.SectionRelocated | src/relinux/configutils.py:279-284 | every option of a parsed section whose type is the tag has a `Value` in the configuration file's directory |
| Document.ParsedRelocated | src/relinux/configutils.py:275-285 | the same for every option of every parsed section |
| Paths.BasenameOfJoin | src/relinux/configutils.py:283-284 | joining a directory with a base name and taking the base name gives that name back |
| Paths.DirnameOfJoin | src/relinux/configutils.py:283-284 | the directory of a relocated path is the configuration file's directory |
| Paths.RelocationExample | src/relinux/configutils.py:283-284 | `x/other.img` relocated against `/a/b/conf.txt` is `/a/b/other.img` |
| Writer.CompressParsed | src/relinux/configutils.py:290-300 | no contract of its own: `Writer.CompressParsedLength` gives its length and `RoundTrip.ParseOfCompressParsed` its inverse |
| Writer.CompressParsedLength | src/relinux/configutils.py:290-300 | the buffer has two lines per section, two per option and one per property |
| Writer.OutlineOptions | src/relinux/configutils.py:238-243 | one entry per listed option name, in order and duplicates kept |
| Writer.OutlineSections | src/relinux/configutils.py:234-250 | one entry per listed section name, in order and duplicates kept |
| Writer.Beautify | src/relinux/configutils.py:229-252 | no contract of its own: `Writer.BeautifyLineCount`, `Writer.BeautifyCompresses` and `RoundTrip.BeautifyOfCompressParsed` describe it |
| Writer.BeautifyLineCount | src/relinux/configutils.py:229-252 | `beautify` fails exactly when listing the sections or options fails, and otherwise writes three title lines, six per section, six per option and one per property |
| Writer.BeautifyLength | src/relinux/configutils.py:229-252 | the title and pretty blocks of an outline have three title lines, six lines per section, six per option and one per property |
| Writer.BeautifyCompresses | src/relinux/configutils.py:229-252 | compressing a beautified listing gives back the compressed buffer of the same dictionary |
| RoundTrip.MovedOptions | src/relinux/configutils.py:282-284 | the relocated section keeps its option names and each option is its relocation |
| RoundTrip.MovedDoc | src/relinux/configutils.py:282-284 | the relocated document keeps its section names and relocates each section |
| RoundTrip.ParseOfCompressParsed | src/relinux/configutils.py:275-300 | parsing the compressed buffer of a well-formed document gives the document with its tagged values relocated |
| RoundTrip.ParseOfCompressParsedExact | src/relinux/configutils.py:275-300 | when no option has the tag as its type, parsing the compressed buffer gives the document back |
| RoundTrip.OutlineOfCompressParsed | src/relinux/configutils.py:229-252 | the sections, options and properties `beautify` lists from a compressed buffer are those of the written document |
| RoundTrip.BeautifyOfCompressParsed | src/relinux/configutils.py:229-300 | beautifying a compressed buffer gives the title and the indented blocks of the document, and compressing that gives the buffer back |
| Document.Parse | src/relinux/configutils.py:275-285 | no contract of its own: it is `Document.ParseWith` with the tag set to the configuration file's path, as the code compares; see `Findings.ShadowedFilenameExample` |
| Document.ParseIntended | src/relinux/configutils.py:275-285 | no contract of its own: it is `Document.ParseWith` with the tag `Filename`, the intended comparison; `Document.ParsedRelocated` and `RoundTrip.ParseOfCompressParsed` describe it |
| Findings.ShadowedFilenameExample | src/relinux/configutils.py:282 | as written, a `Filename` option is parsed without relocation; as intended, its value is moved next to the configuration file |
| Decoders.GetValueP | src/relinux/configutils.py:308-312 | nothing exactly when no key equals the property ignoring case; otherwise the value of the first such key |
| Decoders.GetValuePIgnoresCase | src/relinux/configutils.py:308-312 | property names that differ only in case find the same value |
| Decoders.GetValuePOfKey | src/relinux/configutils.py:308-312 | when no two keys differ only in case, the lookup of a present key is the dictionary's own lookup |
| Decoders.GetValue | src/relinux/configutils.py:316-317 | no contract of its own: it is `Decoders.GetValueP` for `Value`, described by `Decoders.GetValueOfOption` and `Decoders.GetValueAnyCase` |
| Decoders.GetValueOfOption | src/relinux/configutils.py:316-317 | `getValue` is the option's `Value` entry |
| Decoders.GetValueAnyCase | src/relinux/configutils.py:316-317 | `value` and `VALUE` find what `getValue` finds |
| Decoders.ParseBoolean | src/relinux/configutils.py:321-328 | the empty string is an `IndexError`, and only it |
| Decoders.ParseBooleanByFirstLetter | src/relinux/configutils.py:321-328 | the answer depends on the first letter only: t/y true, f/n false in either case, anything else none |
| Decoders.ParseBooleanIgnoresRest | src/relinux/configutils.py:321-328 | the letters after the first do not change the answer |
| Decoders.ParseBooleanYes | src/relinux/configutils.py:321-328 | `Yes` and `true` are true |
| Decoders.ParseBooleanNo | src/relinux/configutils.py:321-328 | `No` and `False` are false, `maybe` is none |
| Decoders.ParseMultipleValues | src/relinux/configutils.py:332-333 | one item more than there are spaces |
| Decoders.ParseMultipleValuesLossless | src/relinux/configutils.py:332-333 | joining the items with single spaces gives the value back |
| Decoders.ParseMultipleValuesOfJoin | src/relinux/configutils.py:332-333 | splitting items joined by single spaces gives the items back |
| Decoders.GetChoices | src/relinux/configutils.py:337-347 | a list exactly when the stripped value matches `Choice :`; one item more than there are commas; each item stripped, with no comma or newline |
| Decoders.GetChoicesArePieces | src/relinux/configutils.py:337-347 | the choices are the comma-separated pieces of the captured text, in order, each stripped |
| Decoders.GetChoicesOfWritten | src/relinux/configutils.py:337-347 | `Choice: ` followed by stripped items joined by `, ` gives the items back |
| Decoders.GetChoicesOfBare | src/relinux/configutils.py:337-347 | a bare `Choice:` gives one empty item |
| Decoders.GetChoicesOfOtherType | src/relinux/configutils.py:337-347 | a value of another type gives none |
| Decoders.GetMultipleValues | src/relinux/configutils.py:351-359 | every item is non-empty and holds no whitespace |
| Decoders.GetMultipleValuesOfJoin | src/relinux/configutils.py:351-359 | splitting words joined by spaces gives the words back |
| Decoders.MultipleValuesAgree | src/relinux/configutils.py:332-359 | for words joined by single spaces both decoders give the words |
| Decoders.DoubleSpaceExample | src/relinux/configutils.py:332-359 | the two decoders differ on a double space: `a  b` gives `a`, empty, `b` against `a`, `b` |
| Buffer.GetBuffer | src/relinux/configutils.py:256-265 | the lines before the first empty or missing line, each right-stripped when asked |
| Buffer.GetBufferStopsAt | src/relinux/configutils.py:259-261 | nothing after the first stopping line is read |
| Buffer.GetBufferOfLines | src/relinux/configutils.py:256-265 | non-empty lines read without stripping come back as they are |

## Left out

- `getKernelList`, `_getKernel` and `getKernel` (`src/relinux/configutils.py:185-225`) glob the
  filesystem and run a shell command; they are not modelled.
- `checkMatched` (`src/relinux/configutils.py:59-63`) is folded into the match predicates:
  a successful `re.match` always has a group 0.
- `os.path.abspath(filename)` depends on the current directory. The parser takes the absolute,
  normalised path as the `absPath` parameter; path normalisation is not modelled.
- `config.product` in `beautify` is the `product` parameter.
- The `print` in `getBuffer` is left out, and the file it iterates is a sequence of optional
  lines, `None` standing for the end of the file.
- Python dictionaries are taken in insertion order (Python 3.7 and later).
- Decoders.GetValueP: `lower()` is ASCII only; non-ASCII case pairs are not folded.
- Blocks.LinesWithin, Properties.GetProperty, Properties.GetProperties, Document.ParseWith,
  Writer.GetOutline and Writer.Beautify: names and keys containing regular-expression
  metacharacters are excluded by their requires; the source would splice them into a pattern
  unescaped.
- RoundTrip.BeautifyOfCompressParsed: requires keys that do not start with `#` and do not
  clash with the markers, since such property lines would be read back as comments or blocks.
- RoundTrip.ParseOfCompressParsed: requires well-formed documents (names without spaces
  and prefix-free, keys and values that survive the text round trip); other documents are
  not promised to come back.

## Findings

| source | as written | input that shows it | evidently intended | confidence | as-written member | corrected member |
|---|---|---|---|---|---|---|
| src/relinux/configutils.py:282 | the option's `Type` is compared with the parameter `filename`, the configuration file's path, which shadows the module constant `filename = "Filename"` of line 49 | the file `/a/conf` holding section `s` with option `o` of `Type: Filename` and `Value: x.img` | options of type `Filename` have their value relocated to `/a/x.img` | not executed | Findings.ShadowedFilenameExample (with Document.Parse) | Document.ParseIntended |
