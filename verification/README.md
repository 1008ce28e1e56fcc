# struct-markdown, modelled in Dafny

`struct-markdown` is a code-generation helper of the Packer build tool. It is
run on one Go source file of a builder and writes one YAML file per
configuration struct it finds. Each file lists the struct's documented fields in
two lists, `required` and `not_required`, in declaration order. The website
uses these files to render builder documentation.

The tool works in two stages, and the model has a module for each.

- **Naming** (`naming.dfy`, on top of `gostrings.dfy`). The absolute input path
  is cut after every occurrence of the project-root marker `packer/`
  (`strings.SplitAfter`). The first piece is the project root. The second piece
  is the recorded source path. The builder name is the source path's directory,
  without its trailing separator and with the remaining separators turned into
  dashes. A record goes to `<root>website/data/<builder>-<Struct>.yml`.
- **Classification** (`classify.dfy`, `generate.dfy`). The tool loops over the
  top-level declarations. For the first specification of each declaration
  group that declares a struct type, it loops over the fields:
  - A field without names or without a tag is skipped.
  - The tag literal loses its first and last character (normally the back
    quotes) and is parsed. A parse error stops the run.
  - A field whose tag has no `mapstructure` entry is skipped.
  - Any other field becomes a record: the `mapstructure` name, the source text
    of the field's type, and the doc comment (or else the first name's
    camel-case words joined by spaces).
  - The record goes to `required` exactly when the tag's `required` entry has
    the value `true`.

  A struct with no records is not written.

The field loop (`Classify.ClassifyFields`) and the declaration loop
(`Generate.GenerateDocs`) are imperative methods. Each is proved equal to a
declarative specification: `Classify.Classified` and `Generate.Generated`. The
properties the tool promises are proved about those specifications in
`ClassifyProperties` and `GenerateProperties`.

The declaration loop is specified in two parts. First, each declaration's fate
(`Step`: pass, abort, or emit a record to a path) is computed on its own. Then
`Walk` runs the loop over those fates: records are appended in order, and the
first abort ends the run.

Errors end the Go process: a panic on an out-of-range index, or `os.Exit(1)`
after a message. The model makes them values (`Classify.Error`). A run's result
(`Generate.Run`) holds the records written before the error, because files
already written stay on disk.

The tag parser (`structtag.Parse`) and the camel-case splitter
(`camelcase.Split`) are libraries whose code is not part of this model. They are
the function-valued fields `parseTag` and `splitCamel` of `Classify.Env`. Every
property in `ClassifyProperties` and `GenerateProperties` holds for any
behaviour of them. The worked examples in `scenarios.dfy` fix what the parser
returns for their two tags and what the splitter returns for their field names
(`Scenarios.ConfigLibraries`, and the splitter's words in
`Scenarios.FallbackDoc`). The file's bytes are the field `src`.

`scenarios.dfy` works two examples through the model:
- A file declaring a `Config` struct with a required `Name` field and an
  optional `Count` field. The field types are read from the declaration's own
  text at their byte positions. Given that the tag parser reads the two tags
  as `(required, true)` with `(mapstructure, name)` and as
  `(mapstructure, count)`, and that the splitter leaves `Name` and `Count`
  whole, the run writes the one promised record to
  `<root>website/data/<builder>-Config.yml`.
- The fallback doc text of a field named `MaxRetryCount`, given that the
  splitter cuts that name into `Max`, `Retry` and `Count`.

## Model

| member | source | states |
|---|---|---|
| GoStrings.Index | cmd/struct-markdown/main.go:46 | the first position at which the separator occurs, or none when it occurs nowhere |
| GoStrings.SplitAfter | cmd/struct-markdown/main.go:46 | `strings.SplitAfter` always yields at least one piece |
| GoStrings.SplitAfterConcat | cmd/struct-markdown/main.go:46 | the pieces of `SplitAfter` concatenate back to the input |
| GoStrings.SplitAfterCount | cmd/struct-markdown/main.go:46 | there is a second piece exactly when the separator occurs in the input |
| GoStrings.SplitAfterPiece | cmd/struct-markdown/main.go:46 | every piece but the last ends with the separator, and that is its first occurrence in the piece |
| GoStrings.SplitAfterLast | cmd/struct-markdown/main.go:46 | the last piece holds no separator |
| GoStrings.LastIndexOf | cmd/struct-markdown/main.go:48 | the position of the last occurrence of a character, or none when it does not occur |
| GoStrings.FilepathSplit | cmd/struct-markdown/main.go:48 | `filepath.Split` cuts a path into a directory part, empty or ending in a separator, and a file part with no separator, which concatenate back to the path |
| GoStrings.FilepathSplitUnique | cmd/struct-markdown/main.go:48 | any split with those three properties is the result of `filepath.Split` |
| GoStrings.TrimSuffix | cmd/struct-markdown/main.go:49 | `strings.TrimSuffix` removes the suffix when the text ends with it and otherwise returns the text unchanged |
| GoStrings.Split | cmd/struct-markdown/main.go:50 | `strings.Split` on a one-character separator always yields at least one piece |
| GoStrings.Join | cmd/struct-markdown/main.go:112 | definition: the parts with the separator between each two consecutive ones; no parts give "" and one part gives itself |
| GoStrings.JoinShape | cmd/struct-markdown/main.go:112 | the joined text is empty for no parts; otherwise it starts with the first part, ends with the last, and is as long as all parts together plus one separator per gap |
| GoStrings.JoinSplit | cmd/struct-markdown/main.go:50 | joining the pieces of a split with a dash replaces every separator with a dash and changes nothing else |
| Naming.Locate | cmd/struct-markdown/main.go:46-50 | the root, source path and builder name derived from the path; the builder name never holds a separator |
| Naming.LocateParts | cmd/struct-markdown/main.go:46-50 | a location exists iff the marker occurs; the root ends at the first marker; the source path follows it and runs to the second marker or, if there is none, to the end of the path; the builder name is the one derived from that source path |
| Naming.BuilderName | cmd/struct-markdown/main.go:48-50 | the builder name never holds a separator |
| Naming.BuilderNameSpec | cmd/struct-markdown/main.go:48-50 | the builder name is empty for a source path without a directory; otherwise it is the path before its last separator, with each separator turned into a dash |
| Naming.OutputFileName | cmd/struct-markdown/main.go:130 | the file name is the builder name, a dash, the struct name and `.yml`: its length, its builder-name prefix, the dash, the struct name between the dash and the `.yml` ending |
| Naming.OutputPath | cmd/struct-markdown/main.go:130 | the output path starts with the project root and ends in `.yml` |
| Naming.OutputPathSplits | cmd/struct-markdown/main.go:130 | the output path splits into `<root>website/data/` and the file `<builder>-<Struct>.yml`, which ends in `.yml` |
| Naming.OutputFileNameInjective | cmd/struct-markdown/main.go:130 | two structs of one builder with different names get different output files |
| Naming.StripTag | cmd/struct-markdown/main.go:89-90 | the stripped tag is two characters shorter, and the raw literal is that text between its first and last character |
| Naming.StripTagQuoted | cmd/struct-markdown/main.go:89-90 | stripping a back-quoted text gives the text back |
| Naming.TypeText | cmd/struct-markdown/main.go:117 | the type text is exactly the bytes between the 1-based type positions, and the file is that text with the bytes around it |
| Classify.Doc | cmd/struct-markdown/main.go:19-23 | definition: one documented field's record, with its serialization name, its type as written in the source, and its documentation text |
| Classify.Struct | cmd/struct-markdown/main.go:25-30 | definition: the record written for one struct, with its recorded source path, its name, and its required and not-required field records in source order |
| Classify.Lookup | cmd/struct-markdown/main.go:98-104 | `tags.Get` finds nothing exactly when no entry has the key; otherwise it finds the first entry with the key |
| Classify.MarkedRequired | cmd/struct-markdown/main.go:97-100 | definition: the tag's first `required` entry exists and its value is exactly `true` |
| Classify.Included | cmd/struct-markdown/main.go:86-105 | definition: the field has a name and a tag, the tag parses, and it has a `mapstructure` entry |
| Classify.TagMalformed | cmd/struct-markdown/main.go:86-95 | definition: the field has a name and a tag, and the tag does not parse |
| Classify.DocsOf | cmd/struct-markdown/main.go:108-113 | definition: the doc comment's text, or else the camel-case words of the first name joined by single spaces |
| Classify.Judge | cmd/struct-markdown/main.go:86-119 | a field is documented iff it has a name, a tag that parses and a `mapstructure` entry; it is rejected iff it has a name and a tag that does not parse; a documented field is required iff its `required` entry's value is `true` |
| Classify.Verdicts | cmd/struct-markdown/main.go:85 | one verdict per field |
| Classify.VerdictAt | cmd/struct-markdown/main.go:85 | the i-th verdict is the verdict on the i-th field |
| Classify.VerdictsAll | cmd/struct-markdown/main.go:85 | every verdict is the verdict on its own field |
| Classify.Classified | cmd/struct-markdown/main.go:85-125 | specification of the field loop: the error of the first rejected field, which is always a malformed tag; otherwise the record of the struct's own name and source path, with the required and not-required records of the documented fields in field order |
| Classify.ClassifyFields | cmd/struct-markdown/main.go:85-125 | the field loop returns the first malformed tag's error, or else the required and not-required records of the documented fields, each list in field order |
| ClassifyProperties.AbortsOnFirstMalformedTag | cmd/struct-markdown/main.go:86-95 | classification fails iff some named, tagged field has a tag that does not parse; the error names the first such field's tag |
| ClassifyProperties.AbortIgnoresLaterFields | cmd/struct-markdown/main.go:91-95 | once a tag fails to parse, fields after it cannot change the outcome |
| ClassifyProperties.Partition | cmd/struct-markdown/main.go:86-124 | a field is in the required list iff it is included and marked required, and in the other list iff it is included and not marked; a field without names or tag is in neither |
| ClassifyProperties.SourceOrder | cmd/struct-markdown/main.go:120-124 | the k-th record of each list is the record of the k-th field placed there, and those field indices strictly increase |
| ClassifyProperties.Membership | cmd/struct-markdown/main.go:120-124 | a record is in the required list iff some field is documented as required with exactly that record, and likewise for the other list |
| ClassifyProperties.ListsCountIncluded | cmd/struct-markdown/main.go:86-124 | the two lists together hold one record per included field, counted as the strictly increasing list of exactly the included fields' indices |
| ClassifyProperties.EmptyIffNoneIncluded | cmd/struct-markdown/main.go:126-128 | both lists are empty iff no field is included |
| ClassifyProperties.DocumentedRecord | cmd/struct-markdown/main.go:106-119 | a record carries the `mapstructure` name, the field's type text, and the doc comment or else the first name's camel-case words joined by single spaces |
| Generate.StructOf | cmd/struct-markdown/main.go:66-77 | definition: the name and fields of the struct type declared by a declaration group's first specification, and nothing for a function, an empty group, a non-type specification or a non-struct type |
| Generate.DeclStep | cmd/struct-markdown/main.go:66-130 | definition: one declaration's fate; its properties are `Generate.StepFacts` |
| Generate.Walk | cmd/struct-markdown/main.go:65-143 | specification of the declaration loop over the fates: writes at most one record per declaration; its result is characterised by `GenerateProperties.WalkStopsAtFirstAbort` |
| Generate.Generated | cmd/struct-markdown/main.go:46-143 | specification of the run: no marker ends it with nothing written; otherwise it is the walk over the declarations' fates |
| Generate.Steps | cmd/struct-markdown/main.go:65 | one fate per declaration |
| Generate.ProcessDecl | cmd/struct-markdown/main.go:66-130 | one declaration: pass over non-type declarations, non-struct types and structs with no records; abort on an empty declaration group or a malformed tag; otherwise emit the record to its output path |
| Generate.StepFacts | cmd/struct-markdown/main.go:66-130 | an emitted record is exactly the struct's classification, carries the struct's name and the recorded source path, holds a field, and goes to the struct's output path; a struct with an included field and no malformed tag is emitted; a declaration aborts iff its group is empty or its struct has a malformed tag, and its error is then `EmptyGenDecl` or the classification's `BadTag` |
| Generate.GenerateDocs | cmd/struct-markdown/main.go:46-143 | the whole run: no marker stops it before anything is written; otherwise declarations are processed in order and the first abort ends the run, keeping the records already written |
| GenerateProperties.WalkStopsAtFirstAbort | cmd/struct-markdown/main.go:65-143 | the run writes the records of the declarations before the first abort, in order, and ends with that abort's error; with no abort it writes all records and ends without error |
| GenerateProperties.StepsAt | cmd/struct-markdown/main.go:65 | the i-th fate is that of the i-th declaration |
| GenerateProperties.WalkWritesEmits | cmd/struct-markdown/main.go:130-138 | every written record is the emission of some declaration |
| GenerateProperties.WrittenRecords | cmd/struct-markdown/main.go:80-130 | every written record is the classification of a struct declared in the file under that name, carries the recorded source path, holds at least one field, and goes to `<root>website/data/<builder>-<Struct>.yml` |
| GenerateProperties.NoMarkerWritesNothing | cmd/struct-markdown/main.go:46-48 | a path without the marker writes nothing and stops the run |
| GenerateProperties.StepsAppend | cmd/struct-markdown/main.go:65 | the fates of two runs of declarations, one after the other, are the two runs' fates concatenated |
| GenerateProperties.AbortIgnoresLaterDecls | cmd/struct-markdown/main.go:91-95 | once a declaration has stopped the run, declarations after it change nothing |
| GenerateProperties.UndocumentedStructWritesNothing | cmd/struct-markdown/main.go:126-128 | a struct with no included field and no malformed tag is passed over |
| Scenarios.NameFieldRequired | cmd/struct-markdown/main.go:97-119 | a `Name string` field tagged `required:"true" mapstructure:"name"` is documented as required with record (name, string, Name) |
| Scenarios.CountFieldNotRequired | cmd/struct-markdown/main.go:97-119 | a `Count int` field tagged `mapstructure:"count"` is documented as not required with record (count, int, Count) |
| Scenarios.ConfigVerdicts | cmd/struct-markdown/main.go:85-119 | the two fields' verdicts, in order |
| Scenarios.ConfigScenario | cmd/struct-markdown/main.go:85-125 | the `Config` struct has (name, string, Name) as its only required record and (count, int, Count) as its only not-required record |
| Scenarios.ConfigEmitted | cmd/struct-markdown/main.go:65-130 | the `Config` declaration emits that record to `<root>website/data/<builder>-Config.yml` |
| Scenarios.ConfigRun | cmd/struct-markdown/main.go:46-143 | a run over a file holding only that declaration, at a path with the marker, writes exactly that record to that file and ends without error |
| Scenarios.FallbackDoc | cmd/struct-markdown/main.go:112 | a field `MaxRetryCount` without a comment is documented as "Max Retry Count" when the splitter gives its three words |

## Left out

- Input resolution is not modelled: the command-line argument, the `GOFILE` environment fallback and `filepath.Abs`. The run starts from the absolute path.
- Reading the file is not modelled. An unreadable file (`ioutil.ReadFile`) is I/O. The file's bytes are `Env.src`.
- Parsing the file is not modelled. `go/parser` and its parse errors are a library. Declarations, specifications and fields are input datatypes that hold what the parser would give: names, raw tag literal, comment text and type positions.
- Output is not modelled beyond the emitted record and its path. Writing the file is I/O: `os.Create` and its panic, the deferred `Close`, and YAML encoding with its errors.
- `structtag.Parse` and `camelcase.Split` are not part of this model. They are arbitrary functions in `Classify.Env`. A parsed tag is a list of entries (key, name, value), where the value is what `Tag.Value()` returns. How that value is built from the name and options is not modelled.
- `field.Doc.Text()` is not modelled. The comment group's text is an input, and the absence of a comment is `None`.
- Classify.WellFormed: what the parser guarantees is taken as a precondition rather than an error path. Every tag literal has its two delimiters, and every type span lies within the file. Positions count from 1, as `token.Pos` does for the first file of a file set.
- Bytes of the source file are modelled as characters. No encoding is involved.
- The path separator is `/`. Windows paths and their separator are not modelled.
- Naming.OutputPath: `filepath.Join` is modelled as plain concatenation, without the `Clean` step. The project root comes from an absolute, already-cleaned path and ends in a separator, and the file name holds none. So cleaning only drops the doubled separator, which the concatenation never writes.
- One might expect the project root to end at the only occurrence of the marker. The code splits after every occurrence, so with two markers the recorded source path ends at the second one. The model follows the code (`Naming.LocateParts` states it).
- The code also panics, and the model stops the run, in two cases:
  - A path without the marker indexes a missing piece.
  - An empty declaration group, such as `import ()`, indexes a missing first specification.
- The code examines only the first specification of a declaration group, so in `type ( A struct{…}; B struct{…} )` only `A` is documented. The model follows the code (`Generate.StructOf`).
- The code takes the doc fallback from the field's first name only. The model follows the code (`Classify.DocsOf`).
- The code checks for a field's names before it parses the tag. A malformed tag on an embedded field is therefore skipped and does not stop the run. The model follows the code (`Classify.Judge`).
