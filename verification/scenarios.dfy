/**
 * Worked examples: a two-field configuration struct, and the doc text made
 * for a field without a comment.
 */
module Scenarios {
  import opened Wrappers
  import opened Seqs
  import opened Classify
  import GoStrings
  import Naming
  import Generate

  /**
   * The source file: one struct declaration, written out in pieces around the
   * two type names. Counting from 1, `string` spans positions 29 to 35 and
   * `int` spans 81 to 84 (end exclusive).
   */
  const BeforeName: string := "type Config struct {\n\tName  "
  const BetweenTypes: string := " `required:\"true\" mapstructure:\"name\"`\n\tCount "
  const AfterCount: string := "    `mapstructure:\"count\"`\n}\n"
  const ConfigSrc: string := BeforeName + "string" + BetweenTypes + "int" + AfterCount

  const NameTag: string := "required:\"true\" mapstructure:\"name\""
  const CountTag: string := "mapstructure:\"count\""

  /**
   * What the example needs of the libraries: the source holds the two type
   * names, the tag parser reads the two tags, and each field name is a single
   * camel-case word.
   */
  predicate ConfigLibraries(env: Env) {
    && env.src == ConfigSrc
    && env.parseTag(NameTag) == Parsed([TagEntry("required", "true", "true"), TagEntry("mapstructure", "name", "name")])
    && env.parseTag(CountTag) == Parsed([TagEntry("mapstructure", "count", "count")])
    && env.splitCamel("Name") == ["Name"]
    && env.splitCamel("Count") == ["Count"]
  }

  /** `Name string` tagged required and `Count int` tagged only with mapstructure, neither with a comment. */
  function ConfigFields(): seq<Field> {
    [ Field(["Name"], Some("`" + NameTag + "`"), None, 29, 35),
      Field(["Count"], Some("`" + CountTag + "`"), None, 81, 84) ]
  }

  /** The declaration `type Config struct { … }`. */
  function ConfigDecl(): Generate.Decl {
    Generate.GenDecl([Generate.TypeSpec("Config", Generate.StructType(ConfigFields()))])
  }

  /** The record the example promises. */
  function ConfigRecord(sourcePath: string): Struct {
    Struct(sourcePath, "Config", [Doc("name", "string", "Name")], [Doc("count", "int", "Count")])
  }

  /** The `Name` field is documented as required under its mapstructure key `name`. */
  lemma NameFieldRequired(env: Env)
    requires ConfigLibraries(env)
    ensures WellFormed(env, ConfigFields()[0])
    ensures Judge(env, ConfigFields()[0]) == Documented(Doc("name", "string", "Name"), true)
  {
    var f := ConfigFields()[0];
    assert Naming.StripTag(f.tag.value) == NameTag;
    Middle(BeforeName, "string", BetweenTypes + "int" + AfterCount);
    assert ConfigSrc == BeforeName + "string" + (BetweenTypes + "int" + AfterCount);
  }

  /** The `Count` field, whose tag has no required entry, is documented as not required. */
  lemma CountFieldNotRequired(env: Env)
    requires ConfigLibraries(env)
    ensures WellFormed(env, ConfigFields()[1])
    ensures Judge(env, ConfigFields()[1]) == Documented(Doc("count", "int", "Count"), false)
  {
    var f := ConfigFields()[1];
    assert Naming.StripTag(f.tag.value) == CountTag;
    Middle(BeforeName + "string" + BetweenTypes, "int", AfterCount);
  }

  /** The verdicts of the two fields, in order. */
  lemma ConfigVerdicts(env: Env)
    requires ConfigLibraries(env)
    ensures forall i :: 0 <= i < |ConfigFields()| ==> WellFormed(env, ConfigFields()[i])
    ensures Verdicts(env, ConfigFields())
      == [Documented(Doc("name", "string", "Name"), true), Documented(Doc("count", "int", "Count"), false)]
  {
    var fields := ConfigFields();
    NameFieldRequired(env);
    CountFieldNotRequired(env);
    VerdictsSnoc(env, fields, 0);
    VerdictsSnoc(env, fields, 1);
    assert fields[..0] == [] && fields[..2] == fields;
  }

  /**
   * The required field lands in the required list and the other one in the
   * not-required list, each named by its mapstructure key, typed by its source
   * text, and documented by its own name.
   */
  lemma ConfigScenario(env: Env, sourcePath: string)
    requires ConfigLibraries(env)
    ensures forall i :: 0 <= i < |ConfigFields()| ==> WellFormed(env, ConfigFields()[i])
    ensures Classified(env, sourcePath, "Config", ConfigFields()) == Success(ConfigRecord(sourcePath))
  {
    ConfigVerdicts(env);
    var v0 := Documented(Doc("name", "string", "Name"), true);
    var v1 := Documented(Doc("count", "int", "Count"), false);
    assert FirstWhere([v0, v1], IsRejected).None?;
    SelectedPair(v0.doc, v1.doc);
  }

  /** The declaration emits its record to `<root>website/data/<builder>-Config.yml`. */
  lemma ConfigEmitted(env: Env, loc: Naming.Location)
    requires ConfigLibraries(env)
    ensures Generate.DeclWellFormed(env, ConfigDecl())
    ensures Generate.DeclStep(env, loc, ConfigDecl())
      == Generate.Emit(Generate.Emission(Naming.OutputPath(loc.packerDir, loc.builderName, "Config"), ConfigRecord(loc.sourcePath)))
  {
    ConfigScenario(env, loc.sourcePath);
  }

  /**
   * A run over a file holding only that declaration, at a path with the
   * project-root marker, writes that one record and ends without error.
   */
  lemma ConfigRun(env: Env, absPath: string)
    requires ConfigLibraries(env)
    requires Naming.Locate(absPath).Some?
    ensures Generate.AllWellFormed(env, [ConfigDecl()])
    ensures var loc := Naming.Locate(absPath).value;
      Generate.Generated(env, absPath, [ConfigDecl()])
      == Generate.Run([Generate.Emission(Naming.OutputPath(loc.packerDir, loc.builderName, "Config"), ConfigRecord(loc.sourcePath))], None)
  {
    var loc := Naming.Locate(absPath).value;
    var decls := [ConfigDecl()];
    ConfigEmitted(env, loc);
    Generate.StepsSnoc(env, loc, decls, 0);
    assert decls[..0] == [] && decls[..1] == decls;
    Generate.WalkSnoc([], Generate.DeclStep(env, loc, ConfigDecl()));
    assert [] + [Generate.DeclStep(env, loc, ConfigDecl())] == Generate.Steps(env, loc, decls);
  }

  /** The middle piece of a text made of three pieces. */
  lemma Middle(a: string, b: string, c: string)
    ensures (a + b + c)[|a|..|a| + |b|] == b
  {
    assert forall k :: 0 <= k < |b| ==> (a + b + c)[|a| + k] == b[k];
  }

  /** A required record followed by a not-required one go one to each list. */
  lemma SelectedPair(d0: Doc, d1: Doc)
    ensures Selected([Documented(d0, true), Documented(d1, false)], true) == [d0]
    ensures Selected([Documented(d0, true), Documented(d1, false)], false) == [d1]
  {
    var v0 := Documented(d0, true);
    var v1 := Documented(d1, false);
    assert [] + [v0] == [v0] && [v0] + [v1] == [v0, v1];
    FilterMapSnoc([], v0, Pick(true));
    FilterMapSnoc([v0], v1, Pick(true));
    FilterMapSnoc([], v0, Pick(false));
    FilterMapSnoc([v0], v1, Pick(false));
  }

  /** Without a comment, a field named MaxRetryCount is documented as "Max Retry Count". */
  lemma FallbackDoc(env: Env, f: Field)
    requires f.names == ["MaxRetryCount"] && f.doc.None?
    requires env.splitCamel("MaxRetryCount") == ["Max", "Retry", "Count"]
    ensures DocsOf(env, f) == "Max Retry Count"
  {
    var words: seq<string> := ["Max", "Retry", "Count"];
    assert words[1..] == ["Retry", "Count"] && words[1..][1..] == ["Count"];
    assert GoStrings.Join(words[1..], " ") == "Retry Count";
  }
}
