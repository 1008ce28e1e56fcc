/**
 * Where the tool writes its output and the small slices it takes of the
 * source text: the split of the absolute input path at the project-root
 * marker, the builder name, the output file path, the tag literal without
 * its delimiters, and the source text of a field's type.
 */
module Naming {
  import opened Wrappers
  import opened GoStrings

  /** The project-root marker: the directory name "packer" followed by a separator. */
  const Marker: string := "packer" + [Separator]

  /** The output directory below the project root. */
  const OutputDir: string := "website/data"

  /** What the tool derives from the absolute input path. */
  datatype Location = Location(packerDir: string, sourcePath: string, builderName: string)

  /**
   * Splits the absolute path after every occurrence of the marker; the project
   * root is the first piece and the recorded source path the second. Without
   * the marker there is no second piece, and the tool panics.
   */
  function Locate(absPath: string): (r: Option<Location>)
    ensures r.Some? ==> Separator !in r.value.builderName
  {
    var paths := SplitAfter(absPath, Marker);
    if |paths| < 2 then None
    else Some(Location(paths[0], paths[1], BuilderName(paths[1])))
  }

  /**
   * The project root runs up to and including the first occurrence of the
   * marker, the source path follows it directly and runs up to and including
   * the second occurrence, or to the end of the path when there is none.
   */
  lemma LocateParts(absPath: string)
    ensures Locate(absPath).Some? <==> Index(absPath, Marker).Some?
    ensures Locate(absPath).Some? ==>
      && EndsWithFirst(Locate(absPath).value.packerDir, Marker)
      && Locate(absPath).value.packerDir + Locate(absPath).value.sourcePath <= absPath
    ensures Locate(absPath).Some? ==>
      var sp := Locate(absPath).value.sourcePath;
      EndsWithFirst(sp, Marker) || (Index(sp, Marker).None? && Locate(absPath).value.packerDir + sp == absPath)
    ensures Locate(absPath).Some? ==>
      Locate(absPath).value.builderName == BuilderName(Locate(absPath).value.sourcePath)
  {
    var paths := SplitAfter(absPath, Marker);
    SplitAfterConcat(absPath, Marker);
    SplitAfterCount(absPath, Marker);
    SplitAfterLast(absPath, Marker);
    if |paths| >= 2 {
      SplitAfterPiece(absPath, Marker, 0);
      if |paths| > 2 {
        SplitAfterPiece(absPath, Marker, 1);
      }
      ConcatPrefix(paths);
      if |paths| == 2 {
        assert paths[1..][1..] == [];
        assert Concat(paths[1..]) == paths[1];
      }
    }
  }

  lemma {:induction false} ConcatPrefix(pieces: seq<string>)
    requires |pieces| >= 2
    ensures pieces[0] + pieces[1] <= Concat(pieces)
  {
    var tail := pieces[1..];
    assert tail[0] == pieces[1] && tail[1..] == pieces[2..];
    assert Concat(tail) == pieces[1] + Concat(pieces[2..]);
    var head := pieces[0] + pieces[1];
    var all := head + Concat(pieces[2..]);
    assert Concat(pieces) == all;
    assert all[..|head|] == head;
  }

  /**
   * The directory part of the source path, without its trailing separator,
   * with the remaining separators turned into dashes.
   */
  function BuilderName(sourcePath: string): (r: string)
    ensures Separator !in r
  {
    var (dir, _) := FilepathSplit(sourcePath);
    var name := Join(Split(TrimSuffix(dir, [Separator]), Separator), "-");
    JoinSplit(TrimSuffix(dir, [Separator]), Separator, '-');
    name
  }

  /** '/' becomes '-', any other character stays. */
  function Dash(c: char): char {
    if c == Separator then '-' else c
  }

  /**
   * The builder name is empty when the source path has no separator; otherwise
   * it is the source path up to its last separator, with every separator
   * replaced by a dash.
   */
  lemma BuilderNameSpec(sourcePath: string)
    ensures Separator !in sourcePath ==> BuilderName(sourcePath) == ""
    ensures Separator in sourcePath ==>
      var r := BuilderName(sourcePath);
      |r| < |sourcePath| && sourcePath[|r|] == Separator && Separator !in sourcePath[|r| + 1..]
      && forall k :: 0 <= k < |r| ==> r[k] == Dash(sourcePath[k])
  {
    var (dir, file) := FilepathSplit(sourcePath);
    var trimmed := TrimSuffix(dir, [Separator]);
    JoinSplit(trimmed, Separator, '-');
    if Separator in sourcePath {
      assert dir != "";
      assert dir[|dir| - 1..] == [Separator];
      assert trimmed == dir[..|dir| - 1];
      assert sourcePath[|trimmed|] == dir[|dir| - 1];
      assert sourcePath[|trimmed| + 1..] == file;
    } else {
      assert dir == "";
    }
  }

  /** The name of the output file for a struct. */
  function OutputFileName(builderName: string, structName: string): (r: string)
    ensures |r| == |builderName| + |structName| + 5
    ensures r[..|builderName|] == builderName && r[|builderName|] == '-'
    ensures r[|builderName| + 1..|r| - 4] == structName
    ensures EndsWithYml(r)
  {
    builderName + "-" + structName + ".yml"
  }

  /**
   * The output path: the output directory below the project root, joined with
   * the file name. The project root already ends with a separator, so
   * filepath.Join's cleaning only drops the doubled separator.
   */
  function OutputPath(packerDir: string, builderName: string, structName: string): (r: string)
    ensures |r| > |packerDir| && r[..|packerDir|] == packerDir
    ensures EndsWithYml(r)
  {
    packerDir + OutputDir + [Separator] + OutputFileName(builderName, structName)
  }

  /**
   * The output path splits back into the output directory below the project
   * root and the file name, since neither the builder name nor a struct name
   * holds a separator.
   */
  lemma OutputPathSplits(packerDir: string, builderName: string, structName: string)
    requires Separator !in builderName && Separator !in structName
    ensures FilepathSplit(OutputPath(packerDir, builderName, structName))
      == (packerDir + OutputDir + [Separator], OutputFileName(builderName, structName))
    ensures EndsWithYml(OutputFileName(builderName, structName))
  {
    var dir := packerDir + OutputDir + [Separator];
    var file := OutputFileName(builderName, structName);
    assert Separator !in file by {
      assert file == builderName + ("-" + structName + ".yml");
      assert "-" + structName + ".yml" == ['-'] + structName + ".yml";
    }
    assert dir[|dir| - 1] == Separator;
    FilepathSplitUnique(dir + file, dir, file);
  }

  predicate EndsWithYml(file: string) {
    |file| >= 4 && file[|file| - 4..] == ".yml"
  }

  /** Different structs of one file get different output files. */
  lemma OutputFileNameInjective(builderName: string, name1: string, name2: string)
    requires OutputFileName(builderName, name1) == OutputFileName(builderName, name2)
    ensures name1 == name2
  {
    var f1 := OutputFileName(builderName, name1);
    var f2 := OutputFileName(builderName, name2);
    assert f1[|builderName| + 1..|f1| - 4] == name1;
    assert f2[|builderName| + 1..|f2| - 4] == name2;
  }

  /**
   * The tag literal without its first and last character, whatever they are
   * (normally the back quotes; a double-quoted literal loses its quotes and is
   * not unquoted): two characters shorter, and the literal is that text
   * between its delimiters.
   */
  function StripTag(raw: string): (r: string)
    requires |raw| >= 2
    ensures |r| == |raw| - 2
    ensures raw == [raw[0]] + r + [raw[|raw| - 1]]
  {
    var tag := raw[1..];
    tag[..|tag| - 1]
  }

  /** Stripping a quoted text gives the text back. */
  lemma StripTagQuoted(text: string, quote: char)
    ensures StripTag([quote] + text + [quote]) == text
  {
    var raw := [quote] + text + [quote];
    assert raw == [raw[0]] + StripTag(raw) + [raw[|raw| - 1]];
    assert raw[1..|raw| - 1] == text;
  }

  /**
   * The source text of a field's type, from its 1-based start position up to
   * its 1-based end position: exactly the bytes between the two, the rest of
   * the file around them.
   */
  function TypeText(src: string, pos: nat, end: nat): (r: string)
    requires 1 <= pos <= end <= |src| + 1
    ensures |r| == end - pos
    ensures src[..pos - 1] + r + src[end - 1..] == src
  {
    src[pos - 1..end - 1]
  }
}
