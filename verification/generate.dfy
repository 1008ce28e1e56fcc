/**
 * The declaration loop of the tool: for every top-level declaration of the
 * file, find a struct type, classify its fields, and write a record for it
 * unless it documents nothing. A missing project-root marker, an empty
 * declaration group or a malformed tag stops the run; records written before
 * that stay written.
 */
module Generate {
  import opened Wrappers
  import opened Seqs
  import opened Classify
  import opened Naming
  import ClassifyProperties

  /** The type of a type declaration: a struct with its fields, or anything else. */
  datatype TypeExpr = StructType(fields: seq<Field>) | OtherType

  /** One specification of a declaration group: a named type, or an import, constant or variable. */
  datatype Spec = TypeSpec(name: string, typ: TypeExpr) | OtherSpec

  /** A top-level declaration: a group of specifications, or a function. */
  datatype Decl = GenDecl(specs: seq<Spec>) | FuncDecl

  /** A record and the file it is written to. */
  datatype Emission = Emission(path: string, record: Struct)

  /** Everything one run does: the records it writes, in order, and the error that stopped it, if any. */
  datatype Run = Run(written: seq<Emission>, error: Option<Error>)

  /** What becomes of one declaration. */
  datatype Step = Pass | Abort(error: Error) | Emit(emission: Emission)

  /** The struct type that the declaration's first specification declares, if it declares one. */
  function StructOf(d: Decl): Option<(string, seq<Field>)> {
    if d.GenDecl? && |d.specs| > 0 && d.specs[0].TypeSpec? && d.specs[0].typ.StructType?
    then Some((d.specs[0].name, d.specs[0].typ.fields))
    else None
  }

  /** What the parser guarantees about every field of every struct the loop examines. */
  predicate DeclWellFormed(env: Env, d: Decl) {
    StructOf(d).Some? ==> forall i :: 0 <= i < |StructOf(d).value.1| ==> WellFormed(env, StructOf(d).value.1[i])
  }

  predicate AllWellFormed(env: Env, decls: seq<Decl>) {
    forall i :: 0 <= i < |decls| ==> DeclWellFormed(env, decls[i])
  }

  /**
   * One iteration of the declaration loop: only the first specification of a
   * group is looked at (a group without any panics), only a struct type is
   * classified, and a struct that documents nothing is passed over.
   */
  function DeclStep(env: Env, loc: Location, d: Decl): Step
    requires DeclWellFormed(env, d)
  {
    match d
    case FuncDecl => Pass
    case GenDecl(specs) =>
      if |specs| == 0 then Abort(EmptyGenDecl)
      else match specs[0]
        case OtherSpec => Pass
        case TypeSpec(name, typ) =>
          match typ
          case OtherType => Pass
          case StructType(fields) =>
            match Classified(env, loc.sourcePath, name, fields)
            case Failure(e) => Abort(e)
            case Success(str) =>
              if |str.required| == 0 && |str.notRequired| == 0 then Pass
              else Emit(Emission(OutputPath(loc.packerDir, loc.builderName, name), str))
  }

  /** The fate of each declaration, in order. */
  function Steps(env: Env, loc: Location, decls: seq<Decl>): (steps: seq<Step>)
    requires AllWellFormed(env, decls)
    ensures |steps| == |decls|
    decreases |decls|
  {
    if |decls| == 0 then []
    else Steps(env, loc, decls[..|decls| - 1]) + [DeclStep(env, loc, decls[|decls| - 1])]
  }

  /**
   * The declaration loop over the fates of the declarations: each record is
   * appended as its declaration is reached, and the first abort ends the walk.
   */
  function Walk(steps: seq<Step>): (r: Run)
    ensures |r.written| <= |steps|
  {
    if |steps| == 0 then Run([], None)
    else
      var before := Walk(steps[..|steps| - 1]);
      if before.error.Some? then before
      else match steps[|steps| - 1]
        case Pass => before
        case Abort(e) => Run(before.written, Some(e))
        case Emit(emission) => Run(before.written + [emission], None)
  }

  /**
   * The run: no marker in the absolute path stops it before anything is
   * written; otherwise the declarations are walked in order.
   */
  function Generated(env: Env, absPath: string, decls: seq<Decl>): Run
    requires AllWellFormed(env, decls)
  {
    match Locate(absPath)
    case None => Run([], Some(NoMarker))
    case Some(loc) => Walk(Steps(env, loc, decls))
  }

  /**
   * The tool's main loop: derives the output location from the absolute path,
   * then walks the declarations, classifying each struct's fields and writing
   * its record when it documents something.
   */
  method GenerateDocs(env: Env, absPath: string, decls: seq<Decl>) returns (run: Run)
    requires AllWellFormed(env, decls)
    ensures run == Generated(env, absPath, decls)
  {
    var located := Locate(absPath);
    if located.None? {
      return Run([], Some(NoMarker));
    }
    var loc := located.value;
    ghost var steps: seq<Step> := [];
    var written: seq<Emission> := [];
    var i := 0;
    while i < |decls|
      invariant 0 <= i <= |decls|
      invariant steps == Steps(env, loc, decls[..i])
      invariant Walk(steps) == Run(written, None)
    {
      var step := ProcessDecl(env, loc, decls[i]);
      StepsSnoc(env, loc, decls, i);
      WalkSnoc(steps, step);
      steps := steps + [step];
      match step {
        case Pass =>
        case Abort(e) =>
          WalkStops(steps, Steps(env, loc, decls)[i + 1..]);
          StepsSplit(env, loc, decls, i + 1);
          return Run(written, Some(e));
        case Emit(emission) =>
          written := written + [emission];
      }
      i := i + 1;
    }
    assert decls[..i] == decls;
    run := Run(written, None);
  }

  /**
   * The body of the declaration loop for one declaration: the struct it
   * declares is classified by the field loop, and written unless it documents
   * nothing.
   */
  method ProcessDecl(env: Env, loc: Location, d: Decl) returns (s: Step)
    requires DeclWellFormed(env, d)
    ensures s == DeclStep(env, loc, d)
  {
    if d.FuncDecl? {
      return Pass;
    }
    if |d.specs| == 0 {
      return Abort(EmptyGenDecl);
    }
    var spec := d.specs[0];
    if !spec.TypeSpec? || !spec.typ.StructType? {
      return Pass;
    }
    var classified := ClassifyFields(env, loc.sourcePath, spec.name, spec.typ.fields);
    if classified.Failure? {
      return Abort(classified.error);
    }
    var str := classified.value;
    if |str.required| == 0 && |str.notRequired| == 0 {
      return Pass;
    }
    var outputPath := OutputPath(loc.packerDir, loc.builderName, str.name);
    s := Emit(Emission(outputPath, str));
  }

  /**
   * A declaration yields a record only for a struct type with something to
   * document: the record is the struct's classification, has the struct's
   * name and the recorded source path, holds at least one field, and goes to
   * the struct's output file. A struct with an included field and no
   * malformed tag does yield its record. A declaration stops the run exactly
   * for an empty declaration group or a struct with a malformed tag.
   */
  lemma StepFacts(env: Env, loc: Location, d: Decl)
    requires DeclWellFormed(env, d)
    ensures var s := DeclStep(env, loc, d);
      && (s.Emit? ==> StructOf(d).Some? && s.emission.record.name == StructOf(d).value.0)
      && (s.Emit? ==>
            && Classified(env, loc.sourcePath, StructOf(d).value.0, StructOf(d).value.1).Success?
            && s.emission.record == Classified(env, loc.sourcePath, StructOf(d).value.0, StructOf(d).value.1).value)
      && (s.Emit? ==> s.emission.record.sourcePath == loc.sourcePath)
      && (s.Emit? ==> |s.emission.record.required| + |s.emission.record.notRequired| > 0)
      && (s.Emit? ==> s.emission.path == OutputPath(loc.packerDir, loc.builderName, s.emission.record.name))
    ensures DeclStep(env, loc, d).Abort? <==>
      || (d.GenDecl? && |d.specs| == 0)
      || (StructOf(d).Some? && Classified(env, loc.sourcePath, StructOf(d).value.0, StructOf(d).value.1).Failure?)
    ensures DeclStep(env, loc, d).Abort? ==>
      DeclStep(env, loc, d).error
        == if d.GenDecl? && |d.specs| == 0 then EmptyGenDecl
           else Classified(env, loc.sourcePath, StructOf(d).value.0, StructOf(d).value.1).error
    ensures StructOf(d).Some? ==>
      var fields := StructOf(d).value.1;
      (exists i :: 0 <= i < |fields| && Included(env, fields[i]))
      && (forall i :: 0 <= i < |fields| ==> !TagMalformed(env, fields[i]))
      ==> DeclStep(env, loc, d).Emit?
  {
    if StructOf(d).Some? {
      var (name, fields) := StructOf(d).value;
      ClassifyProperties.AbortsOnFirstMalformedTag(env, loc.sourcePath, name, fields);
      if Classified(env, loc.sourcePath, name, fields).Success? {
        ClassifyProperties.EmptyIffNoneIncluded(env, loc.sourcePath, name, fields);
      }
    }
  }

  /** The fates of a prefix of the declarations are a prefix of their fates. */
  lemma {:induction false} StepsSplit(env: Env, loc: Location, decls: seq<Decl>, k: nat)
    requires AllWellFormed(env, decls) && k <= |decls|
    ensures Steps(env, loc, decls[..k]) + Steps(env, loc, decls)[k..] == Steps(env, loc, decls)
    decreases |decls|
  {
    if k < |decls| {
      var init := decls[..|decls| - 1];
      StepsSplit(env, loc, init, k);
      assert init[..k] == decls[..k];
    } else {
      assert decls[..k] == decls;
    }
  }

  /** The steps of one more declaration extend those of the declarations before it. */
  lemma StepsSnoc(env: Env, loc: Location, decls: seq<Decl>, i: nat)
    requires AllWellFormed(env, decls) && i < |decls|
    ensures Steps(env, loc, decls[..i + 1]) == Steps(env, loc, decls[..i]) + [DeclStep(env, loc, decls[i])]
  {
    assert decls[..i + 1][..i] == decls[..i];
  }

  /** One more step of a walk that has not stopped. */
  lemma WalkSnoc(steps: seq<Step>, step: Step)
    ensures Walk(steps + [step]) == if Walk(steps).error.Some? then Walk(steps) else
      match step
      case Pass => Walk(steps)
      case Abort(e) => Run(Walk(steps).written, Some(e))
      case Emit(emission) => Run(Walk(steps).written + [emission], None)
  {
    assert (steps + [step])[..|steps|] == steps;
  }

  /** Once the walk has stopped, later declarations change nothing. */
  lemma {:induction false} WalkStops(steps: seq<Step>, later: seq<Step>)
    requires Walk(steps).error.Some?
    ensures Walk(steps + later) == Walk(steps)
    decreases |later|
  {
    if |later| > 0 {
      var init := later[..|later| - 1];
      WalkStops(steps, init);
      assert (steps + later)[..|steps + later| - 1] == steps + init;
    } else {
      assert steps + later == steps;
    }
  }
}

module GenerateProperties {
  import opened Wrappers
  import opened Seqs
  import opened Classify
  import opened ClassifyProperties
  import opened Naming
  import opened Generate

  predicate IsAbort(s: Step) {
    s.Abort?
  }

  function EmissionOf(s: Step): Option<Emission> {
    if s.Emit? then Some(s.emission) else None
  }

  /**
   * The walk writes the records of the declarations before the first one that
   * aborts, in order, and ends with that declaration's error; when none
   * aborts it writes the records of all of them.
   */
  lemma {:induction false} WalkStopsAtFirstAbort(steps: seq<Step>)
    ensures Walk(steps) == match FirstWhere(steps, IsAbort)
      case Some(k) => Run(FilterMap(steps[..k], EmissionOf), Some(steps[k].error))
      case None => Run(FilterMap(steps, EmissionOf), None)
  {
    if |steps| > 0 {
      var n := |steps| - 1;
      var init := steps[..n];
      WalkStopsAtFirstAbort(init);
      match FirstWhere(init, IsAbort)
      case Some(k) =>
        FirstWhereAppend(init, [steps[n]], IsAbort);
        assert init + [steps[n]] == steps;
        assert init[..k] == steps[..k];
      case None =>
        if steps[n].Abort? {
          assert IsAbort(steps[n]);
          assert FirstWhere(steps, IsAbort) == Some(n);
        } else {
          assert forall j :: 0 <= j < n ==> !IsAbort(init[j]);
          assert FirstWhere(steps, IsAbort).None?;
        }
    }
  }

  /** The i-th fate is that of the i-th declaration. */
  lemma {:induction false} StepsAt(env: Env, loc: Location, decls: seq<Decl>, i: nat)
    requires AllWellFormed(env, decls) && i < |decls|
    ensures Steps(env, loc, decls)[i] == DeclStep(env, loc, decls[i])
    decreases |decls|
  {
    if i < |decls| - 1 {
      var init := decls[..|decls| - 1];
      StepsAt(env, loc, init, i);
    }
  }

  /** Every record the walk writes is the record of some declaration's fate. */
  lemma {:induction false} WalkWritesEmits(steps: seq<Step>, e: Emission)
    requires e in Walk(steps).written
    ensures exists i :: 0 <= i < |steps| && steps[i] == Emit(e)
  {
    var n := |steps| - 1;
    var init := steps[..n];
    var before := Walk(init);
    if e in before.written {
      WalkWritesEmits(init, e);
      var i :| 0 <= i < |init| && init[i] == Emit(e);
      assert steps[i] == Emit(e);
    } else {
      assert steps[n] == Emit(e);
    }
  }

  /**
   * Every record the run writes comes from a struct declaration of that name,
   * carries the recorded source path, holds at least one field, and goes to
   * the output file named after the builder and the struct.
   */
  lemma WrittenRecords(env: Env, absPath: string, decls: seq<Decl>, e: Emission)
    requires AllWellFormed(env, decls)
    requires e in Generated(env, absPath, decls).written
    ensures Locate(absPath).Some?
    ensures exists i ::
      && 0 <= i < |decls| && StructOf(decls[i]).Some? && StructOf(decls[i]).value.0 == e.record.name
      && Classified(env, Locate(absPath).value.sourcePath, StructOf(decls[i]).value.0, StructOf(decls[i]).value.1) == Success(e.record)
    ensures e.record.sourcePath == Locate(absPath).value.sourcePath
    ensures |e.record.required| + |e.record.notRequired| > 0
    ensures e.path == OutputPath(Locate(absPath).value.packerDir, Locate(absPath).value.builderName, e.record.name)
  {
    var loc := Locate(absPath).value;
    var steps := Steps(env, loc, decls);
    WalkWritesEmits(steps, e);
    var i :| 0 <= i < |steps| && steps[i] == Emit(e);
    StepsAt(env, loc, decls, i);
    StepFacts(env, loc, decls[i]);
  }

  /** Without the project-root marker nothing is written and the run stops. */
  lemma NoMarkerWritesNothing(env: Env, absPath: string, decls: seq<Decl>)
    requires AllWellFormed(env, decls)
    requires forall j: nat :: !GoStrings.OccursAt(absPath, Marker, j)
    ensures Generated(env, absPath, decls) == Run([], Some(NoMarker))
  {
    LocateParts(absPath);
  }

  /** The fates of two runs of declarations, one after the other. */
  lemma {:induction false} StepsAppend(env: Env, loc: Location, decls: seq<Decl>, later: seq<Decl>)
    requires AllWellFormed(env, decls) && AllWellFormed(env, later)
    ensures AllWellFormed(env, decls + later)
    ensures Steps(env, loc, decls + later) == Steps(env, loc, decls) + Steps(env, loc, later)
    decreases |later|
  {
    WellFormedAppend(env, decls, later);
    if |later| > 0 {
      var init := later[..|later| - 1];
      WellFormedAppend(env, decls, init);
      StepsAppend(env, loc, decls, init);
      var all := decls + later;
      assert all[..|all| - 1] == decls + init;
      StepsSnoc(env, loc, all, |all| - 1);
      StepsSnoc(env, loc, later, |later| - 1);
      assert all[..|all|] == all && later[..|later|] == later;
    } else {
      assert decls + later == decls;
    }
  }

  /** Declarations taken from two well-formed runs, or from a prefix of one, are well-formed. */
  lemma WellFormedAppend(env: Env, decls: seq<Decl>, later: seq<Decl>)
    requires AllWellFormed(env, decls) && AllWellFormed(env, later)
    ensures AllWellFormed(env, decls + later)
    ensures |later| > 0 ==> AllWellFormed(env, later[..|later| - 1])
  {
    var all := decls + later;
    assert forall i :: 0 <= i < |all| ==> all[i] == if i < |decls| then decls[i] else later[i - |decls|];
  }

  /** Once a declaration has stopped the run, later declarations are never looked at. */
  lemma AbortIgnoresLaterDecls(env: Env, absPath: string, decls: seq<Decl>, later: seq<Decl>)
    requires AllWellFormed(env, decls) && AllWellFormed(env, later)
    requires Generated(env, absPath, decls).error.Some?
    ensures AllWellFormed(env, decls + later)
    ensures Generated(env, absPath, decls + later) == Generated(env, absPath, decls)
  {
    match Locate(absPath)
    case None =>
      StepsAppend(env, Location("", "", ""), decls, later);
    case Some(loc) =>
      StepsAppend(env, loc, decls, later);
      WalkStops(Steps(env, loc, decls), Steps(env, loc, later));
  }

  /**
   * A struct with no included field, and no malformed tag, writes nothing: the
   * declaration is passed over.
   */
  lemma UndocumentedStructWritesNothing(env: Env, loc: Location, d: Decl)
    requires DeclWellFormed(env, d) && StructOf(d).Some?
    requires var fields := StructOf(d).value.1;
      forall i :: 0 <= i < |fields| ==> !Included(env, fields[i]) && !TagMalformed(env, fields[i])
    ensures DeclStep(env, loc, d) == Pass
  {
    var (name, fields) := StructOf(d).value;
    AbortsOnFirstMalformedTag(env, loc.sourcePath, name, fields);
    EmptyIffNoneIncluded(env, loc.sourcePath, name, fields);
  }
}
