/**
 * The field loop of the tool: for one struct declaration, which tagged fields
 * are documented, whether each is required, and the documentation record
 * built for it.
 */
module Classify {
  import opened Wrappers
  import opened Seqs
  import GoStrings
  import Naming

  /** One documented field: its serialization name, its type as written, its documentation. */
  datatype Doc = Doc(name: string, typ: string, docs: string)

  /** The record written for one struct. */
  datatype Struct = Struct(sourcePath: string, name: string, required: seq<Doc>, notRequired: seq<Doc>)

  /**
   * A field of a struct declaration as the Go parser gives it: its names
   * (none for an embedded field), its raw tag literal with delimiters, the
   * text of its doc comment, and the 1-based source positions of its type.
   */
  datatype Field = Field(names: seq<string>, tag: Option<string>, doc: Option<string>, typePos: nat, typeEnd: nat)

  /** One key of a parsed struct tag: its name (the text before the first comma) and its whole value. */
  datatype TagEntry = TagEntry(key: string, name: string, value: string)

  datatype TagParse = Parsed(entries: seq<TagEntry>) | Malformed(reason: string)

  /**
   * What the field loop consults beyond the field itself: the bytes of the
   * source file, the struct-tag parser and the camel-case splitter.
   */
  datatype Env = Env(src: string, parseTag: string -> TagParse, splitCamel: string -> seq<string>)

  /**
   * Why the whole run stops, shared by every stage: no project-root marker (the
   * path step), an empty declaration group (the declaration loop), or a
   * malformed tag (the only error this field loop produces).
   */
  datatype Error = NoMarker | EmptyGenDecl | BadTag(tag: string, reason: string)

  /** What becomes of one field. */
  datatype Verdict = Skipped | Rejected(error: Error) | Documented(doc: Doc, required: bool)

  /** What the parser guarantees about a field: its tag literal has delimiters, its type span lies in the file. */
  predicate WellFormed(env: Env, f: Field) {
    && (f.tag.Some? ==> |f.tag.value| >= 2)
    && 1 <= f.typePos <= f.typeEnd <= |env.src| + 1
  }

  /** The first entry with the given key, as the tag set's Get returns it. */
  function Lookup(entries: seq<TagEntry>, key: string): (r: Option<TagEntry>)
    ensures r.None? <==> forall i :: 0 <= i < |entries| ==> entries[i].key != key
    ensures r.Some? ==> exists i :: 0 <= i < |entries| && entries[i] == r.value && FirstWithKey(entries, key, i)
  {
    match FirstWhere(entries, HasKey(key))
    case None => None
    case Some(i) =>
      assert FirstWithKey(entries, key, i);
      Some(entries[i])
  }

  function HasKey(key: string): TagEntry -> bool {
    (e: TagEntry) => e.key == key
  }

  predicate FirstWithKey(entries: seq<TagEntry>, key: string, i: nat) {
    i < |entries| && entries[i].key == key && forall j :: 0 <= j < i ==> entries[j].key != key
  }

  /** The tag marks the field required: its `required` entry's value is exactly "true". */
  predicate MarkedRequired(entries: seq<TagEntry>) {
    match Lookup(entries, "required")
    case Some(t) => t.value == "true"
    case None => false
  }

  /** The field has a name, a tag that parses, and a `mapstructure` entry in it. */
  predicate Included(env: Env, f: Field)
    requires WellFormed(env, f)
  {
    && |f.names| > 0 && f.tag.Some?
    && env.parseTag(Naming.StripTag(f.tag.value)).Parsed?
    && Lookup(env.parseTag(Naming.StripTag(f.tag.value)).entries, "mapstructure").Some?
  }

  /** The field has a name and a tag, and the tag does not parse. */
  predicate TagMalformed(env: Env, f: Field)
    requires WellFormed(env, f)
  {
    |f.names| > 0 && f.tag.Some? && env.parseTag(Naming.StripTag(f.tag.value)).Malformed?
  }

  /** The doc comment's text, or else the first name's camel-case words joined by single spaces. */
  function DocsOf(env: Env, f: Field): string
    requires |f.names| > 0
  {
    match f.doc
    case Some(text) => text
    case None => GoStrings.Join(env.splitCamel(f.names[0]), " ")
  }

  /**
   * One iteration of the field loop: skip a field without names or tag, abort
   * on a tag that does not parse, skip a field without `mapstructure`, and
   * otherwise build its record and say whether it is required.
   */
  function Judge(env: Env, f: Field): (v: Verdict)
    requires WellFormed(env, f)
    ensures v.Documented? <==> Included(env, f)
    ensures v.Rejected? <==> TagMalformed(env, f)
    ensures v.Documented? ==> v.required == MarkedRequired(env.parseTag(Naming.StripTag(f.tag.value)).entries)
  {
    if |f.names| == 0 || f.tag.None? then Skipped
    else match env.parseTag(Naming.StripTag(f.tag.value))
      case Malformed(reason) => Rejected(BadTag(f.tag.value, reason))
      case Parsed(entries) =>
        match Lookup(entries, "mapstructure")
        case None => Skipped
        case Some(m) =>
          var doc := Doc(m.name, Naming.TypeText(env.src, f.typePos, f.typeEnd), DocsOf(env, f));
          Documented(doc, MarkedRequired(entries))
  }

  /** The verdict of every field, in order. */
  function Verdicts(env: Env, fields: seq<Field>): (vs: seq<Verdict>)
    requires forall i :: 0 <= i < |fields| ==> WellFormed(env, fields[i])
    ensures |vs| == |fields|
  {
    if |fields| == 0 then []
    else Verdicts(env, fields[..|fields| - 1]) + [Judge(env, fields[|fields| - 1])]
  }

  /** The verdicts of one more field extend those of the fields before it. */
  lemma VerdictsSnoc(env: Env, fields: seq<Field>, i: nat)
    requires forall j :: 0 <= j < |fields| ==> WellFormed(env, fields[j])
    requires i < |fields|
    ensures Verdicts(env, fields[..i + 1]) == Verdicts(env, fields[..i]) + [Judge(env, fields[i])]
  {
    assert fields[..i + 1][..i] == fields[..i];
  }

  /** The i-th verdict is the i-th field's. */
  lemma {:induction false} VerdictAt(env: Env, fields: seq<Field>, i: nat)
    requires forall j :: 0 <= j < |fields| ==> WellFormed(env, fields[j])
    requires i < |fields|
    ensures Verdicts(env, fields)[i] == Judge(env, fields[i])
  {
    if i < |fields| - 1 {
      VerdictAt(env, fields[..|fields| - 1], i);
    }
  }

  /** Every verdict is its field's. */
  lemma VerdictsAll(env: Env, fields: seq<Field>)
    requires forall j :: 0 <= j < |fields| ==> WellFormed(env, fields[j])
    ensures forall i :: 0 <= i < |fields| ==> Verdicts(env, fields)[i] == Judge(env, fields[i])
  {
    forall i | 0 <= i < |fields|
      ensures Verdicts(env, fields)[i] == Judge(env, fields[i])
    {
      VerdictAt(env, fields, i);
    }
  }

  predicate IsRejected(v: Verdict) {
    v.Rejected?
  }

  /** The record of a documented field whose required flag is `required`. */
  function Pick(required: bool): Verdict -> Option<Doc> {
    (v: Verdict) => if v.Documented? && v.required == required then Some(v.doc) else None
  }

  /** The records of the documented fields with the given required flag, in field order. */
  function Selected(vs: seq<Verdict>, required: bool): seq<Doc> {
    FilterMap(vs, Pick(required))
  }

  /**
   * The struct's record: the first malformed tag aborts; otherwise the
   * documented fields, required ones and the others each in field order.
   */
  function Classified(env: Env, sourcePath: string, name: string, fields: seq<Field>): (r: Result<Struct, Error>)
    requires forall i :: 0 <= i < |fields| ==> WellFormed(env, fields[i])
    ensures r.Failure? ==> r.error.BadTag?
    ensures r.Success? ==> r.value.sourcePath == sourcePath && r.value.name == name
  {
    var vs := Verdicts(env, fields);
    match FirstWhere(vs, IsRejected)
    case Some(i) =>
      VerdictAt(env, fields, i);
      Failure(vs[i].error)
    case None => Success(Struct(sourcePath, name, Selected(vs, true), Selected(vs, false)))
  }

  /** A rejection among the verdicts of a prefix stays the first rejection among all verdicts. */
  lemma VerdictsPrefixRejected(env: Env, fields: seq<Field>, k: nat)
    requires forall j :: 0 <= j < |fields| ==> WellFormed(env, fields[j])
    requires k <= |fields|
    requires FirstWhere(Verdicts(env, fields[..k]), IsRejected).Some?
    ensures FirstWhere(Verdicts(env, fields), IsRejected) == FirstWhere(Verdicts(env, fields[..k]), IsRejected)
  {
    VerdictsSplit(env, fields, k);
    FirstWhereAppend(Verdicts(env, fields[..k]), Verdicts(env, fields)[k..], IsRejected);
  }

  /** The verdicts of a prefix are a prefix of the verdicts. */
  lemma {:induction false} VerdictsSplit(env: Env, fields: seq<Field>, k: nat)
    requires forall j :: 0 <= j < |fields| ==> WellFormed(env, fields[j])
    requires k <= |fields|
    ensures Verdicts(env, fields[..k]) + Verdicts(env, fields)[k..] == Verdicts(env, fields)
    decreases |fields|
  {
    if k < |fields| {
      var init := fields[..|fields| - 1];
      VerdictsSplit(env, init, k);
      assert init[..k] == fields[..k];
    } else {
      assert fields[..k] == fields;
    }
  }

  /**
   * The field loop: appends each documented field's record to the required or
   * the not-required list, and stops at the first tag that does not parse.
   */
  method ClassifyFields(env: Env, sourcePath: string, name: string, fields: seq<Field>)
    returns (r: Result<Struct, Error>)
    requires forall i :: 0 <= i < |fields| ==> WellFormed(env, fields[i])
    ensures r == Classified(env, sourcePath, name, fields)
  {
    var required: seq<Doc> := [];
    var notRequired: seq<Doc> := [];
    ghost var seen: seq<Verdict> := [];
    var i := 0;
    while i < |fields|
      invariant 0 <= i <= |fields|
      invariant seen == Verdicts(env, fields[..i])
      invariant FirstWhere(seen, IsRejected).None?
      invariant required == Selected(seen, true)
      invariant notRequired == Selected(seen, false)
    {
      var verdict := Judge(env, fields[i]);
      VerdictsSnoc(env, fields, i);
      FirstWhereSnoc(seen, verdict, IsRejected);
      FilterMapSnoc(seen, verdict, Pick(true));
      FilterMapSnoc(seen, verdict, Pick(false));
      match verdict {
        case Skipped =>
        case Rejected(e) =>
          VerdictsPrefixRejected(env, fields, i + 1);
          VerdictAt(env, fields, i);
          return Failure(e);
        case Documented(doc, isRequired) =>
          if isRequired {
            required := required + [doc];
          } else {
            notRequired := notRequired + [doc];
          }
      }
      seen := seen + [verdict];
      i := i + 1;
    }
    assert fields[..i] == fields;
    r := Success(Struct(sourcePath, name, required, notRequired));
  }
}

module ClassifyProperties {
  import opened Wrappers
  import opened Seqs
  import opened Classify
  import Naming
  import GoStrings

  /** The indices of the fields that land in the required list, in increasing order. */
  function RequiredFields(env: Env, fields: seq<Field>): seq<nat>
    requires forall i :: 0 <= i < |fields| ==> WellFormed(env, fields[i])
  {
    Positions(Verdicts(env, fields), Pick(true))
  }

  /** The indices of the fields that land in the not-required list, in increasing order. */
  function NotRequiredFields(env: Env, fields: seq<Field>): seq<nat>
    requires forall i :: 0 <= i < |fields| ==> WellFormed(env, fields[i])
  {
    Positions(Verdicts(env, fields), Pick(false))
  }

  /** The record of any documented field. */
  function AnyDoc(v: Verdict): Option<Doc> {
    if v.Documented? then Some(v.doc) else None
  }

  /** The indices of the included fields, in increasing order. */
  function IncludedFields(env: Env, fields: seq<Field>): seq<nat>
    requires forall i :: 0 <= i < |fields| ==> WellFormed(env, fields[i])
  {
    Positions(Verdicts(env, fields), AnyDoc)
  }

  /**
   * The struct's fields are classified unless some field has a name and a tag
   * that does not parse; then the run aborts with the first such tag.
   */
  lemma AbortsOnFirstMalformedTag(env: Env, sourcePath: string, name: string, fields: seq<Field>)
    requires forall i :: 0 <= i < |fields| ==> WellFormed(env, fields[i])
    ensures Classified(env, sourcePath, name, fields).Failure?
      <==> exists i :: 0 <= i < |fields| && TagMalformed(env, fields[i])
    ensures Classified(env, sourcePath, name, fields).Failure? ==>
      exists i :: 0 <= i < |fields| && TagMalformed(env, fields[i])
        && (forall j :: 0 <= j < i ==> !TagMalformed(env, fields[j]))
        && Classified(env, sourcePath, name, fields).error
           == BadTag(fields[i].tag.value, env.parseTag(Naming.StripTag(fields[i].tag.value)).reason)
  {
    var vs := Verdicts(env, fields);
    VerdictsAll(env, fields);
    match FirstWhere(vs, IsRejected)
    case Some(i) =>
      assert TagMalformed(env, fields[i]);
      assert forall j :: 0 <= j < i ==> !IsRejected(vs[j]);
    case None =>
      assert forall j :: 0 <= j < |fields| ==> !IsRejected(vs[j]);
  }

  /** After a malformed tag nothing more is looked at: later fields cannot change the outcome. */
  lemma AbortIgnoresLaterFields(env: Env, sourcePath: string, name: string, fields: seq<Field>, later: seq<Field>)
    requires forall i :: 0 <= i < |fields| ==> WellFormed(env, fields[i])
    requires forall i :: 0 <= i < |later| ==> WellFormed(env, later[i])
    requires Classified(env, sourcePath, name, fields).Failure?
    ensures forall i :: 0 <= i < |fields + later| ==> WellFormed(env, (fields + later)[i])
    ensures Classified(env, sourcePath, name, fields + later) == Classified(env, sourcePath, name, fields)
  {
    var all := fields + later;
    assert forall i :: 0 <= i < |all| ==> WellFormed(env, all[i]) by {
      forall i | 0 <= i < |all| ensures WellFormed(env, all[i]) {
        if i >= |fields| { assert all[i] == later[i - |fields|]; }
      }
    }
    assert all[..|fields|] == fields;
    VerdictsSplit(env, all, |fields|);
    FirstWhereAppend(Verdicts(env, fields), Verdicts(env, all)[|fields|..], IsRejected);
  }

  /**
   * Exactly the included fields are documented, each in exactly one list: in
   * the required list when its tag marks it required, in the other list
   * otherwise. A field without names, without a tag, or without a
   * `mapstructure` entry is in neither.
   */
  lemma {:induction false} Partition(env: Env, fields: seq<Field>, i: nat)
    requires forall j :: 0 <= j < |fields| ==> WellFormed(env, fields[j])
    requires i < |fields|
    ensures i in RequiredFields(env, fields) <==>
      Included(env, fields[i]) && MarkedRequired(env.parseTag(Naming.StripTag(fields[i].tag.value)).entries)
    ensures i in NotRequiredFields(env, fields) <==>
      Included(env, fields[i]) && !MarkedRequired(env.parseTag(Naming.StripTag(fields[i].tag.value)).entries)
    ensures (|fields[i].names| == 0 || fields[i].tag.None?) ==>
      i !in RequiredFields(env, fields) && i !in NotRequiredFields(env, fields)
  {
    var vs := Verdicts(env, fields);
    VerdictsAll(env, fields);
    PositionsSelect(vs, Pick(true));
    PositionsSelect(vs, Pick(false));
  }

  /**
   * Each list holds the records of its fields in source order: its k-th record
   * is the record of the k-th field placed there, and those fields' indices
   * strictly increase.
   */
  lemma SourceOrder(env: Env, sourcePath: string, name: string, fields: seq<Field>)
    requires forall i :: 0 <= i < |fields| ==> WellFormed(env, fields[i])
    requires Classified(env, sourcePath, name, fields).Success?
    ensures var s := Classified(env, sourcePath, name, fields).value;
      && |s.required| == |RequiredFields(env, fields)|
      && (forall k :: 0 <= k < |s.required| ==>
          RequiredFields(env, fields)[k] < |fields|
          && Judge(env, fields[RequiredFields(env, fields)[k]]) == Documented(s.required[k], true))
      && (forall k1, k2 :: 0 <= k1 < k2 < |s.required| ==> RequiredFields(env, fields)[k1] < RequiredFields(env, fields)[k2])
    ensures var s := Classified(env, sourcePath, name, fields).value;
      && |s.notRequired| == |NotRequiredFields(env, fields)|
      && (forall k :: 0 <= k < |s.notRequired| ==>
          NotRequiredFields(env, fields)[k] < |fields|
          && Judge(env, fields[NotRequiredFields(env, fields)[k]]) == Documented(s.notRequired[k], false))
      && (forall k1, k2 :: 0 <= k1 < k2 < |s.notRequired| ==> NotRequiredFields(env, fields)[k1] < NotRequiredFields(env, fields)[k2])
  {
    var vs := Verdicts(env, fields);
    VerdictsAll(env, fields);
    PositionsSelect(vs, Pick(true));
    PositionsSelect(vs, Pick(false));
  }

  /** A record is in the required list exactly when some field is documented as required with it, and likewise for the other list. */
  lemma Membership(env: Env, sourcePath: string, name: string, fields: seq<Field>, d: Doc)
    requires forall i :: 0 <= i < |fields| ==> WellFormed(env, fields[i])
    requires Classified(env, sourcePath, name, fields).Success?
    ensures d in Classified(env, sourcePath, name, fields).value.required
      <==> exists i :: 0 <= i < |fields| && Judge(env, fields[i]) == Documented(d, true)
    ensures d in Classified(env, sourcePath, name, fields).value.notRequired
      <==> exists i :: 0 <= i < |fields| && Judge(env, fields[i]) == Documented(d, false)
  {
    var vs := Verdicts(env, fields);
    VerdictsAll(env, fields);
    SelectedContains(vs, true, d);
    SelectedContains(vs, false, d);
  }

  /** A record is selected exactly when some verdict documents it with that flag. */
  lemma SelectedContains(vs: seq<Verdict>, required: bool, d: Doc)
    ensures d in Selected(vs, required) <==> exists i :: 0 <= i < |vs| && vs[i] == Documented(d, required)
  {
    FilterMapContains(vs, Pick(required), d);
    assert forall i :: 0 <= i < |vs| ==> (Pick(required)(vs[i]) == Some(d) <==> vs[i] == Documented(d, required));
  }

  /** Between them the two lists hold one record per included field. */
  lemma {:induction false} CountsIncluded(vs: seq<Verdict>)
    ensures |Selected(vs, true)| + |Selected(vs, false)| == |Positions(vs, AnyDoc)|
  {
    if |vs| > 0 {
      CountsIncluded(vs[..|vs| - 1]);
    }
  }

  /**
   * The two lists together are as long as the number of included fields: the
   * increasing list of the included fields' indices.
   */
  lemma ListsCountIncluded(env: Env, sourcePath: string, name: string, fields: seq<Field>)
    requires forall i :: 0 <= i < |fields| ==> WellFormed(env, fields[i])
    requires Classified(env, sourcePath, name, fields).Success?
    ensures var s := Classified(env, sourcePath, name, fields).value;
      |s.required| + |s.notRequired| == |IncludedFields(env, fields)|
    ensures forall i :: 0 <= i < |fields| ==> (i in IncludedFields(env, fields) <==> Included(env, fields[i]))
    ensures forall k1, k2 :: 0 <= k1 < k2 < |IncludedFields(env, fields)| ==>
      IncludedFields(env, fields)[k1] < IncludedFields(env, fields)[k2]
  {
    var vs := Verdicts(env, fields);
    VerdictsAll(env, fields);
    CountsIncluded(vs);
    PositionsSelect(vs, AnyDoc);
  }

  /** A classified struct has no records at all exactly when none of its fields is included. */
  lemma EmptyIffNoneIncluded(env: Env, sourcePath: string, name: string, fields: seq<Field>)
    requires forall i :: 0 <= i < |fields| ==> WellFormed(env, fields[i])
    requires Classified(env, sourcePath, name, fields).Success?
    ensures var s := Classified(env, sourcePath, name, fields).value;
      (s.required == [] && s.notRequired == []) <==> forall i :: 0 <= i < |fields| ==> !Included(env, fields[i])
  {
    ListsCountIncluded(env, sourcePath, name, fields);
    var inc := IncludedFields(env, fields);
    if |inc| > 0 {
      assert inc[0] in inc;
      VerdictsAll(env, fields);
      PositionsSelect(Verdicts(env, fields), AnyDoc);
    }
  }

  /**
   * A documented field's record carries the `mapstructure` entry's name, the
   * source text of the field's type, and its doc comment or else the camel-case
   * words of its first name joined by single spaces.
   */
  lemma DocumentedRecord(env: Env, f: Field)
    requires WellFormed(env, f) && Included(env, f)
    ensures var entries := env.parseTag(Naming.StripTag(f.tag.value)).entries;
      var d := Judge(env, f).doc;
      && d.name == Lookup(entries, "mapstructure").value.name
      && d.typ == env.src[f.typePos - 1..f.typeEnd - 1]
      && (f.doc.Some? ==> d.docs == f.doc.value)
      && (f.doc.None? ==> d.docs == GoStrings.Join(env.splitCamel(f.names[0]), " "))
  {
  }
}
