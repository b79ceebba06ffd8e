/** `abigen::add_struct` for a record declaration, as functions on the set of
    accumulated structs, and what it guarantees: it fails exactly on multiple
    inheritance somewhere below the record, it only adds structs, what it adds
    does not depend on what was there, and on success the record's own struct,
    its base's struct, the structs of its fields' element records and the
    extension helper struct are all present. */
module StructBuilder {
  import opened AbiTypes

  /** The reserved field name that gets the fixed `extension[]` type. */
  const ExtensionsField := "transaction_extensions"

  /** The helper struct inserted for a `transaction_extensions` field. */
  const ExtensionStruct := AbiStruct("extension", "", [AbiField("type", "uint16"), AbiField("data", "bytes")])

  /** The outcome of `add_struct` on the struct set: `ok` is false when it raised. */
  datatype Built = Built(ok: bool, structs: set<AbiStruct>)

  /** The ABI field a record field becomes. */
  function FieldOf(f: FieldDecl): (r: AbiField)
    ensures r.name == f.name
    ensures f.name == ExtensionsField ==> r.typeName == "extension[]"
    ensures f.name != ExtensionsField ==> r.typeName == f.fieldType.abiName
  {
    if f.name == ExtensionsField then AbiField(ExtensionsField, "extension[]")
    else AbiField(f.name, f.fieldType.abiName)
  }

  /** The ABI fields of a record's fields, in the same order. */
  function FieldsOf(fs: seq<FieldDecl>): (r: seq<AbiField>)
    ensures |r| == |fs|
    ensures forall i :: 0 <= i < |fs| ==> r[i] == FieldOf(fs[i])
  {
    seq(|fs|, i requires 0 <= i < |fs| => FieldOf(fs[i]))
  }

  /** The resolved base type of a record with one base, empty otherwise. */
  function BaseOf(r: RecordDecl): string
  {
    if |r.bases| == 1 then r.bases[0].typeName else ""
  }

  /** The struct that `add_struct` inserts for a record once its base and
      fields are handled. */
  function RecordStruct(r: RecordDecl): (s: AbiStruct)
    ensures s.name == r.name && s.base == BaseOf(r)
    ensures |s.fields| == |r.fields|
    ensures forall i :: 0 <= i < |r.fields| ==> s.fields[i] == FieldOf(r.fields[i])
  {
    AbiStruct(r.name, BaseOf(r), FieldsOf(r.fields))
  }

  /** Some field of the record has the reserved extensions name. */
  predicate HasExtensionsField(r: RecordDecl)
  {
    exists i :: 0 <= i < |r.fields| && r.fields[i].name == ExtensionsField
  }

  /** `add_struct(const CXXRecordDecl*)`: more than one base raises at once;
      one base is built first; then the fields are handled in order; last the
      record's own struct is inserted. A raise below leaves what was inserted
      so far and does not insert the record's struct. */
  function RecordStep(S: set<AbiStruct>, r: RecordDecl): (o: Built)
    ensures S <= o.structs
    ensures |r.bases| > 1 ==> !o.ok && o.structs == S
    ensures o.ok ==> RecordStruct(r) in o.structs
    decreases r, 1
  {
    if |r.bases| > 1 then Built(false, S)
    else
      var b := if |r.bases| == 1 then RecordStep(S, r.bases[0].decl) else Built(true, S);
      if !b.ok then b
      else
        var f := FieldsStep(b.structs, r, 0);
        if !f.ok then f else Built(true, f.structs + {RecordStruct(r)})
  }

  /** The loop over the fields of `r` from the `i`-th on. */
  function FieldsStep(S: set<AbiStruct>, r: RecordDecl, i: nat): (o: Built)
    requires i <= |r.fields|
    ensures S <= o.structs
    decreases r, 0, |r.fields| - i
  {
    if i == |r.fields| then Built(true, S)
    else
      var b := FieldStep(S, r.fields[i]);
      if !b.ok then b else FieldsStep(b.structs, r, i + 1)
  }

  /** One iteration of that loop: the extensions field inserts the helper
      struct; a `vector`/`optional` of a record builds the element record. */
  function FieldStep(S: set<AbiStruct>, f: FieldDecl): (o: Built)
    ensures S <= o.structs
    ensures f.name == ExtensionsField ==> o.ok && ExtensionStruct in o.structs
    decreases f, 0, 0
  {
    if f.name == ExtensionsField then Built(true, S + {ExtensionStruct})
    else
      match f.fieldType.containerArg
      case Some(arg) =>
        (match arg.record
         case Some(e) => RecordStep(S, e)
         case None => Built(true, S))
      case None => Built(true, S)
  }

  /** Independent statement of when `add_struct` succeeds: no record reached
      through bases and through element records of non-extension fields has
      more than one base. */
  predicate SingleInheritance(r: RecordDecl)
    decreases r, 1
  {
    |r.bases| <= 1 &&
    (|r.bases| == 1 ==> SingleInheritance(r.bases[0].decl)) &&
    FieldsSingleInheritance(r, 0)
  }

  predicate FieldsSingleInheritance(r: RecordDecl, i: nat)
    requires i <= |r.fields|
    decreases r, 0, |r.fields| - i
  {
    i == |r.fields| || (FieldSingleInheritance(r.fields[i]) && FieldsSingleInheritance(r, i + 1))
  }

  predicate FieldSingleInheritance(f: FieldDecl)
    decreases f, 0, 0
  {
    f.name == ExtensionsField ||
    match f.fieldType.containerArg
    case Some(arg) =>
      (match arg.record
       case Some(e) => SingleInheritance(e)
       case None => true)
    case None => true
  }

  /** What `add_struct` adds does not depend on the structs already present:
      the outcome from any `S` is the outcome from the empty set, joined with `S`. */
  lemma {:induction false} RecordStepShift(S: set<AbiStruct>, r: RecordDecl)
    ensures RecordStep(S, r) == Built(RecordStep({}, r).ok, S + RecordStep({}, r).structs)
    decreases r, 1
  {
    if |r.bases| <= 1 {
      var b := if |r.bases| == 1 then RecordStep(S, r.bases[0].decl) else Built(true, S);
      var b0 := if |r.bases| == 1 then RecordStep({}, r.bases[0].decl) else Built(true, {});
      if |r.bases| == 1 {
        RecordStepShift(S, r.bases[0].decl);
      }
      assert b == Built(b0.ok, S + b0.structs);
      if b0.ok {
        FieldsStepShift(b.structs, r, 0);
        FieldsStepShift(b0.structs, r, 0);
      }
    }
  }

  lemma {:induction false} FieldsStepShift(S: set<AbiStruct>, r: RecordDecl, i: nat)
    requires i <= |r.fields|
    ensures FieldsStep(S, r, i) == Built(FieldsStep({}, r, i).ok, S + FieldsStep({}, r, i).structs)
    decreases r, 0, |r.fields| - i
  {
    if i < |r.fields| {
      FieldStepShift(S, r.fields[i]);
      var b0 := FieldStep({}, r.fields[i]);
      if b0.ok {
        FieldsStepShift(S + b0.structs, r, i + 1);
        FieldsStepShift(b0.structs, r, i + 1);
      }
    }
  }

  lemma {:induction false} FieldStepShift(S: set<AbiStruct>, f: FieldDecl)
    ensures FieldStep(S, f) == Built(FieldStep({}, f).ok, S + FieldStep({}, f).structs)
    decreases f, 0, 0
  {
    if f.name != ExtensionsField {
      match f.fieldType.containerArg {
        case Some(arg) =>
          match arg.record {
            case Some(e) => RecordStepShift(S, e);
            case None =>
          }
        case None =>
      }
    }
  }

  /** Building the same record twice changes nothing the first build did not. */
  lemma RecordStepIdempotent(S: set<AbiStruct>, r: RecordDecl)
    ensures RecordStep(RecordStep(S, r).structs, r) == RecordStep(S, r)
  {
    RecordStepShift(S, r);
    RecordStepShift(RecordStep(S, r).structs, r);
  }

  /** `add_struct` succeeds exactly when there is no multiple inheritance below the record. */
  lemma {:induction false} RecordStepOk(S: set<AbiStruct>, r: RecordDecl)
    ensures RecordStep(S, r).ok <==> SingleInheritance(r)
    decreases r, 1
  {
    if |r.bases| <= 1 {
      var b := if |r.bases| == 1 then RecordStep(S, r.bases[0].decl) else Built(true, S);
      if |r.bases| == 1 {
        RecordStepOk(S, r.bases[0].decl);
      }
      if b.ok {
        FieldsStepOk(b.structs, r, 0);
      }
    }
  }

  lemma {:induction false} FieldsStepOk(S: set<AbiStruct>, r: RecordDecl, i: nat)
    requires i <= |r.fields|
    ensures FieldsStep(S, r, i).ok <==> FieldsSingleInheritance(r, i)
    decreases r, 0, |r.fields| - i
  {
    if i < |r.fields| {
      FieldStepOk(S, r.fields[i]);
      var b := FieldStep(S, r.fields[i]);
      if b.ok {
        FieldsStepOk(b.structs, r, i + 1);
      }
    }
  }

  lemma {:induction false} FieldStepOk(S: set<AbiStruct>, f: FieldDecl)
    ensures FieldStep(S, f).ok <==> FieldSingleInheritance(f)
    decreases f, 0, 0
  {
    if f.name != ExtensionsField {
      match f.fieldType.containerArg {
        case Some(arg) =>
          match arg.record {
            case Some(e) => RecordStepOk(S, e);
            case None =>
          }
        case None =>
      }
    }
  }

  /** The fields from the `i`-th on, when the `j`-th of them has the
      extensions name, insert the helper struct. */
  lemma {:induction false} FieldsStepInsertsExtension(S: set<AbiStruct>, r: RecordDecl, i: nat, j: nat)
    requires i <= j < |r.fields| && r.fields[j].name == ExtensionsField
    requires FieldsStep(S, r, i).ok
    ensures ExtensionStruct in FieldsStep(S, r, i).structs
    decreases j - i
  {
    var b := FieldStep(S, r.fields[i]);
    if i < j {
      FieldsStepInsertsExtension(b.structs, r, i + 1, j);
    }
  }

  /** The fields from the `i`-th on, when the `j`-th of them is a
      `vector`/`optional` of a record (and not the extensions field), build
      that element record's struct. */
  lemma {:induction false} FieldsStepInsertsElement(S: set<AbiStruct>, r: RecordDecl, i: nat, j: nat)
    requires i <= j < |r.fields|
    requires r.fields[j].name != ExtensionsField && ElementRecord(r.fields[j].fieldType).Some?
    requires FieldsStep(S, r, i).ok
    ensures RecordStruct(ElementRecord(r.fields[j].fieldType).value) in FieldsStep(S, r, i).structs
    decreases j - i
  {
    var b := FieldStep(S, r.fields[i]);
    if i < j {
      FieldsStepInsertsElement(b.structs, r, i + 1, j);
    }
  }

  /** A successful `add_struct` leaves the record's struct, named after the
      record with its fields in declaration order, the struct of its single
      base, the struct of every field's element record, and the extension
      helper struct when a field asks for it. */
  lemma RecordStepInserts(S: set<AbiStruct>, r: RecordDecl)
    requires RecordStep(S, r).ok
    ensures RecordStruct(r) in RecordStep(S, r).structs
    ensures |r.bases| == 1 ==>
      RecordStruct(r).base == r.bases[0].typeName && RecordStruct(r.bases[0].decl) in RecordStep(S, r).structs
    ensures forall j ::
      0 <= j < |r.fields| && r.fields[j].name != ExtensionsField && ElementRecord(r.fields[j].fieldType).Some? ==>
        RecordStruct(ElementRecord(r.fields[j].fieldType).value) in RecordStep(S, r).structs
    ensures HasExtensionsField(r) ==> ExtensionStruct in RecordStep(S, r).structs
  {
    var b := if |r.bases| == 1 then RecordStep(S, r.bases[0].decl) else Built(true, S);
    forall j | 0 <= j < |r.fields| && r.fields[j].name != ExtensionsField && ElementRecord(r.fields[j].fieldType).Some?
      ensures RecordStruct(ElementRecord(r.fields[j].fieldType).value) in RecordStep(S, r).structs
    {
      FieldsStepInsertsElement(b.structs, r, 0, j);
    }
    if HasExtensionsField(r) {
      var j :| 0 <= j < |r.fields| && r.fields[j].name == ExtensionsField;
      FieldsStepInsertsExtension(b.structs, r, 0, j);
    }
  }

  /** Independent statement of what a successful `add_struct` inserts: the
      record's own struct, what its single base inserts, and what each field
      inserts (`extension` for the extensions field, the element record's
      structs for a `vector`/`optional` of a record). */
  function RecordClosure(r: RecordDecl): set<AbiStruct>
    decreases r, 1
  {
    {RecordStruct(r)} + (if |r.bases| == 1 then RecordClosure(r.bases[0].decl) else {}) + FieldsClosure(r, 0)
  }

  function FieldsClosure(r: RecordDecl, i: nat): set<AbiStruct>
    requires i <= |r.fields|
    decreases r, 0, |r.fields| - i
  {
    if i == |r.fields| then {} else FieldClosure(r.fields[i]) + FieldsClosure(r, i + 1)
  }

  function FieldClosure(f: FieldDecl): set<AbiStruct>
    decreases f, 0, 0
  {
    if f.name == ExtensionsField then {ExtensionStruct}
    else
      match f.fieldType.containerArg
      case Some(arg) =>
        (match arg.record
         case Some(e) => RecordClosure(e)
         case None => {})
      case None => {}
  }

  /** A successful `add_struct` inserts exactly the record's closure and nothing else. */
  lemma {:induction false} RecordStepClosure(S: set<AbiStruct>, r: RecordDecl)
    requires RecordStep(S, r).ok
    ensures RecordStep(S, r).structs == S + RecordClosure(r)
    decreases r, 1
  {
    var b := if |r.bases| == 1 then RecordStep(S, r.bases[0].decl) else Built(true, S);
    if |r.bases| == 1 {
      RecordStepClosure(S, r.bases[0].decl);
    }
    FieldsStepClosure(b.structs, r, 0);
  }

  lemma {:induction false} FieldsStepClosure(S: set<AbiStruct>, r: RecordDecl, i: nat)
    requires i <= |r.fields|
    requires FieldsStep(S, r, i).ok
    ensures FieldsStep(S, r, i).structs == S + FieldsClosure(r, i)
    decreases r, 0, |r.fields| - i
  {
    if i < |r.fields| {
      FieldStepClosure(S, r.fields[i]);
      FieldsStepClosure(FieldStep(S, r.fields[i]).structs, r, i + 1);
    }
  }

  lemma {:induction false} FieldStepClosure(S: set<AbiStruct>, f: FieldDecl)
    requires FieldStep(S, f).ok
    ensures FieldStep(S, f).structs == S + FieldClosure(f)
    decreases f, 0, 0
  {
    if f.name != ExtensionsField {
      match f.fieldType.containerArg {
        case Some(arg) =>
          match arg.record {
            case Some(e) => RecordStepClosure(S, e);
            case None =>
          }
        case None =>
      }
    }
  }
}
