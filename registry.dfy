/** The other registration steps of the ABI builder as functions on the whole
    accumulated state: typedefs, the struct of an action method, actions from
    records and from methods, attribute tables and multi-index tables, and the
    "handle one declaration" steps of the two match callbacks. */
module Registry {
  import opened AbiTypes
  import opened StructBuilder

  /** Runs `add_struct` on a record against the structs of `st`. */
  function WithRecord(st: AbiState, r: RecordDecl): (o: Outcome)
    ensures o.st == st.(structs := o.st.structs)
    ensures o.ok <==> SingleInheritance(r)
    ensures st.structs <= o.st.structs
    ensures o.ok ==> RecordStruct(r) in o.st.structs
    ensures o.ok ==> o.st.structs == st.structs + RecordClosure(r)
  {
    RecordStepOk(st.structs, r);
    var b := RecordStep(st.structs, r);
    if b.ok then
      RecordStepInserts(st.structs, r);
      RecordStepClosure(st.structs, r);
      Outcome(true, st.(structs := b.structs))
    else Outcome(false, st.(structs := b.structs))
  }

  /** Only structs and typedefs may have grown. */
  predicate TypesOnlyGrow(a: AbiState, b: AbiState)
  {
    Extends(a, b) && b.actions == a.actions && b.tables == a.tables && b.ctables == a.ctables
  }

  /** Only structs may have grown. */
  predicate StructsOnlyGrow(a: AbiState, b: AbiState)
  {
    b == a.(structs := b.structs) && a.structs <= b.structs
  }

  /** The typedef `add_typedef` inserts for a type. */
  function TypedefOf(t: QualType): AbiTypedef
  {
    AbiTypedef(t.baseTypeName, t.typeAlias)
  }

  /** `add_typedef`. */
  function TypedefStep(st: AbiState, t: QualType): (r: AbiState)
    ensures TypesOnlyGrow(st, r) && r.structs == st.structs
    ensures r.typedefs == st.typedefs + {TypedefOf(t)}
  {
    st.(typedefs := st.typedefs + {TypedefOf(t)})
  }

  // ---- add_struct(const CXXMethodDecl*) ----

  /** The type a parameter contributes: its declared type's ignored-type
      replacement when it is ignorable, else its unreferenced, unqualified type. */
  function ParamType(p: ParamDecl): QualType
  {
    match p.paramType.ignoredAs
    case Some(t) => t
    case None => p.valueType
  }

  /** The struct of an action method: named after the method, no base, one
      field per parameter in order, named after the parameter. */
  function MethodStruct(m: MethodDecl): (s: AbiStruct)
    ensures s.name == m.name && s.base == ""
    ensures |s.fields| == |m.params|
    ensures forall i :: 0 <= i < |m.params| ==>
      s.fields[i] == AbiField(m.params[i].name, ParamType(m.params[i]).abiName)
  {
    AbiStruct(m.name, "", seq(|m.params|, i requires 0 <= i < |m.params| =>
      AbiField(m.params[i].name, ParamType(m.params[i]).abiName)))
  }

  /** The records `add_struct(const CXXMethodDecl*)` builds for one
      parameter: none for a builtin type; the type's own record; else the
      record inside a `vector`/`optional`. */
  function ParamDeps(p: ParamDecl): set<RecordDecl>
  {
    var t := ParamType(p);
    if t.builtin then {}
    else match t.record
      case Some(rec) => {rec}
      case None =>
        match ElementRecord(t)
        case Some(e) => {e}
        case None => {}
  }

  /** The structs that building every record of `ds` inserts. */
  function DepsClosure(ds: set<RecordDecl>): set<AbiStruct>
  {
    set e, x | e in ds && x in RecordClosure(e) :: x
  }

  /** A non-builtin aliasing type registers its typedef. */
  predicate AddsTypedef(t: QualType)
  {
    !t.builtin && t.aliasing
  }

  /** One parameter: a non-builtin type registers its typedef when aliasing,
      then builds its record, or else the record inside a `vector`/`optional`.
      It raises exactly when one of those records has multiple inheritance. */
  function ParamStep(st: AbiState, p: ParamDecl): (o: Outcome)
    ensures TypesOnlyGrow(st, o.st)
    ensures o.st.typedefs == st.typedefs + (if AddsTypedef(ParamType(p)) then {TypedefOf(ParamType(p))} else {})
    ensures o.ok <==> forall e :: e in ParamDeps(p) ==> SingleInheritance(e)
    ensures o.ok ==> forall e :: e in ParamDeps(p) ==> RecordStruct(e) in o.st.structs
    ensures o.ok ==> o.st.structs == st.structs + DepsClosure(ParamDeps(p))
  {
    var t := ParamType(p);
    if t.builtin then Outcome(true, st)
    else
      var st1 := if t.aliasing then TypedefStep(st, t) else st;
      match t.record
      case Some(rec) => assert rec in ParamDeps(p); WithRecord(st1, rec)
      case None =>
        match ElementRecord(t)
        case Some(e) => assert e in ParamDeps(p); WithRecord(st1, e)
        case None => Outcome(true, st1)
  }

  /** Every record the parameters from the `i`-th on make the builder visit
      is single-inheritance. */
  predicate ParamsSingle(m: MethodDecl, i: nat)
  {
    forall k, e :: i <= k < |m.params| && e in ParamDeps(m.params[k]) ==> SingleInheritance(e)
  }

  /** Every record the parameters from the `i`-th on make the builder visit
      has its struct in `S`. */
  predicate ParamDepsIn(S: set<AbiStruct>, m: MethodDecl, i: nat)
  {
    forall k, e :: i <= k < |m.params| && e in ParamDeps(m.params[k]) ==> RecordStruct(e) in S
  }

  /** `T` holds `T0` and the typedefs of the parameters from the `i`-th on, and nothing else. */
  predicate ParamTypedefs(T0: set<AbiTypedef>, T: set<AbiTypedef>, m: MethodDecl, i: nat)
  {
    T0 <= T &&
    (forall k :: i <= k < |m.params| && AddsTypedef(ParamType(m.params[k])) ==> TypedefOf(ParamType(m.params[k])) in T) &&
    (forall d :: d in T ==>
       d in T0 || exists k :: i <= k < |m.params| && AddsTypedef(ParamType(m.params[k])) && d == TypedefOf(ParamType(m.params[k])))
  }

  /** The structs the parameters from the `i`-th on make `add_struct` insert. */
  function ParamsClosure(m: MethodDecl, i: nat): set<AbiStruct>
    requires i <= |m.params|
    decreases |m.params| - i
  {
    if i == |m.params| then {} else DepsClosure(ParamDeps(m.params[i])) + ParamsClosure(m, i + 1)
  }

  /** The loop over the parameters from the `i`-th on. */
  function ParamsStep(st: AbiState, m: MethodDecl, i: nat): (o: Outcome)
    requires i <= |m.params|
    ensures TypesOnlyGrow(st, o.st)
    ensures o.ok <==> ParamsSingle(m, i)
    ensures o.ok ==> ParamDepsIn(o.st.structs, m, i) && ParamTypedefs(st.typedefs, o.st.typedefs, m, i)
    ensures o.ok ==> o.st.structs == st.structs + ParamsClosure(m, i)
    decreases |m.params| - i
  {
    if i == |m.params| then Outcome(true, st)
    else
      var o := ParamStep(st, m.params[i]);
      if !o.ok then o else ParamsStep(o.st, m, i + 1)
  }

  /** `add_struct(const CXXMethodDecl*)`: the parameters' dependencies, then
      the method's own struct; a raise leaves the method's struct out. */
  function MethodStructStep(st: AbiState, m: MethodDecl): (o: Outcome)
    ensures TypesOnlyGrow(st, o.st)
    ensures o.ok <==> ParamsSingle(m, 0)
    ensures o.ok ==> MethodStruct(m) in o.st.structs && ParamDepsIn(o.st.structs, m, 0)
    ensures o.ok ==> ParamTypedefs(st.typedefs, o.st.typedefs, m, 0)
    ensures o.ok ==> o.st.structs == st.structs + ParamsClosure(m, 0) + {MethodStruct(m)}
  {
    var o := ParamsStep(st, m, 0);
    if !o.ok then o else Outcome(true, o.st.(structs := o.st.structs + {MethodStruct(m)}))
  }

  // ---- actions ----

  /** The name an action or table gets: the attribute's name when non-empty,
      else the declaration's. */
  function ChosenName(attrName: string, declName: string): (n: string)
    ensures attrName != "" ==> n == attrName
    ensures attrName == "" ==> n == declName
  {
    if attrName == "" then declName else attrName
  }

  function RecordAction(r: RecordDecl): (a: AbiAction)
    requires r.actionAttr.Some?
    ensures a.name == ChosenName(r.actionAttr.value, r.name) && a.structType == r.name && a.ricardianContract == ""
  {
    AbiAction(ChosenName(r.actionAttr.value, r.name), r.name, "")
  }

  function MethodAction(m: MethodDecl): (a: AbiAction)
    requires m.actionAttr.Some?
    ensures a.name == ChosenName(m.actionAttr.value, m.name) && a.structType == m.name && a.ricardianContract == ""
  {
    AbiAction(ChosenName(m.actionAttr.value, m.name), m.name, "")
  }

  /** `add_action(const CXXRecordDecl*)`: an invalid name is rethrown. */
  function RecordActionStep(h: Helpers, st: AbiState, r: RecordDecl): (o: Outcome)
    requires r.actionAttr.Some?
    ensures o.ok <==> h.validName(ChosenName(r.actionAttr.value, r.name))
    ensures o.st == if o.ok then st.(actions := st.actions + {RecordAction(r)}) else st
  {
    if !h.validName(RecordAction(r).name) then Outcome(false, st)
    else Outcome(true, st.(actions := st.actions + {RecordAction(r)}))
  }

  /** `add_action(const CXXMethodDecl*)`: an invalid name is only reported. */
  function MethodActionStep(st: AbiState, m: MethodDecl): (r: AbiState)
    requires m.actionAttr.Some?
    ensures r == st.(actions := st.actions + {MethodAction(m)})
  {
    st.(actions := st.actions + {MethodAction(m)})
  }

  // ---- tables ----

  /** The attribute table of a record: its type is the record's name, its name
      the attribute's name when non-empty, else the type. */
  function AttributeTable(r: RecordDecl): (t: AbiTable)
    requires r.tableAttr.Some?
    ensures t.rowType == r.name
    ensures t.name == ChosenName(r.tableAttr.value, r.name)
  {
    AbiTable(ChosenName(r.tableAttr.value, r.name), r.name)
  }

  /** `add_table(const CXXRecordDecl*)`: always goes to `ctables`; a failed
      name validation is swallowed. */
  function TableStep(st: AbiState, r: RecordDecl): (s: AbiState)
    requires r.tableAttr.Some?
    ensures s == st.(ctables := st.ctables + {AttributeTable(r)})
  {
    st.(ctables := st.ctables + {AttributeTable(r)})
  }

  /** The row record of a multi-index instantiation is one of the contract's tables. */
  predicate IsContractTable(r: RecordDecl)
  {
    r.tableAttr.Some? && r.inContract
  }

  /** `add_table(uint64_t, const CXXRecordDecl*)`: a no-op unless the row
      record is a table of the contract. */
  function MultiIndexStep(h: Helpers, st: AbiState, name: uint64, r: RecordDecl): (s: AbiState)
    ensures IsContractTable(r) ==> s == st.(tables := st.tables + {AbiTable(h.nameToString(name), r.name)})
    ensures !IsContractTable(r) ==> s == st
  {
    if !IsContractTable(r) then st
    else st.(tables := st.tables + {AbiTable(h.nameToString(name), r.name)})
  }

  // ---- EosioMethodMatcher::run ----

  /** The records the method callback's loop builds for one parameter: none
      for an ignorable parameter; the non-builtin record of its declared type;
      and the record inside a `vector`/`optional`. */
  function MethodParamDeps(p: ParamDecl): set<RecordDecl>
  {
    var t := p.paramType;
    if t.ignoredAs.Some? then {}
    else
      (match t.record
       case Some(rec) => if t.builtin then {} else {rec}
       case None => {}) +
      (match ElementRecord(t)
       case Some(e) => {e}
       case None => {})
  }

  /** The dependency loop of the method callback, for one parameter. */
  function MethodParamDepStep(st: AbiState, p: ParamDecl): (o: Outcome)
    ensures StructsOnlyGrow(st, o.st)
    ensures p.paramType.ignoredAs.Some? ==> o == Outcome(true, st)
    ensures o.ok <==> forall e :: e in MethodParamDeps(p) ==> SingleInheritance(e)
    ensures o.ok ==> forall e :: e in MethodParamDeps(p) ==> RecordStruct(e) in o.st.structs
    ensures o.ok ==> o.st.structs == st.structs + DepsClosure(MethodParamDeps(p))
  {
    var t := p.paramType;
    if t.ignoredAs.Some? then Outcome(true, st)
    else
      var o := match t.record
        case Some(rec) => if !t.builtin then assert rec in MethodParamDeps(p); WithRecord(st, rec) else Outcome(true, st)
        case None => Outcome(true, st);
      if !o.ok then o
      else
        match ElementRecord(t)
        case Some(e) => assert e in MethodParamDeps(p); WithRecord(o.st, e)
        case None => o
  }

  predicate MethodDepsSingle(m: MethodDecl, i: nat)
  {
    forall k, e :: i <= k < |m.params| && e in MethodParamDeps(m.params[k]) ==> SingleInheritance(e)
  }

  predicate MethodDepsIn(S: set<AbiStruct>, m: MethodDecl, i: nat)
  {
    forall k, e :: i <= k < |m.params| && e in MethodParamDeps(m.params[k]) ==> RecordStruct(e) in S
  }

  /** The structs the method callback's loop builds from the `i`-th parameter on. */
  function MethodDepsClosure(m: MethodDecl, i: nat): set<AbiStruct>
    requires i <= |m.params|
    decreases |m.params| - i
  {
    if i == |m.params| then {} else DepsClosure(MethodParamDeps(m.params[i])) + MethodDepsClosure(m, i + 1)
  }

  /** The method callback's loop over the parameters from the `i`-th on. */
  function MethodDepsStep(st: AbiState, m: MethodDecl, i: nat): (o: Outcome)
    requires i <= |m.params|
    ensures StructsOnlyGrow(st, o.st)
    ensures o.ok <==> MethodDepsSingle(m, i)
    ensures o.ok ==> MethodDepsIn(o.st.structs, m, i)
    ensures o.ok ==> o.st.structs == st.structs + MethodDepsClosure(m, i)
    decreases |m.params| - i
  {
    if i == |m.params| then Outcome(true, st)
    else
      var o := MethodParamDepStep(st, m.params[i]);
      if !o.ok then o else MethodDepsStep(o.st, m, i + 1)
  }

  /** A method that is an action of the contract: its struct, its action, then
      its parameters' dependencies; every other method is ignored. */
  function HandleMethodStep(st: AbiState, m: MethodDecl): (o: Outcome)
    ensures Extends(st, o.st) && o.st.tables == st.tables && o.st.ctables == st.ctables
    ensures !(m.actionAttr.Some? && m.inContract) ==> o == Outcome(true, st)
    ensures m.actionAttr.Some? && m.inContract ==> (o.ok <==> ParamsSingle(m, 0) && MethodDepsSingle(m, 0))
    ensures m.actionAttr.Some? && m.inContract && o.ok ==>
      MethodStruct(m) in o.st.structs && MethodAction(m) in o.st.actions &&
      ParamDepsIn(o.st.structs, m, 0) && MethodDepsIn(o.st.structs, m, 0)
    ensures m.actionAttr.Some? && m.inContract && o.ok ==>
      o.st.structs == st.structs + ParamsClosure(m, 0) + {MethodStruct(m)} + MethodDepsClosure(m, 0)
    ensures m.actionAttr.Some? && m.inContract && o.ok ==>
      o.st.actions == st.actions + {MethodAction(m)} && ParamTypedefs(st.typedefs, o.st.typedefs, m, 0)
    ensures m.actionAttr.Some? && m.inContract ==> o.st.actions <= st.actions + {MethodAction(m)}
  {
    if !(m.actionAttr.Some? && m.inContract) then Outcome(true, st)
    else
      var o := MethodStructStep(st, m);
      if !o.ok then o
      else MethodDepsStep(MethodActionStep(o.st, m), m, 0)
  }

  // ---- EosioRecordMatcher::run ----

  /** The records the record callback's loop builds for one field: none for a
      builtin type; the type's own record; and the record inside a
      `vector`/`optional`. */
  function FieldDeps(f: FieldDecl): set<RecordDecl>
  {
    var t := f.fieldType;
    if t.builtin then {}
    else
      (match t.record
       case Some(rec) => {rec}
       case None => {}) +
      (match ElementRecord(t)
       case Some(e) => {e}
       case None => {})
  }

  /** The dependency loop of the record callback, for one field: a non-builtin
      field type registers its typedef when aliasing, builds its record, and
      builds the record inside a `vector`/`optional`. */
  function RecordFieldDepStep(st: AbiState, f: FieldDecl): (o: Outcome)
    ensures TypesOnlyGrow(st, o.st)
    ensures o.st.typedefs == st.typedefs + (if AddsTypedef(f.fieldType) then {TypedefOf(f.fieldType)} else {})
    ensures o.ok <==> forall e :: e in FieldDeps(f) ==> SingleInheritance(e)
    ensures o.ok ==> forall e :: e in FieldDeps(f) ==> RecordStruct(e) in o.st.structs
    ensures o.ok ==> o.st.structs == st.structs + DepsClosure(FieldDeps(f))
  {
    var t := f.fieldType;
    if t.builtin then Outcome(true, st)
    else
      var st1 := if t.aliasing then TypedefStep(st, t) else st;
      var o := match t.record
        case Some(rec) => assert rec in FieldDeps(f); WithRecord(st1, rec)
        case None => Outcome(true, st1);
      if !o.ok then o
      else
        match ElementRecord(t)
        case Some(e) => assert e in FieldDeps(f); WithRecord(o.st, e)
        case None => o
  }

  predicate FieldDepsSingle(r: RecordDecl, i: nat)
  {
    forall k, e :: i <= k < |r.fields| && e in FieldDeps(r.fields[k]) ==> SingleInheritance(e)
  }

  predicate FieldDepsIn(S: set<AbiStruct>, r: RecordDecl, i: nat)
  {
    forall k, e :: i <= k < |r.fields| && e in FieldDeps(r.fields[k]) ==> RecordStruct(e) in S
  }

  /** `T` holds `T0` and the typedefs of the fields from the `i`-th on, and nothing else. */
  predicate FieldTypedefs(T0: set<AbiTypedef>, T: set<AbiTypedef>, r: RecordDecl, i: nat)
  {
    T0 <= T &&
    (forall k :: i <= k < |r.fields| && AddsTypedef(r.fields[k].fieldType) ==> TypedefOf(r.fields[k].fieldType) in T) &&
    (forall d :: d in T ==>
       d in T0 || exists k :: i <= k < |r.fields| && AddsTypedef(r.fields[k].fieldType) && d == TypedefOf(r.fields[k].fieldType))
  }

  /** The structs the record callback's loop builds from the `i`-th field on. */
  function FieldDepsClosure(r: RecordDecl, i: nat): set<AbiStruct>
    requires i <= |r.fields|
    decreases |r.fields| - i
  {
    if i == |r.fields| then {} else DepsClosure(FieldDeps(r.fields[i])) + FieldDepsClosure(r, i + 1)
  }

  /** The record callback's loop over the fields from the `i`-th on. */
  function RecordDepsStep(st: AbiState, r: RecordDecl, i: nat): (o: Outcome)
    requires i <= |r.fields|
    ensures TypesOnlyGrow(st, o.st)
    ensures o.ok <==> FieldDepsSingle(r, i)
    ensures o.ok ==> FieldDepsIn(o.st.structs, r, i) && FieldTypedefs(st.typedefs, o.st.typedefs, r, i)
    ensures o.ok ==> o.st.structs == st.structs + FieldDepsClosure(r, i)
    decreases |r.fields| - i
  {
    if i == |r.fields| then Outcome(true, st)
    else
      var o := RecordFieldDepStep(st, r.fields[i]);
      if !o.ok then o else RecordDepsStep(o.st, r, i + 1)
  }

  /** The action branch for a record: struct, action, field dependencies. */
  function RecordActionBranch(h: Helpers, st: AbiState, r: RecordDecl): (o: Outcome)
    requires r.actionAttr.Some?
    ensures Extends(st, o.st) && o.st.tables == st.tables && o.st.ctables == st.ctables
    ensures o.ok <==> SingleInheritance(r) && h.validName(ChosenName(r.actionAttr.value, r.name)) && FieldDepsSingle(r, 0)
    ensures !h.validName(ChosenName(r.actionAttr.value, r.name)) ==> o.st.actions == st.actions
    ensures o.ok ==> RecordStruct(r) in o.st.structs && RecordAction(r) in o.st.actions && FieldDepsIn(o.st.structs, r, 0)
    ensures o.ok ==> o.st.structs == st.structs + RecordClosure(r) + FieldDepsClosure(r, 0)
    ensures o.ok ==> o.st.actions == st.actions + {RecordAction(r)} && FieldTypedefs(st.typedefs, o.st.typedefs, r, 0)
    ensures o.st.actions <= st.actions + {RecordAction(r)}
  {
    var o := WithRecord(st, r);
    if !o.ok then o
    else
      var a := RecordActionStep(h, o.st, r);
      if !a.ok then a else RecordDepsStep(a.st, r, 0)
  }

  /** The table branch for a record: struct, attribute table, field dependencies. */
  function RecordTableBranch(st: AbiState, r: RecordDecl): (o: Outcome)
    requires r.tableAttr.Some?
    ensures Extends(st, o.st) && o.st.tables == st.tables && o.st.actions == st.actions
    ensures o.ok <==> SingleInheritance(r) && FieldDepsSingle(r, 0)
    ensures o.ok ==> RecordStruct(r) in o.st.structs && AttributeTable(r) in o.st.ctables && FieldDepsIn(o.st.structs, r, 0)
    ensures o.ok ==> o.st.structs == st.structs + RecordClosure(r) + FieldDepsClosure(r, 0)
    ensures o.ok ==> o.st.ctables == st.ctables + {AttributeTable(r)} && FieldTypedefs(st.typedefs, o.st.typedefs, r, 0)
    ensures o.st.ctables <= st.ctables + {AttributeTable(r)}
  {
    var o := WithRecord(st, r);
    if !o.ok then o else RecordDepsStep(TableStep(o.st, r), r, 0)
  }

  /** A record declaration: the action branch when it is an action of the
      contract, then the table branch when it is a table of the contract. */
  function HandleRecordDeclStep(h: Helpers, st: AbiState, r: RecordDecl): (o: Outcome)
    ensures Extends(st, o.st) && o.st.tables == st.tables
    ensures !((r.actionAttr.Some? || r.tableAttr.Some?) && r.inContract) ==> o == Outcome(true, st)
    ensures (r.actionAttr.Some? || r.tableAttr.Some?) && r.inContract && !SingleInheritance(r) ==> !o.ok
    ensures o.ok <==>
      (!(r.actionAttr.Some? && r.inContract) ||
       (SingleInheritance(r) && h.validName(ChosenName(r.actionAttr.value, r.name)) && FieldDepsSingle(r, 0))) &&
      (!(r.tableAttr.Some? && r.inContract) || (SingleInheritance(r) && FieldDepsSingle(r, 0)))
    ensures r.actionAttr.Some? && r.inContract && o.ok ==>
      RecordStruct(r) in o.st.structs && RecordAction(r) in o.st.actions
    ensures r.tableAttr.Some? && r.inContract && o.ok ==>
      RecordStruct(r) in o.st.structs && AttributeTable(r) in o.st.ctables
    ensures !(r.actionAttr.Some? && r.inContract) ==> o.st.actions == st.actions
    ensures !(r.tableAttr.Some? && r.inContract) ==> o.st.ctables == st.ctables
    ensures (r.actionAttr.Some? || r.tableAttr.Some?) && r.inContract && o.ok ==>
      o.st.structs == st.structs + RecordClosure(r) + FieldDepsClosure(r, 0)
    ensures (r.actionAttr.Some? || r.tableAttr.Some?) && r.inContract && o.ok ==>
      FieldTypedefs(st.typedefs, o.st.typedefs, r, 0)
    ensures r.actionAttr.Some? && r.inContract && o.ok ==> o.st.actions == st.actions + {RecordAction(r)}
    ensures r.tableAttr.Some? && r.inContract && o.ok ==> o.st.ctables == st.ctables + {AttributeTable(r)}
    ensures r.actionAttr.Some? && r.inContract ==> o.st.actions <= st.actions + {RecordAction(r)}
    ensures r.tableAttr.Some? && r.inContract ==> o.st.ctables <= st.ctables + {AttributeTable(r)}
  {
    var o := if r.actionAttr.Some? && r.inContract then RecordActionBranch(h, st, r) else Outcome(true, st);
    if !o.ok then o
    else if r.tableAttr.Some? && r.inContract then RecordTableBranch(o.st, r)
    else o
  }

  /** A node matched by the record callback: as a record declaration, then as
      a `multi_index` specialization. */
  function HandleRecordStep(h: Helpers, st: AbiState, node: MatchedNode): (o: Outcome)
    ensures Extends(st, o.st)
    ensures node.record.None? ==> o.ok
    ensures !o.ok ==> o.st.tables == st.tables
    ensures node.record.Some? ==>
      var d := HandleRecordDeclStep(h, st, node.record.value);
      o.ok == d.ok && o.st.structs == d.st.structs && o.st.typedefs == d.st.typedefs &&
      o.st.actions == d.st.actions && o.st.ctables == d.st.ctables
    ensures node.record.None? ==>
      o.st.actions == st.actions && o.st.ctables == st.ctables && o.st.structs == st.structs && o.st.typedefs == st.typedefs
    ensures (node.specialization.None? || node.specialization.value.name != "multi_index") ==>
      o.st.tables == st.tables
    ensures node.specialization.Some? && node.specialization.value.name == "multi_index" && o.ok ==>
      var spec := node.specialization.value;
      o.st.tables == st.tables +
        (if IsContractTable(spec.rowArg) then {AbiTable(h.nameToString(spec.nameArg), spec.rowArg.name)} else {})
  {
    var o := match node.record
      case Some(r) => HandleRecordDeclStep(h, st, r)
      case None => Outcome(true, st);
    if !o.ok then o
    else
      match node.specialization
      case Some(spec) =>
        if spec.name == "multi_index" then Outcome(true, MultiIndexStep(h, o.st, spec.nameArg, spec.rowArg))
        else o
      case None => o
  }
}
