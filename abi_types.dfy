/** The values the ABI builder works on: the declaration graph handed over by the
    C++ front end, the ABI items it accumulates, and the name-level helpers of
    the generation utilities, which this model takes as parameters. */
module AbiTypes {

  newtype uint64 = x: int | 0 <= x < 0x1_0000_0000_0000_0000

  datatype Option<+T> = None | Some(value: T)

  /** What the front end and the generation utilities answer about one type.
      Every field is the answer of one foreign query and is taken as given:
      - abiName: `get_type(t)`, the ABI spelling of the type (with `[]`/`?` suffixes);
      - builtin: `is_builtin_type(t)`;
      - aliasing, baseTypeName, typeAlias: `is_aliasing(t)`, `get_base_type_name(t)`
        and `get_type_alias(t)`, read by `add_typedef`;
      - ignoredAs: `Some(get_ignored_type(t))` exactly when `is_ignorable(t)`;
      - record: `Some(t->getAsCXXRecordDecl())` exactly when `t->isRecordType()`;
      - containerArg: `Some(get_template_argument(t))` exactly when
        `is_template_specialization(t, {"vector", "optional"})`. */
  datatype QualType = QualType(
    abiName: string,
    builtin: bool,
    aliasing: bool,
    baseTypeName: string,
    typeAlias: string,
    ignoredAs: Option<QualType>,
    record: Option<RecordDecl>,
    containerArg: Option<QualType>)

  /** A data member of a record, in declaration order within the record. */
  datatype FieldDecl = FieldDecl(name: string, fieldType: QualType)

  /** A direct base class: `get_type` of the base type, and the base's declaration. */
  datatype BaseSpec = BaseSpec(typeName: string, decl: RecordDecl)

  /** A C++ record declaration. `actionAttr`/`tableAttr` are `Some(n)` when the
      record carries the eosio action or table attribute, `n` being the name
      given in the attribute (possibly empty). `inContract` is the answer of
      `is_eosio_contract(decl, contract_name)` for the run's contract name. */
  datatype RecordDecl = RecordDecl(
    name: string,
    bases: seq<BaseSpec>,
    fields: seq<FieldDecl>,
    actionAttr: Option<string>,
    tableAttr: Option<string>,
    inContract: bool)

  /** A method parameter: its declared type and, separately, that type with the
      reference and the qualifiers removed (`getNonReferenceType().getUnqualifiedType()`). */
  datatype ParamDecl = ParamDecl(name: string, paramType: QualType, valueType: QualType)

  /** A C++ member function declaration. */
  datatype MethodDecl = MethodDecl(
    name: string,
    params: seq<ParamDecl>,
    actionAttr: Option<string>,
    inContract: bool)

  /** A class template specialization: the template's name and, were it a
      `multi_index`, its integral first argument and its record second argument. */
  datatype TemplateSpec = TemplateSpec(name: string, nameArg: uint64, rowArg: RecordDecl)

  /** One declaration handed to the record match callback: it may be seen as a
      record declaration, as a template specialization, or as both. */
  datatype MatchedNode = MatchedNode(record: Option<RecordDecl>, specialization: Option<TemplateSpec>)

  // ABI items

  datatype AbiField = AbiField(name: string, typeName: string)

  /** A struct; `base` is empty when the struct has no base. */
  datatype AbiStruct = AbiStruct(name: string, base: string, fields: seq<AbiField>)

  datatype AbiTypedef = AbiTypedef(newTypeName: string, aliasedType: string)

  datatype AbiAction = AbiAction(name: string, structType: string, ricardianContract: string)

  datatype AbiTable = AbiTable(name: string, rowType: string)

  /** The name-level helpers of the generation utilities:
      - validName: `validate_name(n, error_handler)` returns without raising;
      - nameToString: `name_to_string`, decoding a 64-bit encoded name;
      - builtinName: `is_builtin_type` applied to a type name. */
  datatype Helpers = Helpers(
    validName: string -> bool,
    nameToString: uint64 -> string,
    builtinName: string -> bool)

  /** Everything the builder accumulates: `_abi.structs`, `_abi.typedefs`,
      `_abi.actions`, `_abi.tables` (multi-index tables) and `ctables`
      (attribute-declared tables). */
  datatype AbiState = AbiState(
    structs: set<AbiStruct>,
    typedefs: set<AbiTypedef>,
    actions: set<AbiAction>,
    tables: set<AbiTable>,
    ctables: set<AbiTable>)

  /** The result of a step that may raise the builder's fatal exception: `ok`
      is false when it raised, and `st` is then the state the raise left behind. */
  datatype Outcome = Outcome(ok: bool, st: AbiState)

  const EmptyState := AbiState({}, {}, {}, {}, {})

  /** Every set of `b` contains the corresponding set of `a`. */
  predicate Extends(a: AbiState, b: AbiState)
  {
    a.structs <= b.structs && a.typedefs <= b.typedefs && a.actions <= b.actions &&
    a.tables <= b.tables && a.ctables <= b.ctables
  }

  /** When it holds, `is_template_specialization(t, {"vector", "optional"})`
      and the template argument is a record: the record the builders recurse into. */
  function ElementRecord(t: QualType): Option<RecordDecl>
  {
    match t.containerArg
    case Some(arg) => arg.record
    case None => None
  }
}
