# eosio ABI generator core, modelled in Dafny

This project models the ABI builder of the eosio ABI generator: the class
`abigen` and the two clang match callbacks that drive it. As the front end
visits a contract's declarations, the builder collects the contract's
interface description (ABI):

- structs derived from records and from action methods;
- typedefs;
- actions;
- tables, both attribute-declared and those instantiated through
  `multi_index<name, row>`.

Its `to_json` then merges the two kinds of tables, keeps the structs that
something names, and assembles the output object with a fixed key order.

Files and modules:

- `abi_types.dfy` (`AbiTypes`): the declaration graph as datatypes
  (`RecordDecl`, `FieldDecl`, `BaseSpec`, `QualType`, `MethodDecl`,
  `ParamDecl`, `TemplateSpec`, `MatchedNode`), the ABI items (`AbiStruct`,
  `AbiField`, `AbiTypedef`, `AbiAction`, `AbiTable`), the accumulated state
  `AbiState`, and the name-level helpers `Helpers`.
- `struct_builder.dfy` (`StructBuilder`): `add_struct` for a record as a
  function on the struct set (`RecordStep`), plus its lemmas. It fails exactly
  on multiple inheritance. What it adds does not depend on the structs already
  there. It is idempotent. On success it adds exactly the record's closure:
  the record's struct, its base's closure, the closures of its fields'
  `vector`/`optional` element records and the `extension` helper struct.
- `registry.dfy` (`Registry`): the other registration steps and the two
  callbacks ("handle one declaration") as functions on `AbiState`. Their
  contracts say exactly what each successful step adds (the closure of every
  record it builds, its typedefs, its action or table), what it leaves alone,
  and exactly when it raises, in terms of the records it visits. A step that
  raises keeps what it had added so far; for it the contracts state only that
  nothing was removed and that no action or table other than its own appears.
- `abi_json.dfy` (`AbiJson`): the output as an ordered object tree. It holds
  the `*_to_json` converters and a decoder for each. Each converter's contract
  states that its output decodes back to the item.
- `assembler.dfy` (`Assembler`): `remove_suffix`, the table merge, the
  single-pass pruning (`validate_struct`, whose loops are proved to compute
  its predicate) and their lemmas.
- `abigen.dfy` (`Abigen`): the class `AbiGen`. Its five set fields are updated
  in place. Each method is proved equal to the matching step function, and
  `ToJson` is proved against the assembler's definitions.

Foreign code is taken as given, never guessed:

- The helpers of `generation_utils` (eosio/gen.hpp) answer questions about one
  type: `get_type`, `is_builtin_type`, `is_aliasing`, `get_base_type_name`,
  `get_type_alias`, `is_ignorable`/`get_ignored_type`, and
  `is_template_specialization` with `get_template_argument`. Each answer is a
  field of `QualType`.
- `isRecordType`/`getAsCXXRecordDecl` is also a field of `QualType`.
- `validate_name`, `name_to_string` and `is_builtin_type` on a name are
  function-valued fields of `Helpers`.
- `is_eosio_contract(decl, contract_name)` is the flag `inContract` on each
  declaration.
- A raised `abigen_exception` is an outcome with `ok == false`. The state left
  behind is kept, as the exception leaves it.

Points where a reader might expect one behaviour and the code does another
(the model follows the code):

- Pruning is a single pass. A reader might expect a struct referred to only
  by a pruned struct to be pruned as well. The code checks references from
  every accumulated struct, pruned or not, so such a struct is kept
  (`Assembler.PrunedStructStillKeepsItsReferences`,
  `Assembler.ReferencedStructEmitted`).
- Rebuilding a struct does not replace it. The code inserts into a
  `std::set`, which keeps an element already present. The model uses set
  union.
- Invalid action names are handled asymmetrically.
  `add_action(const CXXRecordDecl*)` reports the name and rethrows.
  `add_action(const CXXMethodDecl*)` reports it and goes on to add the action.
- `add_table(const CXXRecordDecl*)` itself does not look at contract
  membership. The record callback calls it only for tables of the contract.

## Model

| member | source | states |
|---|---|---|
| StructBuilder.FieldOf | tools/extra/eosio_tool/abigen.hpp:121-136 | a record field keeps its name; `transaction_extensions` gets type `extension[]`, any other field its resolved type |
| StructBuilder.RecordStruct | tools/extra/eosio_tool/abigen.hpp:116-140 | the record's struct is named after the record, has the resolved single base (else empty) and one field per record field in declaration order |
| StructBuilder.RecordStep | tools/extra/eosio_tool/abigen.hpp:110-141 | `add_struct` on the struct set: it never removes a struct; more than one base raises with nothing inserted; on success the record's own struct is present |
| StructBuilder.FieldsStep | tools/extra/eosio_tool/abigen.hpp:121-137 | the field loop from a given field on never removes a struct |
| StructBuilder.FieldStep | tools/extra/eosio_tool/abigen.hpp:122-136 | one field never removes a struct; the `transaction_extensions` field succeeds and inserts the `extension` struct (`type: uint16`, `data: bytes`) |
| StructBuilder.RecordStepShift | tools/extra/eosio_tool/abigen.hpp:110-141 | what `add_struct` inserts, and whether it raises, do not depend on the structs already present |
| StructBuilder.RecordStepIdempotent | tools/extra/eosio_tool/abigen.hpp:110-141 | building the same record a second time changes nothing and gives the same outcome |
| StructBuilder.RecordStepOk | tools/extra/eosio_tool/abigen.hpp:110-141 | `add_struct` succeeds if and only if no record reached through bases and `vector`/`optional` element records has more than one base |
| StructBuilder.FieldsStepOk | tools/extra/eosio_tool/abigen.hpp:121-137 | the field loop succeeds if and only if every element record it builds is single-inheritance |
| StructBuilder.FieldStepOk | tools/extra/eosio_tool/abigen.hpp:122-136 | one field succeeds if and only if it is the extensions field or its element record (if any) is single-inheritance |
| StructBuilder.FieldsStepInsertsExtension | tools/extra/eosio_tool/abigen.hpp:122-129 | a `transaction_extensions` field inserts the `extension` struct (`type: uint16`, `data: bytes`) |
| StructBuilder.FieldsStepInsertsElement | tools/extra/eosio_tool/abigen.hpp:131-135 | a non-extension field whose type is a `vector`/`optional` of a record builds that element record's struct |
| StructBuilder.RecordStepInserts | tools/extra/eosio_tool/abigen.hpp:116-140 | on success: the record's struct is present; with one base, the base is the resolved base type and the base's struct is present; every non-extension field's `vector`/`optional` element record has its struct; the `extension` struct is present when a field asks for it |
| StructBuilder.RecordClosure | tools/extra/eosio_tool/abigen.hpp:110-141 | the structs a successful `add_struct` inserts, defined over the declaration alone: the record's struct, its single base's closure, `extension` for the extensions field, and each other field's `vector`/`optional` element record's closure |
| StructBuilder.RecordStepClosure | tools/extra/eosio_tool/abigen.hpp:110-141 | a successful `add_struct` inserts exactly the record's closure and nothing else |
| StructBuilder.FieldsStepClosure | tools/extra/eosio_tool/abigen.hpp:121-137 | a successful field loop inserts exactly its fields' closures |
| StructBuilder.FieldStepClosure | tools/extra/eosio_tool/abigen.hpp:122-136 | a successful field step inserts exactly that field's closure |
| Registry.WithRecord | tools/extra/eosio_tool/abigen.hpp:110-141 | `add_struct` changes only the structs, only adds, succeeds iff single inheritance, and on success holds the record's struct; on success the structs gained are exactly the record's closure |
| Registry.TypedefStep | tools/extra/eosio_tool/abigen.hpp:53-58 | `add_typedef` adds exactly the typedef `{get_base_type_name, get_type_alias}` and changes nothing else |
| Registry.MethodStruct | tools/extra/eosio_tool/abigen.hpp:143-164 | a method's struct is named after the method, has an empty base and one field per parameter, in order, named after the parameter with the (ignored-replaced) type |
| Registry.ParamType | tools/extra/eosio_tool/abigen.hpp:147-149 | the type a parameter contributes: `get_ignored_type` of its declared type when ignorable, else the declared type without reference and qualifiers |
| Registry.ParamDeps | tools/extra/eosio_tool/abigen.hpp:151-159 | the records one parameter makes `add_struct` visit: none for a builtin type, else the type's record, or else its `vector`/`optional` element record |
| Registry.DepsClosure | tools/extra/eosio_tool/abigen.hpp:151-159 | the structs that building each of a set of records inserts: the union of their closures |
| Registry.ParamStep | tools/extra/eosio_tool/abigen.hpp:146-161 | one parameter adds exactly its typedef when its type is non-builtin and aliasing; it raises iff a record it visits has multiple inheritance; on success those records' structs are present; on success the structs gained are exactly the closures of those records |
| Registry.ParamsStep | tools/extra/eosio_tool/abigen.hpp:146-162 | the parameter loop raises iff some parameter's visited record has multiple inheritance; on success every visited record's struct is present and the typedefs gained are exactly the aliasing parameters' typedefs; on success the structs gained are exactly the parameters' closures |
| Registry.MethodStructStep | tools/extra/eosio_tool/abigen.hpp:143-164 | only structs and typedefs grow; it raises iff some parameter's visited record has multiple inheritance; on success the method's struct, every visited record's struct and exactly the parameters' typedefs are present; on success the structs gained are exactly the parameters' closures and the method's struct |
| Registry.ChosenName | tools/extra/eosio_tool/abigen.hpp:62-81 | the attribute's name when non-empty, otherwise the declaration's name |
| Registry.RecordAction | tools/extra/eosio_tool/abigen.hpp:60-84 | a record action's name is the chosen name; its type is always the record's name; its ricardian contract is empty |
| Registry.MethodAction | tools/extra/eosio_tool/abigen.hpp:86-108 | a method action's name is the chosen name; its type is always the method's name |
| Registry.RecordActionStep | tools/extra/eosio_tool/abigen.hpp:60-84 | succeeds iff the chosen name validates; an invalid name raises with the state unchanged; otherwise only the action is added |
| Registry.MethodActionStep | tools/extra/eosio_tool/abigen.hpp:86-108 | the method action is added whether or not its name validates |
| Registry.AttributeTable | tools/extra/eosio_tool/abigen.hpp:170-186 | an attribute table's type is the record's name; its name is the attribute's name if non-empty, else the type |
| Registry.TableStep | tools/extra/eosio_tool/abigen.hpp:170-186 | `add_table(decl)` adds only to the attribute tables, never to the multi-index tables, and never raises |
| Registry.MultiIndexStep | tools/extra/eosio_tool/abigen.hpp:188-195 | `add_table(name, decl)` only adds `{name_to_string(name), record name}` to the multi-index tables when the record is a table of the contract, and otherwise changes nothing |
| Registry.MethodParamDeps | tools/extra/eosio_tool/abigen.hpp:351-363 | the records the method callback builds for one parameter: none when ignorable; the record of a non-builtin declared type; and the `vector`/`optional` element record |
| Registry.MethodParamDepStep | tools/extra/eosio_tool/abigen.hpp:351-363 | skips an ignorable parameter; only adds structs; raises iff a record it builds has multiple inheritance; on success those records' structs are present; on success the structs gained are exactly those records' closures |
| Registry.MethodDepsStep | tools/extra/eosio_tool/abigen.hpp:350-364 | the callback's parameter loop only adds structs, raises iff some parameter's built record has multiple inheritance, and on success holds every such record's struct; on success the structs gained are exactly those closures |
| Registry.HandleMethodStep | tools/extra/eosio_tool/abigen.hpp:344-367 | ignores a method that is not an action of the contract; never touches tables; for an action of the contract it succeeds iff every record `add_struct` and the dependency loop visit is single-inheritance, and on success the method's struct, its action and all those records' structs are present; on success the structs gained are exactly the closures both loops build, plus the method's struct, the actions gained are exactly the method's action, and the typedefs gained are exactly its aliasing parameters' typedefs; no other action is ever added |
| Registry.FieldDeps | tools/extra/eosio_tool/abigen.hpp:379-388 | the records the record callback builds for one field: none for a builtin type; the type's record; and the `vector`/`optional` element record |
| Registry.RecordFieldDepStep | tools/extra/eosio_tool/abigen.hpp:379-388 | one field adds exactly its typedef when non-builtin and aliasing; it raises iff a record it builds has multiple inheritance; on success those records' structs are present; on success the structs gained are exactly those records' closures |
| Registry.RecordDepsStep | tools/extra/eosio_tool/abigen.hpp:378-389 | the field loop raises iff some field's built record has multiple inheritance; on success every such struct is present and the typedefs gained are exactly the aliasing fields' typedefs; on success the structs gained are exactly those closures |
| Registry.RecordActionBranch | tools/extra/eosio_tool/abigen.hpp:375-390 | only adds; never touches tables; succeeds iff the record is single-inheritance, its chosen name validates and every field dependency is single-inheritance; an invalid name leaves the actions alone; on success the record's struct, its action and its field dependencies' structs are present; on success the structs gained are exactly the record's closure and its field dependencies' closures, the actions gained are exactly the record's action, and the typedefs gained are exactly its aliasing fields' typedefs; no other action is ever added |
| Registry.RecordTableBranch | tools/extra/eosio_tool/abigen.hpp:391-405 | only adds; never touches actions or multi-index tables; succeeds iff the record and every field dependency are single-inheritance; on success the record's struct, its attribute table and its field dependencies' structs are present; on success the structs gained are exactly the record's closure and its field dependencies' closures, the attribute tables gained are exactly the record's table, and the typedefs gained are exactly its aliasing fields' typedefs; no other attribute table is ever added |
| Registry.HandleRecordDeclStep | tools/extra/eosio_tool/abigen.hpp:374-406 | ignores records that are neither an action nor a table of the contract; succeeds iff each branch that applies succeeds; registers the action and/or the attribute table; leaves multi-index tables alone; on success for an action or table of the contract, the structs gained are exactly the record's closure and its field dependencies' closures, the typedefs gained exactly its aliasing fields' typedefs, the actions gained exactly its action (when it is an action) and the attribute tables gained exactly its table (when it is a table); no other action or attribute table is ever added |
| Registry.HandleRecordStep | tools/extra/eosio_tool/abigen.hpp:373-414 | a node with no record succeeds and changes no struct, typedef, action or attribute table; a record node succeeds exactly when `HandleRecordDeclStep` does and leaves the same structs, typedefs, actions and attribute tables; only a `multi_index` specialization changes the multi-index tables: when the record part raises they stay unchanged, and otherwise they gain exactly the table a contract-table row record gives |
| AbiJson.ToIndexType | tools/extra/eosio_tool/abigen.hpp:166-168 | every table's index type is `i64`, whatever its type |
| AbiJson.StructJson | tools/extra/eosio_tool/abigen.hpp:207-219 | keys name, base, fields in that order; the struct is read back from it |
| AbiJson.StructToJson | tools/extra/eosio_tool/abigen.hpp:207-219 | the object has keys name, base, fields, and the fields array holds each field as `{name, type}` in order; it decodes back to the struct |
| AbiJson.TypedefToJson | tools/extra/eosio_tool/abigen.hpp:221-226 | keys new_type_name, type; the typedef is read back from it |
| AbiJson.ActionToJson | tools/extra/eosio_tool/abigen.hpp:228-234 | keys name, type, ricardian_contract; the action is read back from it |
| AbiJson.TableToJson | tools/extra/eosio_tool/abigen.hpp:238-246 | keys name, type, index_type, key_names, key_types; the index type is `i64` and both key lists are empty; the table is read back from it |
| AbiJson.FieldsRoundTrip | tools/extra/eosio_tool/abigen.hpp:212-217 | the encoded field list decodes back to the same fields in the same order |
| Assembler.StripSuffix | tools/extra/eosio_tool/abigen.hpp:253-259 | the result is a prefix that is empty or ends in a character other than `[`, `]`, `?`, and only those characters were removed |
| Assembler.StripSuffixUnique | tools/extra/eosio_tool/abigen.hpp:253-259 | those properties fix the result: it is the longest prefix not ending in a suffix character |
| Assembler.StripSuffixIdempotent | tools/extra/eosio_tool/abigen.hpp:253-259 | stripping twice equals stripping once |
| Assembler.StripSuffixExamples | tools/extra/eosio_tool/abigen.hpp:253-259 | `Foo?[]` gives `Foo`; `Foo` stays; the empty string stays |
| Assembler.RemoveSuffix | tools/extra/eosio_tool/abigen.hpp:253-259 | the countdown loop computes the stripped name |
| Assembler.MergedTables | tools/extra/eosio_tool/abigen.hpp:261-276 | every multi-index table is emitted; an attribute table is emitted iff no multi-index table has its row type; an emitted table whose type has a multi-index table is a multi-index table |
| Assembler.RefersTo | tools/extra/eosio_tool/abigen.hpp:281-287 | an accumulated struct names a struct through a field whose type, suffixes removed, is its name, or through its base |
| Assembler.CheckRefers | tools/extra/eosio_tool/abigen.hpp:281-287 | the loop over one struct's fields, each type stripped by `RemoveSuffix`, then its base, computes `RefersTo` |
| Assembler.ValidateStruct | tools/extra/eosio_tool/abigen.hpp:278-298 | `validate_struct`: not builtin, and named by some accumulated struct, by some action's type or by some merged table's row type |
| Assembler.CheckStruct | tools/extra/eosio_tool/abigen.hpp:278-298 | the early-returning loops over the structs, the actions and the merged tables compute exactly `ValidateStruct` |
| Assembler.Kept | tools/extra/eosio_tool/abigen.hpp:300-303 | exactly the structs that pass `validate_struct` |
| Assembler.EmittedStructs | tools/extra/eosio_tool/abigen.hpp:278-303 | emitted structs are some of the accumulated structs and none has a builtin name |
| Assembler.ActionStructEmitted | tools/extra/eosio_tool/abigen.hpp:289-292 | the struct an action's type names is emitted unless builtin |
| Assembler.TableStructEmitted | tools/extra/eosio_tool/abigen.hpp:293-296 | the row struct of an emitted table is emitted unless builtin |
| Assembler.ReferencedStructEmitted | tools/extra/eosio_tool/abigen.hpp:281-288 | a struct named by a field type (suffixes removed) or as base of any accumulated struct is emitted unless builtin |
| Assembler.PrunedStructStillKeepsItsReferences | tools/extra/eosio_tool/abigen.hpp:278-303 | a struct named by nothing is pruned while the struct it refers to is kept |
| Assembler.EmitAll | tools/extra/eosio_tool/abigen.hpp:304-315 | the loop over a set emits each element's encoding exactly once |
| Assembler.EmitStructs | tools/extra/eosio_tool/abigen.hpp:300-303 | the struct loop emits, each once, exactly the accumulated structs passing `validate_struct` |
| Abigen.AbiGen.constructor | tools/extra/eosio_tool/abigen.hpp:330-334 | a new builder holds no structs, typedefs, actions or tables |
| Abigen.AbiGen.AddTypedef | tools/extra/eosio_tool/abigen.hpp:53-58 | adds the typedef and nothing else |
| Abigen.AbiGen.AddRecordAction | tools/extra/eosio_tool/abigen.hpp:60-84 | the new state is that of `Registry.RecordActionStep`; it fails iff the chosen name is invalid |
| Abigen.AbiGen.AddMethodAction | tools/extra/eosio_tool/abigen.hpp:86-108 | the new state is that of `Registry.MethodActionStep` |
| Abigen.AbiGen.AddRecordStruct | tools/extra/eosio_tool/abigen.hpp:110-141 | the outcome and new struct set are those of `StructBuilder.RecordStep`; more than one base raises with nothing inserted |
| Abigen.AbiGen.AddMethodStruct | tools/extra/eosio_tool/abigen.hpp:143-164 | the outcome and new state are those of `Registry.MethodStructStep` |
| Abigen.AbiGen.AddParamDependencies | tools/extra/eosio_tool/abigen.hpp:146-159 | the outcome and new state are those of `Registry.ParamStep`, and the returned type is `Registry.ParamType` |
| Abigen.AbiGen.AddTable | tools/extra/eosio_tool/abigen.hpp:170-186 | the new state is that of `Registry.TableStep` |
| Abigen.AbiGen.AddMultiIndexTable | tools/extra/eosio_tool/abigen.hpp:188-195 | the new state is that of `Registry.MultiIndexStep` |
| Abigen.AbiGen.MergeTables | tools/extra/eosio_tool/abigen.hpp:261-276 | the nested loops compute exactly `Assembler.MergedTables` |
| Abigen.AbiGen.ToJson | tools/extra/eosio_tool/abigen.hpp:248-320 | keys in the fixed order; the emitted structs, all typedefs, all actions and the merged tables, each once; empty ricardian clauses and extensions |
| Abigen.AbiGen.AddFieldDependencies | tools/extra/eosio_tool/abigen.hpp:378-389 | the outcome and new state are those of `Registry.RecordDepsStep` |
| Abigen.AbiGen.HandleMethod | tools/extra/eosio_tool/abigen.hpp:344-367 | the outcome and new state are those of `Registry.HandleMethodStep` |
| Abigen.AbiGen.AddMethodParamDependencies | tools/extra/eosio_tool/abigen.hpp:351-363 | the outcome and new struct set are those of `Registry.MethodParamDepStep`, including the `continue` on an ignorable parameter |
| Abigen.AbiGen.HandleRecord | tools/extra/eosio_tool/abigen.hpp:373-414 | the outcome and new state are those of `Registry.HandleRecordStep` |

## Left out

- `generate_json_comment` (tools/extra/eosio_tool/abigen.hpp:197-205) reads the system clock. The comment is a parameter of `ToJson`.
- The jsoncons `ojson` rendering. The output is an ordered object tree with the same keys in the same order.
- The bodies of the `generation_utils` helpers in eosio/gen.hpp, which is not part of this model. Their answers are inputs, as described above.
- `operator<` and equality of the ABI items, from abi.hpp, which is not part of this model. Sets use structural equality. Two different structs with the same name are both kept; a name-keyed `operator<` would keep the first one inserted.
- The default values of abi.hpp's items. An action's ricardian contract is taken to start empty, and `_abi.version` is a constructor parameter.
- Abigen.AbiGen.ToJson: the order of the output arrays is not stated. It is the iteration order of `std::set` under that `operator<`. The contract states each array's contents, with each item once.
- Assembler.EmitAll: the same; the order of the emitted items is left open.
- Assembler.EmitStructs: the same; the order of the emitted structs is left open.
- Cyclic declaration graphs cannot be represented: declarations are finite datatype values. A record reaching itself through a `vector`/`optional` field or a base would make the source's `add_struct` recurse without end.
- The pointer set `tables` (abigen.hpp:171, 332). Nothing in the core reads it.
- The clang plumbing:
  - the static matchers (abigen.hpp:45-48);
  - `getCanonicalDecl` (abigen.hpp:345);
  - the casts that fetch the `multi_index` arguments (abigen.hpp:410-411). The integral argument is given as a `uint64`.
- The global singleton `get_abigen_ref` (abigen.hpp:337-340). The builder is an object that the callbacks are methods of.
- The empty `run` stub and `get_abi_ref` (abigen.hpp:322-325).
- `set_contract_name`/`get_contract_name` (abigen.hpp:327-328). The contract name only matters through `is_eosio_contract`, which is the `inContract` flag.
- Console output and the exception type (abigen.hpp:39-43). A raise is `ok == false`.
- `remove_suffix` indexes with a C++ `int`. Names longer than `INT_MAX` characters are not modelled.
- test/OpenMP/parallel_for_ordered_messages.cpp: a diagnostic test with no logic of its own.
