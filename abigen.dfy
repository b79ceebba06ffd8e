/** The ABI builder object: the sets it accumulates while the match callbacks
    visit declarations, the `add_*` operations that update them in place, and
    `to_json`, which merges, prunes and assembles the output object. Each
    operation is proved against the state-step functions of Registry and
    StructBuilder, and `to_json` against the definitions of Assembler. */
module Abigen {
  import opened AbiTypes
  import opened StructBuilder
  import opened Registry
  import opened AbiJson
  import opened Assembler

  class AbiGen {
    /** The generation utilities' name-level helpers. */
    const helpers: Helpers
    /** `_abi.version`; its default value is set in abi.hpp, which is not part of this model. */
    const version: string

    var structs: set<AbiStruct>
    var typedefs: set<AbiTypedef>
    var actions: set<AbiAction>
    /** The multi-index tables. */
    var tables: set<AbiTable>
    /** The attribute-declared tables. */
    var ctables: set<AbiTable>

    function State(): AbiState
      reads this
    {
      AbiState(structs, typedefs, actions, tables, ctables)
    }

    constructor (helpers: Helpers, version: string)
      ensures this.helpers == helpers && this.version == version
      ensures State() == EmptyState
    {
      this.helpers := helpers;
      this.version := version;
      structs, typedefs, actions, tables, ctables := {}, {}, {}, {}, {};
    }

    /** `add_typedef`. */
    method AddTypedef(t: QualType)
      modifies this`typedefs
      ensures State() == TypedefStep(old(State()), t)
    {
      typedefs := typedefs + {AbiTypedef(t.baseTypeName, t.typeAlias)};
    }

    /** `add_action(const CXXRecordDecl*)`: an invalid name raises and
      registers nothing. */
    method AddRecordAction(r: RecordDecl) returns (ok: bool)
      requires r.actionAttr.Some?
      modifies this`actions
      ensures Outcome(ok, State()) == RecordActionStep(helpers, old(State()), r)
      ensures ok <==> helpers.validName(ChosenName(r.actionAttr.value, r.name))
    {
      var actionName := r.actionAttr.value;
      var name: string;
      if actionName == "" {
        ok := helpers.validName(r.name);
        name := r.name;
      } else {
        ok := helpers.validName(actionName);
        name := actionName;
      }
      if !ok {
        return;
      }
      actions := actions + {AbiAction(name, r.name, "")};
    }

    /** `add_action(const CXXMethodDecl*)`: the name is registered whether or
        not it validates. */
    method AddMethodAction(m: MethodDecl)
      requires m.actionAttr.Some?
      modifies this`actions
      ensures State() == MethodActionStep(old(State()), m)
    {
      var actionName := m.actionAttr.value;
      var name := if actionName == "" then m.name else actionName;
      actions := actions + {AbiAction(name, m.name, "")};
    }

    /** `add_struct(const CXXRecordDecl*)`. */
    method AddRecordStruct(r: RecordDecl) returns (ok: bool)
      modifies this`structs
      ensures Built(ok, structs) == RecordStep(old(structs), r)
      ensures |r.bases| > 1 ==> !ok && structs == old(structs)
      decreases r
    {
      if |r.bases| > 1 {
        return false;
      }
      var base := "";
      if |r.bases| == 1 {
        base := r.bases[0].typeName;
        ok := AddRecordStruct(r.bases[0].decl);
        if !ok {
          return;
        }
      }
      ghost var afterBase := structs;
      var fields: seq<AbiField> := [];
      for i := 0 to |r.fields|
        invariant FieldsStep(afterBase, r, 0) == FieldsStep(structs, r, i)
        invariant |fields| == i
        invariant forall k :: 0 <= k < i ==> fields[k] == FieldOf(r.fields[k])
      {
        var field := r.fields[i];
        if field.name == ExtensionsField {
          var ext := AbiStruct("extension", "", [AbiField("type", "uint16"), AbiField("data", "bytes")]);
          fields := fields + [AbiField(ExtensionsField, "extension[]")];
          structs := structs + {ext};
        } else {
          fields := fields + [AbiField(field.name, field.fieldType.abiName)];
          var t := field.fieldType;
          if t.containerArg.Some? && t.containerArg.value.record.Some? {
            ok := AddRecordStruct(t.containerArg.value.record.value);
            if !ok {
              return;
            }
          }
        }
      }
      assert fields == FieldsOf(r.fields);
      structs := structs + {AbiStruct(r.name, base, fields)};
      ok := true;
    }

    /** The body of the parameter loop of `add_struct(const CXXMethodDecl*)`
        for one parameter: its typedef, then its record or else the record
        inside a `vector`/`optional`. */
    method AddParamDependencies(param: ParamDecl) returns (ok: bool, paramType: QualType)
      modifies this`structs, this`typedefs
      ensures Outcome(ok, State()) == ParamStep(old(State()), param)
      ensures paramType == ParamType(param)
    {
      paramType := param.valueType;
      if param.paramType.ignoredAs.Some? {
        paramType := param.paramType.ignoredAs.value;
      }
      ok := true;
      if !paramType.builtin {
        if paramType.aliasing {
          AddTypedef(paramType);
        }
        if paramType.record.Some? {
          ok := AddRecordStruct(paramType.record.value);
        } else if paramType.containerArg.Some? && paramType.containerArg.value.record.Some? {
          ok := AddRecordStruct(paramType.containerArg.value.record.value);
        }
      }
    }

    /** `add_struct(const CXXMethodDecl*)`. */
    method AddMethodStruct(m: MethodDecl) returns (ok: bool)
      modifies this`structs, this`typedefs
      ensures Outcome(ok, State()) == MethodStructStep(old(State()), m)
    {
      ghost var start := State();
      var fields: seq<AbiField> := [];
      for i := 0 to |m.params|
        invariant ParamsStep(start, m, 0) == ParamsStep(State(), m, i)
        invariant |fields| == i
        invariant forall k :: 0 <= k < i ==> fields[k] == AbiField(m.params[k].name, ParamType(m.params[k]).abiName)
      {
        var paramType;
        ok, paramType := AddParamDependencies(m.params[i]);
        if !ok {
          return;
        }
        fields := fields + [AbiField(m.params[i].name, paramType.abiName)];
      }
      assert AbiStruct(m.name, "", fields) == MethodStruct(m);
      structs := structs + {AbiStruct(m.name, "", fields)};
      ok := true;
    }

    /** `add_table(const CXXRecordDecl*)`: a failed validation of the
        attribute's name is swallowed. */
    method AddTable(r: RecordDecl)
      requires r.tableAttr.Some?
      modifies this`ctables
      ensures State() == TableStep(old(State()), r)
    {
      var tableName := r.tableAttr.value;
      var t := AbiTable(r.name, r.name);
      if tableName != "" {
        t := t.(name := tableName);
      }
      ctables := ctables + {t};
    }

    /** `add_table(uint64_t, const CXXRecordDecl*)`. */
    method AddMultiIndexTable(name: uint64, r: RecordDecl)
      modifies this`tables
      ensures State() == MultiIndexStep(helpers, old(State()), name, r)
    {
      if !(r.tableAttr.Some? && r.inContract) {
        return;
      }
      tables := tables + {AbiTable(helpers.nameToString(name), r.name)};
    }

    /** The nested loops of `to_json` that build `set_of_tables`. For each
        attribute table the inner loop walks the multi-index tables, stopping
        at one with the same row type and inserting those it passes; the
        attribute table is kept only when no multi-index table matched. */
    method MergeTables() returns (merged: set<AbiTable>)
      ensures merged == MergedTables(ctables, tables)
    {
      merged := {};
      var restC := ctables;
      while restC != {}
        invariant restC <= ctables
        invariant forall x :: x in merged ==>
          x in tables || (x in ctables && x !in restC && !HasMultiIndex(tables, x.rowType))
        invariant forall x :: x in ctables && x !in restC && !HasMultiIndex(tables, x.rowType) ==> x in merged
        decreases |restC|
      {
        var t :| t in restC;
        var hasMultiIndex := false;
        var restU := tables;
        while restU != {}
          invariant restU <= tables
          invariant forall x :: x in merged ==>
            x in tables || (x in ctables && x !in restC && !HasMultiIndex(tables, x.rowType))
          invariant forall x :: x in ctables && x !in restC && !HasMultiIndex(tables, x.rowType) ==> x in merged
          invariant hasMultiIndex ==> HasMultiIndex(tables, t.rowType)
          invariant !hasMultiIndex ==> forall u :: u in tables && u !in restU ==> u.rowType != t.rowType
          decreases |restU|
        {
          var u :| u in restU;
          if t.rowType == u.rowType {
            hasMultiIndex := true;
            break;
          }
          merged := merged + {u};
          restU := restU - {u};
        }
        if !hasMultiIndex {
          merged := merged + {t};
        }
        restC := restC - {t};
      }
      var restT := tables;
      while restT != {}
        invariant restT <= tables
        invariant forall x :: x in merged ==> x in tables || (x in ctables && !HasMultiIndex(tables, x.rowType))
        invariant forall x :: x in ctables && !HasMultiIndex(tables, x.rowType) ==> x in merged
        invariant forall x :: x in tables && x !in restT ==> x in merged
        decreases |restT|
      {
        var u :| u in restT;
        merged := merged + {u};
        restT := restT - {u};
      }
    }

    /** `to_json`: the comment (which the source takes from the clock) is a
        parameter; the structs are those that pass `validate_struct` in one
        pass; typedefs and actions are all emitted; the tables are the merged
        ones; the two trailing arrays are empty. */
    method ToJson(comment: string) returns (o: Json)
      ensures o.JObj? && Keys(o.members) == TopLevelKeys
      ensures o.members[0].value == JStr(comment) && o.members[1].value == JStr(version)
      ensures Lists(o.members[2].value, EmittedStructs(helpers, State()), StructJson)
      ensures Lists(o.members[3].value, typedefs, TypedefToJson)
      ensures Lists(o.members[4].value, actions, ActionToJson)
      ensures Lists(o.members[5].value, MergedTables(ctables, tables), TableToJson)
      ensures o.members[6].value == JArr([]) && o.members[7].value == JArr([])
    {
      var merged := MergeTables();
      var structsOut := EmitStructs(helpers, State(), merged);
      var typesOut := EmitAll(typedefs, TypedefToJson);
      var actionsOut := EmitAll(actions, ActionToJson);
      var tablesOut := EmitAll(merged, TableToJson);
      o := JObj([
        Member("____comment", JStr(comment)),
        Member("version", JStr(version)),
        Member("structs", JArr(structsOut)),
        Member("types", JArr(typesOut)),
        Member("actions", JArr(actionsOut)),
        Member("tables", JArr(tablesOut)),
        Member("ricardian_clauses", JArr([])),
        Member("abi_extensions", JArr([]))]);
      assert Keys(o.members) == TopLevelKeys;
    }

    /** The dependency loop over a record's fields shared by both branches of
        the record callback. */
    method AddFieldDependencies(r: RecordDecl) returns (ok: bool)
      modifies this`structs, this`typedefs
      ensures Outcome(ok, State()) == RecordDepsStep(old(State()), r, 0)
    {
      ghost var start := State();
      ok := true;
      for i := 0 to |r.fields|
        invariant ok
        invariant RecordDepsStep(start, r, 0) == RecordDepsStep(State(), r, i)
      {
        var t := r.fields[i].fieldType;
        if !t.builtin {
          if t.aliasing {
            AddTypedef(t);
          }
          if t.record.Some? {
            ok := AddRecordStruct(t.record.value);
            if !ok {
              return;
            }
          }
          if t.containerArg.Some? && t.containerArg.value.record.Some? {
            ok := AddRecordStruct(t.containerArg.value.record.value);
            if !ok {
              return;
            }
          }
        }
      }
    }

    /** `EosioMethodMatcher::run` for one method declaration. */
    method HandleMethod(m: MethodDecl) returns (ok: bool)
      modifies this`structs, this`typedefs, this`actions
      ensures Outcome(ok, State()) == HandleMethodStep(old(State()), m)
    {
      ok := true;
      if !(m.actionAttr.Some? && m.inContract) {
        return;
      }
      ok := AddMethodStruct(m);
      if !ok {
        return;
      }
      AddMethodAction(m);
      ghost var start := State();
      for i := 0 to |m.params|
        invariant ok
        invariant MethodDepsStep(start, m, 0) == MethodDepsStep(State(), m, i)
      {
        ok := AddMethodParamDependencies(m.params[i]);
        if !ok {
          return;
        }
      }
    }

    /** One iteration of the method callback's parameter loop: an ignorable
        parameter is skipped (`continue`); otherwise the non-builtin record,
        then the record inside a `vector`/`optional`, are built. */
    method AddMethodParamDependencies(param: ParamDecl) returns (ok: bool)
      modifies this`structs
      ensures Outcome(ok, State()) == MethodParamDepStep(old(State()), param)
    {
      ok := true;
      var t := param.paramType;
      if t.ignoredAs.Some? {
        return;
      }
      if t.record.Some? && !t.builtin {
        ok := AddRecordStruct(t.record.value);
        if !ok {
          return;
        }
      }
      if t.containerArg.Some? && t.containerArg.value.record.Some? {
        ok := AddRecordStruct(t.containerArg.value.record.value);
      }
    }

    /** `EosioRecordMatcher::run` for one matched node. */
    method HandleRecord(node: MatchedNode) returns (ok: bool)
      modifies this
      ensures Outcome(ok, State()) == HandleRecordStep(helpers, old(State()), node)
    {
      ok := true;
      if node.record.Some? {
        var r := node.record.value;
        if r.actionAttr.Some? && r.inContract {
          ok := AddRecordStruct(r);
          if !ok {
            return;
          }
          ok := AddRecordAction(r);
          if !ok {
            return;
          }
          ok := AddFieldDependencies(r);
          if !ok {
            return;
          }
        }
        if r.tableAttr.Some? && r.inContract {
          ok := AddRecordStruct(r);
          if !ok {
            return;
          }
          AddTable(r);
          ok := AddFieldDependencies(r);
          if !ok {
            return;
          }
        }
      }
      if node.specialization.Some? && node.specialization.value.name == "multi_index" {
        var spec := node.specialization.value;
        AddMultiIndexTable(spec.nameArg, spec.rowArg);
      }
    }
  }
}
