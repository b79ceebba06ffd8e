/** The finalisation `to_json` performs on the accumulated state: suffix
    stripping, the merge of attribute tables with multi-index tables, the
    single-pass struct pruning, and the fixed shape of the output object. */
module Assembler {
  import opened AbiTypes
  import opened AbiJson

  // ---- remove_suffix ----

  predicate IsSuffixChar(c: char)
  {
    c == '[' || c == ']' || c == '?'
  }

  /** The type name with its trailing `[`, `]` and `?` characters removed: a
      prefix of `s` that is empty or ends in another character, and only
      suffix characters follow it in `s`. */
  function StripSuffix(s: string): (r: string)
    ensures r <= s
    ensures r == [] || !IsSuffixChar(r[|r| - 1])
    ensures forall k :: |r| <= k < |s| ==> IsSuffixChar(s[k])
  {
    if |s| > 0 && IsSuffixChar(s[|s| - 1]) then StripSuffix(s[..|s| - 1]) else s
  }

  /** The three properties of `StripSuffix` determine its result: it is the
      longest prefix that does not end in a suffix character. */
  lemma {:induction false} StripSuffixUnique(s: string, r: string)
    requires r <= s
    requires r == [] || !IsSuffixChar(r[|r| - 1])
    requires forall k :: |r| <= k < |s| ==> IsSuffixChar(s[k])
    ensures r == StripSuffix(s)
    decreases |s|
  {
    if |r| < |s| {
      assert IsSuffixChar(s[|s| - 1]);
      assert r <= s[..|s| - 1];
      StripSuffixUnique(s[..|s| - 1], r);
    } else {
      assert r == s;
    }
  }

  lemma StripSuffixIdempotent(s: string)
    ensures StripSuffix(StripSuffix(s)) == StripSuffix(s)
  {
    var r := StripSuffix(s);
    StripSuffixUnique(r, r);
  }

  lemma StripSuffixExamples()
    ensures StripSuffix("Foo?[]") == "Foo"
    ensures StripSuffix("Foo") == "Foo"
    ensures StripSuffix("") == ""
  {
    StripSuffixUnique("Foo?[]", "Foo");
    StripSuffixUnique("Foo", "Foo");
  }

  /** `remove_suffix`: counts an index down from the last character while it
      sees suffix characters, then keeps the prefix up to that index. */
  method RemoveSuffix(name: string) returns (r: string)
    ensures r == StripSuffix(name)
  {
    var i: int := |name| - 1;
    while i >= 0
      invariant -1 <= i < |name|
      invariant StripSuffix(name[..i + 1]) == StripSuffix(name)
      decreases i
    {
      if !IsSuffixChar(name[i]) {
        break;
      }
      assert name[..i + 1][..i] == name[..i];
      i := i - 1;
    }
    r := name[..i + 1];
  }

  // ---- the table merge ----

  /** Some multi-index table has this row type. */
  predicate HasMultiIndex(tables: set<AbiTable>, rowType: string)
  {
    exists u :: u in tables && u.rowType == rowType
  }

  /** The tables `to_json` emits: every multi-index table, and every
      attribute table whose row type has no multi-index table. */
  function MergedTables(ctables: set<AbiTable>, tables: set<AbiTable>): (r: set<AbiTable>)
    ensures tables <= r
    ensures forall t :: t in r ==> t in tables || t in ctables
    ensures forall t :: t in ctables && !HasMultiIndex(tables, t.rowType) ==> t in r
    ensures forall t :: t in r && HasMultiIndex(tables, t.rowType) ==> t in tables
  {
    tables + set t | t in ctables && !HasMultiIndex(tables, t.rowType)
  }

  // ---- validate_struct ----

  /** A struct refers to a name through a field whose type, suffixes removed,
      is that name, or through its base. */
  predicate RefersTo(x: AbiStruct, name: string)
  {
    (exists k :: 0 <= k < |x.fields| && StripSuffix(x.fields[k].typeName) == name) || x.base == name
  }

  /** The inner loop of `validate_struct` for one accumulated struct: its
      fields in order, each type with its suffixes removed, then its base. */
  method CheckRefers(x: AbiStruct, name: string) returns (b: bool)
    ensures b == RefersTo(x, name)
  {
    for i := 0 to |x.fields|
      invariant forall k :: 0 <= k < i ==> StripSuffix(x.fields[k].typeName) != name
    {
      var n := RemoveSuffix(x.fields[i].typeName);
      if name == n {
        return true;
      }
    }
    return x.base == name;
  }

  /** `validate_struct`: not builtin, and named by some accumulated struct
      (emitted or not), by the type of some action, or by the row type of
      some merged table. */
  predicate ValidateStruct(h: Helpers, st: AbiState, merged: set<AbiTable>, s: AbiStruct)
  {
    !h.builtinName(s.name) &&
    ((exists x :: x in st.structs && RefersTo(x, s.name)) ||
     (exists a :: a in st.actions && a.structType == s.name) ||
     (exists t :: t in merged && t.rowType == s.name))
  }

  /** `validate_struct` as the loops it is: a builtin name fails at once;
      otherwise the first accumulated struct, action or merged table that
      names the struct makes it pass, and none failing makes it fail. */
  method CheckStruct(h: Helpers, st: AbiState, merged: set<AbiTable>, s: AbiStruct) returns (b: bool)
    ensures b == ValidateStruct(h, st, merged, s)
  {
    if h.builtinName(s.name) {
      return false;
    }
    var structs := st.structs;
    while structs != {}
      invariant structs <= st.structs
      invariant forall x :: x in st.structs && x !in structs ==> !RefersTo(x, s.name)
      decreases |structs|
    {
      var x :| x in structs;
      var refers := CheckRefers(x, s.name);
      if refers {
        return true;
      }
      structs := structs - {x};
    }
    var actions := st.actions;
    while actions != {}
      invariant actions <= st.actions
      invariant forall a :: a in st.actions && a !in actions ==> a.structType != s.name
      decreases |actions|
    {
      var a :| a in actions;
      if s.name == a.structType {
        return true;
      }
      actions := actions - {a};
    }
    var tables := merged;
    while tables != {}
      invariant tables <= merged
      invariant forall t :: t in merged && t !in tables ==> t.rowType != s.name
      decreases |tables|
    {
      var t :| t in tables;
      if s.name == t.rowType {
        return true;
      }
      tables := tables - {t};
    }
    return false;
  }

  /** The structs among `among` that pass `validate_struct`. */
  function Kept(h: Helpers, st: AbiState, merged: set<AbiTable>, among: set<AbiStruct>): (r: set<AbiStruct>)
    ensures r <= among
    ensures forall s :: s in among && ValidateStruct(h, st, merged, s) ==> s in r
    ensures forall s :: s in r ==> ValidateStruct(h, st, merged, s)
  {
    set s | s in among && ValidateStruct(h, st, merged, s)
  }

  /** The structs `to_json` emits: one pass over the accumulated structs. */
  function EmittedStructs(h: Helpers, st: AbiState): (r: set<AbiStruct>)
    ensures r <= st.structs
    ensures forall s :: s in r ==> !h.builtinName(s.name)
  {
    Kept(h, st, MergedTables(st.ctables, st.tables), st.structs)
  }

  /** The struct an action names is emitted, unless its name is builtin. */
  lemma ActionStructEmitted(h: Helpers, st: AbiState, a: AbiAction, s: AbiStruct)
    requires a in st.actions && s in st.structs && s.name == a.structType
    requires !h.builtinName(s.name)
    ensures s in EmittedStructs(h, st)
  {
  }

  /** The row struct of an emitted table is emitted, unless its name is builtin. */
  lemma TableStructEmitted(h: Helpers, st: AbiState, t: AbiTable, s: AbiStruct)
    requires t in MergedTables(st.ctables, st.tables) && s in st.structs && s.name == t.rowType
    requires !h.builtinName(s.name)
    ensures s in EmittedStructs(h, st)
  {
  }

  /** A struct referred to by any accumulated struct is emitted, even when
      the referring struct is itself pruned. */
  lemma ReferencedStructEmitted(h: Helpers, st: AbiState, x: AbiStruct, s: AbiStruct)
    requires x in st.structs && s in st.structs && RefersTo(x, s.name)
    requires !h.builtinName(s.name)
    ensures s in EmittedStructs(h, st)
  {
  }

  /** Pruning looks at references from every accumulated struct: here `x` is
      named by nothing and is pruned, yet the struct `y` it refers to is kept. */
  lemma PrunedStructStillKeepsItsReferences(h: Helpers)
    requires !h.builtinName("y")
    ensures
      var x := AbiStruct("x", "", [AbiField("ys", "y[]")]);
      var y := AbiStruct("y", "", []);
      EmittedStructs(h, AbiState({x, y}, {}, {}, {}, {})) == {y}
  {
    var x := AbiStruct("x", "", [AbiField("ys", "y[]")]);
    var y := AbiStruct("y", "", []);
    var st := AbiState({x, y}, {}, {}, {}, {});
    StripSuffixUnique("y[]", "y");
    assert StripSuffix(x.fields[0].typeName) == "y";
    assert RefersTo(x, "y");
    assert !RefersTo(x, "x");
    ReferencedStructEmitted(h, st, x, y);
    assert x !in EmittedStructs(h, st);
  }

  // ---- the output object ----

  /** The keys of the object `to_json` returns, in order. */
  const TopLevelKeys := ["____comment", "version", "structs", "types", "actions", "tables",
                         "ricardian_clauses", "abi_extensions"]

  /** `q` lists every element of `s` exactly once. */
  ghost predicate Enumerates<T(!new)>(q: seq<T>, s: set<T>)
  {
    (forall i, j :: 0 <= i < j < |q| ==> q[i] != q[j]) &&
    (forall x :: x in q <==> x in s)
  }

  /** `j` is an array holding the encoding of every element of `s` once, in
      some order: the iteration order of the builder's sets, which comes from
      the items' `operator<`, is not part of this model. */
  ghost predicate Lists<T(!new)>(j: Json, s: set<T>, enc: T -> Json)
  {
    j.JArr? && exists q :: Enumerates(q, s) && j.items == MapJson(q, enc)
  }

  /** A loop over a set that pushes the encoding of each element. */
  method EmitAll<T(==, !new)>(s: set<T>, enc: T -> Json) returns (items: seq<Json>)
    ensures Lists(JArr(items), s, enc)
  {
    items := [];
    ghost var q: seq<T> := [];
    var rest := s;
    while rest != {}
      invariant rest <= s
      invariant Enumerates(q, s - rest)
      invariant items == MapJson(q, enc)
      decreases |rest|
    {
      var x :| x in rest;
      q := q + [x];
      items := items + [enc(x)];
      rest := rest - {x};
    }
  }

  /** The loop of `to_json` over the accumulated structs that keeps those
      passing `validate_struct`, in one pass, and encodes them. */
  method EmitStructs(h: Helpers, st: AbiState, merged: set<AbiTable>) returns (items: seq<Json>)
    ensures Lists(JArr(items), Kept(h, st, merged, st.structs), StructJson)
  {
    items := [];
    ghost var q: seq<AbiStruct> := [];
    var rest := st.structs;
    while rest != {}
      invariant rest <= st.structs
      invariant Enumerates(q, Kept(h, st, merged, st.structs - rest))
      invariant items == MapJson(q, StructJson)
      decreases |rest|
    {
      var s :| s in rest;
      var keep := CheckStruct(h, st, merged, s);
      if keep {
        var j := StructToJson(s);
        items := items + [j];
        q := q + [s];
      }
      rest := rest - {s};
    }
    assert st.structs - rest == st.structs;
  }
}
