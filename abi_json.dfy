/** The ordered output model that `to_json` builds: an ordered-object tree with
    the same keys in the same order as the builder's `ojson` values, the
    converters `struct_to_json`, `typedef_to_json`, `action_to_json` and
    `table_to_json`, and their inverses, which read an item back. */
module AbiJson {
  import opened AbiTypes

  datatype Json = JStr(str: string) | JArr(items: seq<Json>) | JObj(members: seq<Member>)

  datatype Member = Member(key: string, value: Json)

  /** The keys of an object's members, in order. */
  function Keys(ms: seq<Member>): (ks: seq<string>)
    ensures |ks| == |ms|
    ensures forall i :: 0 <= i < |ms| ==> ks[i] == ms[i].key
  {
    seq(|ms|, i requires 0 <= i < |ms| => ms[i].key)
  }

  /** Encodes every element of a sequence, keeping the order. */
  function MapJson<T>(q: seq<T>, enc: T -> Json): (js: seq<Json>)
    ensures |js| == |q|
    ensures forall i :: 0 <= i < |q| ==> js[i] == enc(q[i])
  {
    seq(|q|, i requires 0 <= i < |q| => enc(q[i]))
  }

  /** `to_index_type`: every table is indexed as `i64`, whatever its type. */
  function ToIndexType(t: string): (r: string)
    ensures r == "i64"
  {
    "i64"
  }

  /** One field as `{name, type}`. */
  function FieldJson(f: AbiField): Json
  {
    JObj([Member("name", JStr(f.name)), Member("type", JStr(f.typeName))])
  }

  /** The JSON value `struct_to_json` builds: name, base, then the fields in
      order; the struct is read back from it. */
  function StructJson(s: AbiStruct): (j: Json)
    ensures j.JObj? && Keys(j.members) == ["name", "base", "fields"]
    ensures StructFromJson(j) == Some(s)
  {
    FieldsRoundTrip(s.fields);
    JObj([Member("name", JStr(s.name)), Member("base", JStr(s.base)),
          Member("fields", JArr(MapJson(s.fields, FieldJson)))])
  }

  /** `struct_to_json`: the fields array is filled by a loop. */
  method StructToJson(s: AbiStruct) returns (o: Json)
    ensures o == StructJson(s)
    ensures StructFromJson(o) == Some(s)
  {
    var fields: seq<Json> := [];
    for i := 0 to |s.fields|
      invariant |fields| == i
      invariant forall k :: 0 <= k < i ==> fields[k] == FieldJson(s.fields[k])
    {
      var f := JObj([Member("name", JStr(s.fields[i].name)), Member("type", JStr(s.fields[i].typeName))]);
      fields := fields + [f];
    }
    assert fields == MapJson(s.fields, FieldJson);
    o := JObj([Member("name", JStr(s.name)), Member("base", JStr(s.base)), Member("fields", JArr(fields))]);
  }

  /** `typedef_to_json`: the typedef is read back from it. */
  function TypedefToJson(t: AbiTypedef): (j: Json)
    ensures j.JObj? && Keys(j.members) == ["new_type_name", "type"]
    ensures TypedefFromJson(j) == Some(t)
  {
    JObj([Member("new_type_name", JStr(t.newTypeName)), Member("type", JStr(t.aliasedType))])
  }

  /** `action_to_json`: the action is read back from it. */
  function ActionToJson(a: AbiAction): (j: Json)
    ensures j.JObj? && Keys(j.members) == ["name", "type", "ricardian_contract"]
    ensures ActionFromJson(j) == Some(a)
  {
    JObj([Member("name", JStr(a.name)), Member("type", JStr(a.structType)),
          Member("ricardian_contract", JStr(a.ricardianContract))])
  }

  /** `table_to_json`: name and type, a fixed `i64` index type and empty key lists. */
  function TableToJson(t: AbiTable): (j: Json)
    ensures j.JObj? && Keys(j.members) == ["name", "type", "index_type", "key_names", "key_types"]
    ensures j.members[2].value == JStr(ToIndexType(t.rowType))
    ensures j.members[3].value == JArr([]) && j.members[4].value == JArr([])
    ensures TableFromJson(j) == Some(t)
  {
    JObj([Member("name", JStr(t.name)), Member("type", JStr(t.rowType)), Member("index_type", JStr("i64")),
          Member("key_names", JArr([])), Member("key_types", JArr([]))])
  }

  // ---- reading items back ----

  /** The string under `key` when `m` is that member with a string value. */
  function StrMember(m: Member, key: string): Option<string>
  {
    if m.key == key && m.value.JStr? then Some(m.value.str) else None
  }

  function FieldFromJson(j: Json): Option<AbiField>
  {
    if j.JObj? && |j.members| == 2 && StrMember(j.members[0], "name").Some? && StrMember(j.members[1], "type").Some?
    then Some(AbiField(j.members[0].value.str, j.members[1].value.str))
    else None
  }

  function FieldsFromJson(js: seq<Json>): Option<seq<AbiField>>
  {
    if js == [] then Some([])
    else
      match (FieldFromJson(js[0]), FieldsFromJson(js[1..]))
      case (Some(f), Some(fs)) => Some([f] + fs)
      case _ => None
  }

  function StructFromJson(j: Json): Option<AbiStruct>
  {
    if j.JObj? && |j.members| == 3 && StrMember(j.members[0], "name").Some? && StrMember(j.members[1], "base").Some? &&
       j.members[2].key == "fields" && j.members[2].value.JArr?
    then
      match FieldsFromJson(j.members[2].value.items)
      case Some(fs) => Some(AbiStruct(j.members[0].value.str, j.members[1].value.str, fs))
      case None => None
    else None
  }

  function TypedefFromJson(j: Json): Option<AbiTypedef>
  {
    if j.JObj? && |j.members| == 2 && StrMember(j.members[0], "new_type_name").Some? && StrMember(j.members[1], "type").Some?
    then Some(AbiTypedef(j.members[0].value.str, j.members[1].value.str))
    else None
  }

  function ActionFromJson(j: Json): Option<AbiAction>
  {
    if j.JObj? && |j.members| == 3 && StrMember(j.members[0], "name").Some? && StrMember(j.members[1], "type").Some? &&
       StrMember(j.members[2], "ricardian_contract").Some?
    then Some(AbiAction(j.members[0].value.str, j.members[1].value.str, j.members[2].value.str))
    else None
  }

  /** Reads a table back; anything but the fixed index type and empty key lists is refused. */
  function TableFromJson(j: Json): Option<AbiTable>
  {
    if j.JObj? && |j.members| == 5 && StrMember(j.members[0], "name").Some? && StrMember(j.members[1], "type").Some? &&
       StrMember(j.members[2], "index_type") == Some("i64") &&
       j.members[3] == Member("key_names", JArr([])) && j.members[4] == Member("key_types", JArr([]))
    then Some(AbiTable(j.members[0].value.str, j.members[1].value.str))
    else None
  }

  /** The encoded field list is read back to the same fields in the same order. */
  lemma {:induction false} FieldsRoundTrip(fs: seq<AbiField>)
    ensures FieldsFromJson(MapJson(fs, FieldJson)) == Some(fs)
  {
    if fs != [] {
      var js := MapJson(fs, FieldJson);
      assert js[1..] == MapJson(fs[1..], FieldJson);
      FieldsRoundTrip(fs[1..]);
      assert [fs[0]] + fs[1..] == fs;
    }
  }
}
