/**
 The compact field dictionary: a projection into columns whose strings are replaced
 by negative indexes into a string table. Hashing is a parameter.
 */
module CompactDictionary {
  import opened Bytes
  import opened Lexical

  datatype Json =
    | Null
    | Bool(value: bool)
    | Number(n: int)
    | Fraction(x: real)
    | Text(s: string)
    | Array(items: seq<Json>)
    | Object(members: map<string, Json>)

  type Hash = Json -> string

  // ----- Packing

  predicate NoNegativeInteger(v: Json) {
    match v
    case Number(n) => n >= 0
    case Array(items) => forall i :: 0 <= i < |items| ==> NoNegativeInteger(items[i])
    case Object(members) => forall k :: k in members ==> NoNegativeInteger(members[k])
    case _ => true
  }

  /** Every string among the values; the keys of objects stay as they are. */
  ghost predicate HasString(v: Json, s: string) {
    match v
    case Text(t) => t == s
    case Array(items) => exists i :: 0 <= i < |items| && HasString(items[i], s)
    case Object(members) => exists k :: k in members && HasString(members[k], s)
    case _ => false
  }

  method CollectStrings(v: Json, before: set<string>) returns (result: set<string>)
    ensures forall s :: s in result <==> s in before || HasString(v, s)
    decreases v
  {
    result := before;
    match v {
      case Text(t) =>
        result := result + {t};
      case Array(items) =>
        for i := 0 to |items|
          invariant forall s :: s in result <==> s in before || exists j :: 0 <= j < i && HasString(items[j], s)
        {
          result := CollectStrings(items[i], result);
        }
      case Object(members) =>
        var left := members.Keys;
        while left != {}
          invariant left <= members.Keys
          invariant forall s ::
                    s in result
                    <==> s in before || exists k :: k in members.Keys - left && HasString(members[k], s)
          decreases left
        {
          var k :| k in left;
          result := CollectStrings(members[k], result);
          left := left - {k};
        }
      case _ =>
    }
  }

  /** All strings of `v` have an index. */
  ghost predicate Covered(v: Json, indexes: map<string, nat>) {
    forall s :: HasString(v, s) ==> s in indexes
  }

  function Pack(v: Json, indexes: map<string, nat>): Json
    requires Covered(v, indexes)
    decreases v
  {
    match v
    case Text(s) =>
      var index: int := indexes[s];
      Number(-index - 1)
    case Array(items) =>
      Array(seq(|items|, i requires 0 <= i < |items| && Covered(items[i], indexes) => Pack(items[i], indexes)))
    case Object(members) => Object(map k | k in members :: k := Pack(members[k], indexes))
    case _ => v
  }

  /** What a packed value stands for, if every index in it is in the table. */
  function Unpack(v: Json, table: seq<string>): Option<Json>
    decreases v
  {
    match v
    case Number(n) =>
      if n >= 0 then Some(v) else if -n - 1 < |table| then Some(Text(table[-n - 1])) else None
    case Array(items) =>
      var parts := seq(|items|, i requires 0 <= i < |items| => Unpack(items[i], table));
      if forall i :: 0 <= i < |items| ==> parts[i].Some?
      then Some(Array(seq(|items|, i requires 0 <= i < |items| => parts[i].value))) else None
    case Object(members) =>
      var parts := map k | k in members :: k := Unpack(members[k], table);
      if forall k :: k in members ==> parts[k].Some?
      then Some(Object(map k | k in members :: k := parts[k].value)) else None
    case _ => Some(v)
  }

  /** `indexes` gives each string of the table its position. */
  ghost predicate Indexed(table: seq<string>, indexes: map<string, nat>) {
    && (forall s :: s in indexes ==> indexes[s] < |table| && table[indexes[s]] == s)
    && (forall i :: 0 <= i < |table| ==> table[i] in indexes)
  }

  /** Packing is undone exactly when no real integer is negative: otherwise an integer reads as an index. */
  lemma {:induction false} UnpackUndoesPack(v: Json, table: seq<string>, indexes: map<string, nat>)
    requires Indexed(table, indexes) && Covered(v, indexes)
    ensures Unpack(Pack(v, indexes), table) == Some(v) <==> NoNegativeInteger(v)
    decreases v
  {
    match v {
      case Array(items) =>
        UnpackArray(items, table, indexes);
      case Object(members) =>
        UnpackObject(members, table, indexes);
      case _ =>
    }
  }

  lemma UnpackArrayParts(packed: seq<Json>, table: seq<string>)
    ensures var back := Unpack(Array(packed), table);
            && (back.Some? <==> forall i :: 0 <= i < |packed| ==> Unpack(packed[i], table).Some?)
            && (back.Some? ==> back.value.Array? && |back.value.items| == |packed|
                               && forall i :: 0 <= i < |packed| ==>
                                 Unpack(packed[i], table) == Some(back.value.items[i]))
  {
    var parts := seq(|packed|, i requires 0 <= i < |packed| => Unpack(packed[i], table));
    assert forall i :: 0 <= i < |packed| ==> parts[i] == Unpack(packed[i], table);
  }

  lemma PackArrayParts(items: seq<Json>, indexes: map<string, nat>)
    requires Covered(Array(items), indexes)
    ensures forall i :: 0 <= i < |items| ==> Covered(items[i], indexes)
    ensures var packed := Pack(Array(items), indexes);
            packed.Array? && |packed.items| == |items|
            && forall i :: 0 <= i < |items| ==> packed.items[i] == Pack(items[i], indexes)
  {
  }

  lemma {:induction false} UnpackArray(items: seq<Json>, table: seq<string>, indexes: map<string, nat>)
    requires Indexed(table, indexes) && Covered(Array(items), indexes)
    ensures Unpack(Pack(Array(items), indexes), table) == Some(Array(items)) <==> NoNegativeInteger(Array(items))
    decreases Array(items), 0
  {
    hide Pack, Unpack, HasString, Covered, Indexed;
    PackArrayParts(items, indexes);
    var packed := Pack(Array(items), indexes).items;
    UnpackArrayParts(packed, table);
    forall i | 0 <= i < |items|
      ensures Unpack(packed[i], table) == Some(items[i]) <==> NoNegativeInteger(items[i])
    {
      UnpackUndoesPack(items[i], table, indexes);
    }
    var back := Unpack(Array(packed), table);
    if NoNegativeInteger(Array(items)) {
      assert back.value.items == items;
    }
  }

  lemma UnpackObjectParts(packed: map<string, Json>, table: seq<string>)
    ensures var back := Unpack(Object(packed), table);
            && (back.Some? <==> forall k :: k in packed ==> Unpack(packed[k], table).Some?)
            && (back.Some? ==> back.value.Object? && back.value.members.Keys == packed.Keys
                               && forall k :: k in packed ==> Unpack(packed[k], table) == Some(back.value.members[k]))
  {
  }

  lemma PackObjectParts(members: map<string, Json>, indexes: map<string, nat>)
    requires Covered(Object(members), indexes)
    ensures forall k :: k in members ==> Covered(members[k], indexes)
    ensures var packed := Pack(Object(members), indexes);
            packed.Object? && packed.members.Keys == members.Keys
            && forall k :: k in members ==> packed.members[k] == Pack(members[k], indexes)
  {
  }

  lemma {:induction false} UnpackObject(members: map<string, Json>, table: seq<string>, indexes: map<string, nat>)
    requires Indexed(table, indexes) && Covered(Object(members), indexes)
    ensures Unpack(Pack(Object(members), indexes), table) == Some(Object(members))
            <==> NoNegativeInteger(Object(members))
    decreases Object(members), 0
  {
    hide Pack, Unpack, HasString, Covered, Indexed;
    PackObjectParts(members, indexes);
    var packed := Pack(Object(members), indexes).members;
    UnpackObjectParts(packed, table);
    forall k | k in members
      ensures Unpack(packed[k], table) == Some(members[k]) <==> NoNegativeInteger(members[k])
    {
      UnpackUndoesPack(members[k], table, indexes);
    }
    var back := Unpack(Object(packed), table);
    if NoNegativeInteger(Object(members)) {
      assert back.value.members == members;
    }
  }

  /** The string at position `k` of the table becomes the number -1 - k, and comes back from it. */
  lemma StringsAreIndexes(table: seq<string>, indexes: map<string, nat>, k: nat, n: nat)
    requires Indexed(table, indexes) && k < |table| <= n && indexes[table[k]] == k
    ensures Covered(Text(table[k]), indexes) && Pack(Text(table[k]), indexes) == Number(-1 - k)
    ensures Unpack(Number(-1 - k), table) == Some(Text(table[k]))
    ensures Unpack(Number(-1 - n), table) == None
  {
  }

  // ----- The string table

  predicate Sorted(table: seq<string>) {
    forall i, j :: 0 <= i < j < |table| ==> Before(Codes(table[i]), Codes(table[j]))
  }

  /** `table` with `s` put where it belongs. */
  method InsertSorted(table: seq<string>, s: string) returns (out: seq<string>)
    requires Sorted(table) && s !in table
    ensures Sorted(out) && forall t :: t in out <==> t in table || t == s
  {
    hide Before;
    var i := 0;
    while i < |table| && Before(Codes(table[i]), Codes(s))
      invariant 0 <= i <= |table|
      invariant forall j :: 0 <= j < i ==> Before(Codes(table[j]), Codes(s))
    {
      i := i + 1;
    }
    if i < |table| {
      BeforeIsTotal(Codes(table[i]), Codes(s));
      if Codes(table[i]) == Codes(s) {
        CodesAreInjective(table[i], s);
      }
    }
    forall j | i <= j < |table|
      ensures Before(Codes(s), Codes(table[j]))
    {
      if i < j {
        BeforeIsTransitive(Codes(s), Codes(table[i]), Codes(table[j]));
      }
    }
    out := table[..i] + [s] + table[i..];
  }

  method SortedTable(strings: set<string>) returns (table: seq<string>)
    ensures Sorted(table) && forall s :: s in table <==> s in strings
  {
    table := [];
    var left := strings;
    while left != {}
      invariant left <= strings && Sorted(table)
      invariant forall s :: s in table <==> s in strings - left
      decreases left
    {
      var s :| s in left;
      table := InsertSorted(table, s);
      left := left - {s};
    }
  }

  function IndexesOf(table: seq<string>): (indexes: map<string, nat>)
    requires Sorted(table)
    ensures Indexed(table, indexes) && forall s :: s in indexes <==> s in table
  {
    SortedIsDistinct(table);
    map i | 0 <= i < |table| :: table[i] := i
  }

  lemma SortedIsDistinct(table: seq<string>)
    requires Sorted(table)
    ensures forall i, j :: 0 <= i < j < |table| ==> table[i] != table[j]
  {
    forall i, j | 0 <= i < j < |table|
      ensures table[i] != table[j]
    {
      NeverBeforeItself(Codes(table[i]));
    }
  }

  // ----- The dictionary and its projection into columns

  type Record = map<string, Json>

  /** A relation's own attributes, and its fields. */
  datatype Relation = Relation(attributes: Record, fields: seq<Record>)

  datatype Full = Full(header: Record, relations: seq<Relation>)

  const HEADER_KEYS: seq<string> := [
    "dictionary_version", "source_commit", "highest_active_migration", "planned_migration", "status",
    "production_agent_usable", "relation_count", "field_count", "reviewed_field_count", "unresolved_field_count",
    "approved_ai_field_count", "unresolved_approved_ai_field_count", "approved_ai_field_semantics_complete",
    "allowed_sources", "forbidden_sources", "hard_semantic_distinctions"]

  /** An absent key reads as null. */
  function Get(r: Record, key: string): Json {
    if key in r then r[key] else Null
  }

  function Row(r: Record, columns: seq<string>): (values: seq<Json>)
    ensures |values| == |columns| && forall i :: 0 <= i < |columns| ==> values[i] == Get(r, columns[i])
  {
    seq(|columns|, i requires 0 <= i < |columns| => Get(r, columns[i]))
  }

  function Rows(records: seq<Record>, columns: seq<string>): (rows: seq<Json>)
    ensures |rows| == |records|
    ensures forall i :: 0 <= i < |records| ==> rows[i] == Array(Row(records[i], columns))
  {
    seq(|records|, i requires 0 <= i < |records| => Array(Row(records[i], columns)))
  }

  function Texts(strings: seq<string>): (items: seq<Json>)
    ensures |items| == |strings| && forall i :: 0 <= i < |strings| ==> items[i] == Text(strings[i])
  {
    seq(|strings|, i requires 0 <= i < |strings| => Text(strings[i]))
  }

  function Header(header: Record): Record {
    map k | k in HEADER_KEYS && k in header :: header[k]
  }

  function RelationRow(r: Relation, relationColumns: seq<string>, fieldColumns: seq<string>): Json {
    Array([Array(Row(r.attributes, relationColumns)), Array(Rows(r.fields, fieldColumns))])
  }

  /** The projection over the given columns. */
  function Projected(full: Full, relationColumns: seq<string>, fieldColumns: seq<string>): Json {
    Object(Header(full.header)[
      "relation_columns" := Array(Texts(relationColumns))][
      "field_columns" := Array(Texts(fieldColumns))][
      "relations" := Array(seq(|full.relations|, i requires 0 <= i < |full.relations| =>
        RelationRow(full.relations[i], relationColumns, fieldColumns)))])
  }

  predicate AttributeNames(relations: seq<Relation>, columns: seq<string>) {
    && Sorted(columns)
    && (forall i, k :: 0 <= i < |relations| && k in relations[i].attributes ==> k in columns)
    && (forall c :: c in columns ==> exists i :: 0 <= i < |relations| && c in relations[i].attributes)
  }

  predicate FieldNames(relations: seq<Relation>, columns: seq<string>) {
    && Sorted(columns)
    && (forall i, j, k ::
          0 <= i < |relations| && 0 <= j < |relations[i].fields| && k in relations[i].fields[j] ==> k in columns)
    && (forall c :: c in columns ==>
          exists i, j :: 0 <= i < |relations| && 0 <= j < |relations[i].fields| && c in relations[i].fields[j])
  }

  method NamesOf(records: seq<Record>, before: set<string>) returns (names: set<string>)
    ensures forall k :: k in names <==> k in before || exists j :: 0 <= j < |records| && k in records[j]
  {
    names := before;
    for j := 0 to |records|
      invariant forall k :: k in names <==> k in before || exists l :: 0 <= l < j && k in records[l]
    {
      names := names + records[j].Keys;
    }
  }

  method Columns(relations: seq<Relation>) returns (relationColumns: seq<string>, fieldColumns: seq<string>)
    ensures AttributeNames(relations, relationColumns) && FieldNames(relations, fieldColumns)
  {
    var attributes: set<string>, fields: set<string> := {}, {};
    for i := 0 to |relations|
      invariant forall k :: k in attributes <==> exists l :: 0 <= l < i && k in relations[l].attributes
      invariant forall k ::
                k in fields
                <==> exists l, j :: 0 <= l < i && 0 <= j < |relations[l].fields| && k in relations[l].fields[j]
    {
      attributes := attributes + relations[i].attributes.Keys;
      fields := NamesOf(relations[i].fields, fields);
    }
    relationColumns := SortedTable(attributes);
    fieldColumns := SortedTable(fields);
  }

  /** The projection of `full` over the columns its relations have. */
  ghost predicate IsProjection(full: Full, p: Json) {
    exists relationColumns, fieldColumns ::
      && AttributeNames(full.relations, relationColumns) && FieldNames(full.relations, fieldColumns)
      && p == Projected(full, relationColumns, fieldColumns)
  }

  /** Two strictly sorted tables of the same strings are the same table. */
  lemma {:induction false} SortedTableIsUnique(a: seq<string>, b: seq<string>)
    requires Sorted(a) && Sorted(b) && forall s :: s in a <==> s in b
    ensures a == b
    decreases |a|
  {
    hide Before;
    BothOrNoneEmpty(a, b);
    if a != [] {
      assert a[0] in b && b[0] in a;
      SameFirstString(a, b);
      forall s
        ensures s in a[1..] <==> s in b[1..]
      {
        TailHasTheOthers(a, s);
        TailHasTheOthers(b, s);
      }
      SortedTableIsUnique(a[1..], b[1..]);
      assert a == [a[0]] + a[1..] && b == [b[0]] + b[1..];
    }
  }

  lemma BothOrNoneEmpty(a: seq<string>, b: seq<string>)
    requires forall s :: s in a <==> s in b
    ensures a == [] <==> b == []
  {
    if a != [] {
      assert a[0] in b;
    }
    if b != [] {
      assert b[0] in a;
    }
  }

  lemma TailHasTheOthers(a: seq<string>, s: string)
    requires Sorted(a) && a != []
    ensures s in a[1..] <==> s in a && s != a[0]
  {
    hide Before;
    forall i | 0 < i < |a|
      ensures a[i] != a[0]
    {
      NeverBeforeItself(Codes(a[0]));
    }
    if s in a && s != a[0] {
      var i :| 0 <= i < |a| && a[i] == s;
      assert a[1..][i - 1] == s;
    }
  }

  lemma SameFirstString(a: seq<string>, b: seq<string>)
    requires Sorted(a) && Sorted(b) && a != [] && b != [] && a[0] in b && b[0] in a
    ensures a[0] == b[0]
  {
    hide Before;
    var i :| 0 <= i < |a| && a[i] == b[0];
    var j :| 0 <= j < |b| && b[j] == a[0];
    if i > 0 && j > 0 {
      BeforeIsTotal(Codes(a[0]), Codes(b[0]));
    }
  }

  /** The relations determine the columns, and so the projection. */
  lemma ProjectionIsUnique(full: Full, p: Json, q: Json)
    requires IsProjection(full, p) && IsProjection(full, q)
    ensures p == q
  {
    hide Projected, Sorted;
    var a, b :| AttributeNames(full.relations, a) && FieldNames(full.relations, b) && p == Projected(full, a, b);
    var c, d :| AttributeNames(full.relations, c) && FieldNames(full.relations, d) && q == Projected(full, c, d);
    SortedTableIsUnique(a, c);
    SortedTableIsUnique(b, d);
  }

  method SemanticProjection(full: Full) returns (p: Option<Json>)
    ensures p.Some? <==> forall k :: k in HEADER_KEYS ==> k in full.header
    ensures p.Some? ==> IsProjection(full, p.value)
  {
    if k :| k in HEADER_KEYS && k !in full.header {
      return None;
    }
    var relationColumns, fieldColumns := Columns(full.relations);
    return Some(Projected(full, relationColumns, fieldColumns));
  }

  // ----- Reading the columns back

  /** The value of column `name` in a row of a column layout; a name that is no column reads as null. */
  function InColumn(columns: seq<Json>, values: seq<Json>, name: string): Json {
    if columns == [] || values == [] then Null
    else if columns[0] == Text(name) then values[0]
    else InColumn(columns[1..], values[1..], name)
  }

  lemma {:induction false} ColumnReadsBack(r: Record, columns: seq<string>, name: string)
    ensures InColumn(Texts(columns), Row(r, columns), name) == if name in columns then Get(r, name) else Null
    decreases |columns|
  {
    if columns != [] {
      assert Texts(columns)[1..] == Texts(columns[1..]) && Row(r, columns)[1..] == Row(r, columns[1..]);
      ColumnReadsBack(r, columns[1..], name);
    }
  }

  function FieldInProjection(p: Json, i: nat, j: nat, name: string): Json {
    if p.Object? && "relations" in p.members && "field_columns" in p.members
       && p.members["field_columns"].Array? && p.members["relations"].Array? && i < |p.members["relations"].items|
    then
      var relation := p.members["relations"].items[i];
      if relation.Array? && |relation.items| == 2 && relation.items[1].Array? && j < |relation.items[1].items|
         && relation.items[1].items[j].Array?
      then InColumn(p.members["field_columns"].items, relation.items[1].items[j].items, name) else Null
    else Null
  }

  function AttributeInProjection(p: Json, i: nat, name: string): Json {
    if p.Object? && "relations" in p.members && "relation_columns" in p.members
       && p.members["relation_columns"].Array? && p.members["relations"].Array? && i < |p.members["relations"].items|
    then
      var relation := p.members["relations"].items[i];
      if relation.Array? && |relation.items| == 2 && relation.items[0].Array?
      then InColumn(p.members["relation_columns"].items, relation.items[0].items, name) else Null
    else Null
  }

  /** The column layout loses nothing: every attribute and every field value reads back, an absent one as null. */
  lemma ProjectionReadsBack(full: Full, p: Json, i: nat, name: string)
    requires IsProjection(full, p) && i < |full.relations|
    ensures AttributeInProjection(p, i, name) == Get(full.relations[i].attributes, name)
    ensures forall j :: 0 <= j < |full.relations[i].fields| ==>
              FieldInProjection(p, i, j, name) == Get(full.relations[i].fields[j], name)
  {
    hide Sorted;
    var relationColumns, fieldColumns :|
      && AttributeNames(full.relations, relationColumns) && FieldNames(full.relations, fieldColumns)
      && p == Projected(full, relationColumns, fieldColumns);
    var relation := full.relations[i];
    assert p.members["relations"].items[i] == RelationRow(relation, relationColumns, fieldColumns);
    ColumnReadsBack(relation.attributes, relationColumns, name);
    forall j | 0 <= j < |relation.fields|
      ensures FieldInProjection(p, i, j, name) == Get(relation.fields[j], name)
    {
      ColumnReadsBack(relation.fields[j], fieldColumns, name);
    }
  }

  /** The keys every projection takes from the dictionary's header. */
  predicate HeaderKey(k: string) {
    || k == "dictionary_version" || k == "source_commit" || k == "highest_active_migration"
    || k == "planned_migration" || k == "status" || k == "production_agent_usable" || k == "relation_count"
    || k == "field_count" || k == "reviewed_field_count" || k == "unresolved_field_count"
    || k == "approved_ai_field_count" || k == "unresolved_approved_ai_field_count"
    || k == "approved_ai_field_semantics_complete" || k == "allowed_sources" || k == "forbidden_sources"
    || k == "hard_semantic_distinctions"
  }

  lemma HeaderKeysAreListed(k: string)
    ensures HeaderKey(k) <==> k in HEADER_KEYS
  {
    var keys := HEADER_KEYS;
    assert keys[0] == "dictionary_version" && keys[1] == "source_commit" && keys[2] == "highest_active_migration";
    assert keys[3] == "planned_migration" && keys[4] == "status" && keys[5] == "production_agent_usable";
    assert keys[6] == "relation_count" && keys[7] == "field_count" && keys[8] == "reviewed_field_count";
    assert keys[9] == "unresolved_field_count" && keys[10] == "approved_ai_field_count";
    assert keys[11] == "unresolved_approved_ai_field_count" && keys[12] == "approved_ai_field_semantics_complete";
    assert keys[13] == "allowed_sources" && keys[14] == "forbidden_sources";
    assert keys[15] == "hard_semantic_distinctions" && |keys| == 16;
  }

  /** Beside the columns and the relations a projection holds the header's values, and nothing else. */
  lemma HeaderReadsBack(full: Full, p: Json, k: string)
    requires IsProjection(full, p) && k !in {"relation_columns", "field_columns", "relations"}
    ensures p.Object? && {"relation_columns", "field_columns", "relations"} <= p.members.Keys
    ensures k in p.members <==> HeaderKey(k) && k in full.header
    ensures k in p.members ==> p.members[k] == full.header[k]
  {
    hide Sorted, HeaderKey;
    HeaderKeysAreListed(k);
    var relationColumns, fieldColumns :|
      && AttributeNames(full.relations, relationColumns) && FieldNames(full.relations, fieldColumns)
      && p == Projected(full, relationColumns, fieldColumns);
  }

  // ----- The approved variant

  const USAGE := "ai_usage"

  predicate AllowedUsage(field: Record) {
    USAGE in field && field[USAGE] in {Text("decision"), Text("context_only"), Text("display_only")}
  }

  function AllowedOnly(fields: seq<Record>): seq<Record> {
    if fields == [] then []
    else (if AllowedUsage(fields[0]) then [fields[0]] else []) + AllowedOnly(fields[1..])
  }

  /** The relation cut down to its allowed fields, and its own count corrected. */
  function Approved(r: Relation): Relation {
    var fields := AllowedOnly(r.fields);
    Relation(r.attributes["field_count" := Number(|fields|)], fields)
  }

  function ApprovedRelations(relations: seq<Relation>): seq<Relation> {
    if relations == [] then []
    else
      (if AllowedOnly(relations[0].fields) == [] then [] else [Approved(relations[0])])
        + ApprovedRelations(relations[1..])
  }

  function FieldTotal(relations: seq<Relation>): nat {
    if relations == [] then 0 else |relations[0].fields| + FieldTotal(relations[1..])
  }

  function ApprovedFull(full: Full): Full {
    var relations := ApprovedRelations(full.relations);
    var total := Number(FieldTotal(relations));
    Full(full.header["relation_count" := Number(|relations|)]["field_count" := total][
           "reviewed_field_count" := total]["unresolved_field_count" := Number(0)], relations)
  }

  /** Every field says how it may be used; otherwise the lookup is an error. */
  predicate UsageStated(full: Full) {
    forall i, j :: 0 <= i < |full.relations| && 0 <= j < |full.relations[i].fields| ==>
      USAGE in full.relations[i].fields[j]
  }

  method ApproveRelations(given: seq<Relation>) returns (relations: Option<seq<Relation>>, total: nat)
    ensures relations.Some?
            <==> forall i, j :: 0 <= i < |given| && 0 <= j < |given[i].fields| ==> USAGE in given[i].fields[j]
    ensures relations.Some? ==> relations.value == ApprovedRelations(given) && total == FieldTotal(relations.value)
  {
    hide AllowedOnly, Approved, ApprovedRelations, FieldTotal;
    var kept: seq<Relation> := [];
    total := 0;
    assert given[0..] == given;
    NoFieldsYet();
    for i := 0 to |given|
      invariant forall l, j :: 0 <= l < i && 0 <= j < |given[l].fields| ==> USAGE in given[l].fields[j]
      invariant kept + ApprovedRelations(given[i..]) == ApprovedRelations(given)
      invariant total == FieldTotal(kept)
    {
      var relation := given[i];
      if field :| field in relation.fields && USAGE !in field {
        return None, total;
      }
      var fields := AllowedOnly(relation.fields);
      ApproveStep(given, i);
      if fields != [] {
        FieldTotalAppend(kept, Approved(relation));
        ApprovedKeepsFields(relation);
        Regroup(kept, [Approved(relation)], ApprovedRelations(given[i + 1..]));
        kept, total := kept + [Approved(relation)], total + |fields|;
      }
    }
    assert given[|given|..] == [] && kept + [] == kept;
    return Some(kept), total;
  }

  lemma NoFieldsYet()
    ensures FieldTotal([]) == 0 && ApprovedRelations([]) == []
  {
  }

  lemma ApproveStep(given: seq<Relation>, i: nat)
    requires i < |given|
    ensures ApprovedRelations(given[i..]) ==
            if AllowedOnly(given[i].fields) == [] then ApprovedRelations(given[i + 1..])
            else [Approved(given[i])] + ApprovedRelations(given[i + 1..])
  {
  }

  lemma {:induction false} FieldTotalAppend(kept: seq<Relation>, last: Relation)
    ensures FieldTotal(kept + [last]) == FieldTotal(kept) + |last.fields|
    decreases |kept|
  {
    if kept == [] {
      assert kept + [last] == [last] && [last][1..] == [];
    } else {
      FieldTotalAppend(kept[1..], last);
      assert (kept + [last])[1..] == kept[1..] + [last];
    }
  }

  lemma ApprovedKeepsFields(r: Relation)
    ensures Approved(r).fields == AllowedOnly(r.fields)
  {
  }

  /** The counts that are computed anew. */
  const COUNT_KEYS: set<string> := {"relation_count", "field_count", "reviewed_field_count", "unresolved_field_count"}

  method ApprovedProjection(full: Full) returns (p: Option<Json>)
    ensures p.Some? <==> UsageStated(full) && forall k :: k in HEADER_KEYS ==> k in full.header || k in COUNT_KEYS
    ensures p.Some? ==> IsProjection(ApprovedFull(full), p.value)
  {
    hide IsProjection, ApprovedRelations, FieldTotal;
    var relations, total := ApproveRelations(full.relations);
    if relations == None {
      return None;
    }
    var header := full.header["relation_count" := Number(|relations.value|)]["field_count" := Number(total)][
                    "reviewed_field_count" := Number(total)]["unresolved_field_count" := Number(0)];
    assert header.Keys == full.header.Keys + COUNT_KEYS;
    p := SemanticProjection(Full(header, relations.value));
  }

  lemma FieldTotalStep(first: Relation, rest: seq<Relation>)
    ensures FieldTotal([first] + rest) == |first.fields| + FieldTotal(rest)
  {
  }

  function AllFields(relations: seq<Relation>): seq<Record> {
    if relations == [] then [] else relations[0].fields + AllFields(relations[1..])
  }

  lemma {:induction false} AllowedOnlySplits(a: seq<Record>, b: seq<Record>)
    ensures AllowedOnly(a + b) == AllowedOnly(a) + AllowedOnly(b)
    decreases |a|
  {
    hide AllowedUsage;
    if a == [] {
      assert a + b == b;
    } else {
      AllowedOnlySplits(a[1..], b);
      assert (a + b)[1..] == a[1..] + b;
      var first := if AllowedUsage(a[0]) then [a[0]] else [];
      Regroup(first, AllowedOnly(a[1..]), AllowedOnly(b));
    }
  }

  lemma Regroup<T>(a: seq<T>, b: seq<T>, c: seq<T>)
    ensures a + (b + c) == (a + b) + c
  {
  }

  lemma {:induction false} AllowedOnlyIsExact(fields: seq<Record>, f: Record)
    ensures f in AllowedOnly(fields) <==> f in fields && AllowedUsage(f)
    decreases |fields|
  {
    hide AllowedUsage;
    if fields != [] {
      AllowedOnlyIsExact(fields[1..], f);
      assert f in fields <==> f == fields[0] || f in fields[1..];
    }
  }

  /** The approved relations hold exactly the fields with an allowed usage, in order; none is left empty. */
  lemma {:induction false} ApprovedHoldsAllowedFields(relations: seq<Relation>)
    ensures AllFields(ApprovedRelations(relations)) == AllowedOnly(AllFields(relations))
    ensures FieldTotal(ApprovedRelations(relations)) == |AllowedOnly(AllFields(relations))|
    ensures forall r :: r in ApprovedRelations(relations) ==> r.fields != []
    decreases |relations|
  {
    hide AllowedUsage;
    if relations != [] {
      var rest := ApprovedRelations(relations[1..]);
      ApprovedHoldsAllowedFields(relations[1..]);
      AllowedOnlySplits(relations[0].fields, AllFields(relations[1..]));
      if AllowedOnly(relations[0].fields) == [] {
        assert [] + rest == rest;
      } else {
        FieldTotalStep(Approved(relations[0]), rest);
        assert ([Approved(relations[0])] + rest)[1..] == rest;
      }
    }
  }

  /** A field says that the assistant may use it. */
  predicate MayBeUsed(f: Record) {
    "ai_usage" in f
    && (f["ai_usage"] == Text("decision") || f["ai_usage"] == Text("context_only")
        || f["ai_usage"] == Text("display_only"))
  }

  /** `r` is relation `g` with the fields that may be used, and its field count corrected. */
  ghost predicate CutDown(g: Relation, r: Relation) {
    && r.fields != []
    && (forall f :: f in r.fields <==> f in g.fields && MayBeUsed(f))
    && r.attributes.Keys == g.attributes.Keys + {"field_count"}
    && r.attributes["field_count"] == Number(|r.fields|)
    && (forall k :: k in g.attributes && k != "field_count" ==> r.attributes[k] == g.attributes[k])
  }

  lemma ApprovedIsCutDown(g: Relation)
    requires AllowedOnly(g.fields) != []
    ensures CutDown(g, Approved(g))
  {
    hide AllowedOnly;
    forall f
      ensures f in AllowedOnly(g.fields) <==> f in g.fields && MayBeUsed(f)
    {
      AllowedOnlyIsExact(g.fields, f);
    }
  }

  /** Every approved relation is one of the given ones cut down, and each with a field that may be used is there. */
  lemma {:induction false} ApprovedAreCutDown(given: seq<Relation>)
    ensures forall r :: r in ApprovedRelations(given) ==> exists g :: g in given && CutDown(g, r)
    ensures forall g :: g in given && (exists f :: f in g.fields && MayBeUsed(f)) ==>
              exists r :: r in ApprovedRelations(given) && CutDown(g, r)
    decreases |given|
  {
    hide AllowedOnly, CutDown, Approved, MayBeUsed;
    if given != [] {
      var first, rest := given[0], given[1..];
      ApprovedAreCutDown(rest);
      assert forall g :: g in given <==> g == first || g in rest;
      if AllowedOnly(first.fields) != [] {
        ApprovedIsCutDown(first);
        assert Approved(first) in ApprovedRelations(given);
      } else {
        NothingMayBeUsed(first);
      }
    }
  }

  lemma NothingMayBeUsed(g: Relation)
    requires AllowedOnly(g.fields) == []
    ensures forall f :: f in g.fields ==> !MayBeUsed(f)
  {
    forall f | f in g.fields
      ensures !MayBeUsed(f)
    {
      AllowedOnlyIsExact(g.fields, f);
    }
  }

  /** The approved dictionary counts itself anew, and keeps every other header value. */
  lemma ApprovedCounts(full: Full)
    ensures var a := ApprovedFull(full);
            var fields := Number(|AllFields(a.relations)|);
            && a.relations == ApprovedRelations(full.relations)
            && a.header.Keys == full.header.Keys + COUNT_KEYS
            && a.header["relation_count"] == Number(|a.relations|)
            && a.header["field_count"] == fields && a.header["reviewed_field_count"] == fields
            && a.header["unresolved_field_count"] == Number(0)
            && (forall k :: k in full.header && k !in COUNT_KEYS ==> a.header[k] == full.header[k])
  {
    hide AllowedOnly, AllFields, ApprovedRelations, FieldTotal;
    ApprovedHoldsAllowedFields(full.relations);
    var a := ApprovedFull(full);
    assert |AllFields(a.relations)| == FieldTotal(a.relations);
  }

  // ----- Building and unpacking the compact form

  predicate IsZero(v: Json) {
    v == Number(0) || v == Fraction(0.0) || v == Bool(false)
  }

  predicate Buildable(full: Full) {
    && "unresolved_approved_ai_field_count" in full.header && IsZero(full.header["unresolved_approved_ai_field_count"])
    && "production_agent_usable" in full.header && full.header["production_agent_usable"] == Bool(false)
  }

  const PROJECTION_HASH := "semantic_projection_sha256"
  const STRING_TABLE := "string_table"
  const PACKED := "packed"
  const PAYLOAD_HASH := "compact_payload_sha256"
  const PAYLOAD_SOURCE := "dictionary_payload_sha256"

  ghost predicate IsChosenProjection(full: Full, approvedOnly: bool, p: Json) {
    IsProjection(if approvedOnly then ApprovedFull(full) else full, p)
  }

  /** All keys the chosen projection looks up are there. */
  ghost predicate Complete(full: Full, approvedOnly: bool) {
    && "dictionary_payload_sha256" in full.header
    && (forall k :: HeaderKey(k) ==> k in full.header || (approvedOnly && k in COUNT_KEYS))
    && (approvedOnly ==> UsageStated(full))
  }

  /** The members beside the packed projection: what it was built from, its hashes, its strings and its scope. */
  ghost predicate Labelled(full: Full, fileHash: string, approvedOnly: bool, hash: Hash, c: Record) {
    && c.Keys == {"compact_version", "full_dictionary_file_sha256", "full_dictionary_payload_sha256",
                  "semantic_projection_sha256", "string_table", "packed", "compact_payload_sha256"}
                 + (if approvedOnly then {"scope"} else {})
    && c["compact_version"] == Text("N6_AI_COMPACT_FIELD_DICTIONARY_V1")
    && c["full_dictionary_file_sha256"] == Text(fileHash)
    && "dictionary_payload_sha256" in full.header
    && c["full_dictionary_payload_sha256"] == full.header["dictionary_payload_sha256"]
    && (approvedOnly ==> c["scope"] == Text("approved_ai_fields"))
    && c["compact_payload_sha256"] == Text(hash(Object(c - {"compact_payload_sha256"})))
    && exists p, table :: Carries(full, approvedOnly, hash, c, p, table)
  }

  /** The compact form carries this projection, packed with this table of its strings. */
  ghost predicate Carries(full: Full, approvedOnly: bool, hash: Hash, c: Record, p: Json, table: seq<string>) {
    && IsChosenProjection(full, approvedOnly, p)
    && Sorted(table) && (forall t :: t in table <==> HasString(p, t)) && Covered(p, IndexesOf(table))
    && {"semantic_projection_sha256", "string_table", "packed"} <= c.Keys
    && c["semantic_projection_sha256"] == Text(hash(p))
    && c["string_table"] == Array(Texts(table)) && c["packed"] == Pack(p, IndexesOf(table))
  }

  /** One of the two projections, if every key it looks up is there. */
  method ChosenProjection(full: Full, approvedOnly: bool) returns (p: Option<Json>)
    ensures p.Some?
            <==> (forall k :: HeaderKey(k) ==> k in full.header || (approvedOnly && k in COUNT_KEYS))
                 && (approvedOnly ==> UsageStated(full))
    ensures p.Some? ==> IsChosenProjection(full, approvedOnly, p.value)
  {
    hide IsProjection, UsageStated, ApprovedFull, HeaderKey;
    forall k
      ensures HeaderKey(k) <==> k in HEADER_KEYS
    {
      HeaderKeysAreListed(k);
    }
    if approvedOnly {
      p := ApprovedProjection(full);
    } else {
      p := SemanticProjection(full);
    }
  }

  /** Everything but the compact form's own hash. */
  ghost predicate Filled(
    full: Full, fileHash: string, approvedOnly: bool, hash: Hash, payload: Record, p: Json, table: seq<string>) {
    && payload.Keys == {"compact_version", "full_dictionary_file_sha256", "full_dictionary_payload_sha256",
                        "semantic_projection_sha256", "string_table", "packed"}
                       + (if approvedOnly then {"scope"} else {})
    && payload["compact_version"] == Text("N6_AI_COMPACT_FIELD_DICTIONARY_V1")
    && payload["full_dictionary_file_sha256"] == Text(fileHash)
    && "dictionary_payload_sha256" in full.header
    && payload["full_dictionary_payload_sha256"] == full.header["dictionary_payload_sha256"]
    && (approvedOnly ==> payload["scope"] == Text("approved_ai_fields"))
    && Carries(full, approvedOnly, hash, payload, p, table)
  }

  lemma FilledIsLabelled(
    full: Full, fileHash: string, approvedOnly: bool, hash: Hash, payload: Record, p: Json, table: seq<string>)
    requires Filled(full, fileHash, approvedOnly, hash, payload, p, table) && NoNegativeInteger(p)
    ensures var compact := payload["compact_payload_sha256" := Text(hash(Object(payload)))];
            Labelled(full, fileHash, approvedOnly, hash, compact) && UnpackCompact(compact, hash) == Some(p)
  {
    hide IsChosenProjection, Unpack, Pack, UnpackCompact, NoNegativeInteger, HasString, Sorted;
    var compact := payload[PAYLOAD_HASH := Text(hash(Object(payload)))];
    UnpackUndoesPack(p, table, IndexesOf(table));
    BuiltUnpacks(payload, p, table, IndexesOf(table), hash);
    assert compact - {PAYLOAD_HASH} == payload;
    assert Carries(full, approvedOnly, hash, compact, p, table);
  }

  function Members(file: Json, source: Json, projection: Json, table: Json, packed: Json): (members: Record)
    ensures members.Keys == {"compact_version", "full_dictionary_file_sha256", "full_dictionary_payload_sha256",
                             "semantic_projection_sha256", "string_table", "packed"}
    ensures members["compact_version"] == Text("N6_AI_COMPACT_FIELD_DICTIONARY_V1")
    ensures members["full_dictionary_file_sha256"] == file && members["full_dictionary_payload_sha256"] == source
    ensures members["semantic_projection_sha256"] == projection
    ensures members["string_table"] == table && members["packed"] == packed
  {
    map["compact_version" := Text("N6_AI_COMPACT_FIELD_DICTIONARY_V1"), "full_dictionary_file_sha256" := file,
        "full_dictionary_payload_sha256" := source, PROJECTION_HASH := projection, STRING_TABLE := table,
        PACKED := packed]
  }

  /** Puts the compact form of a projection together. */
  method Assemble(full: Full, fileHash: string, approvedOnly: bool, hash: Hash, p: Json) returns (compact: Record)
    requires "dictionary_payload_sha256" in full.header
    requires IsChosenProjection(full, approvedOnly, p) && NoNegativeInteger(p)
    ensures Labelled(full, fileHash, approvedOnly, hash, compact) && UnpackCompact(compact, hash) == Some(p)
  {
    hide IsChosenProjection, Pack, UnpackCompact, NoNegativeInteger, HasString, Sorted, Labelled, Members;
    var strings := CollectStrings(p, {});
    var table := SortedTable(strings);
    var payload := Members(
      Text(fileHash), full.header[PAYLOAD_SOURCE], Text(hash(p)), Array(Texts(table)), Pack(p, IndexesOf(table)));
    if approvedOnly {
      payload := payload["scope" := Text("approved_ai_fields")];
    }
    FilledIsLabelled(full, fileHash, approvedOnly, hash, payload, p, table);
    compact := payload[PAYLOAD_HASH := Text(hash(Object(payload)))];
  }

  /**
   Builds the compact form; what is built unpacks to the chosen projection, which is
   the only one. It is built exactly when the guards hold, every key is there, and the
   projection holds no negative integer.
   */
  method BuildCompact(full: Full, fileHash: string, approvedOnly: bool, hash: Hash) returns (compact: Option<Record>)
    ensures compact.Some? ==>
              var p := UnpackCompact(compact.value, hash);
              p.Some? && IsChosenProjection(full, approvedOnly, p.value)
    ensures compact.Some? ==> Labelled(full, fileHash, approvedOnly, hash, compact.value)
    ensures compact.Some?
            <==> && "unresolved_approved_ai_field_count" in full.header
                 && full.header["unresolved_approved_ai_field_count"] in {Number(0), Fraction(0.0), Bool(false)}
                 && "production_agent_usable" in full.header && full.header["production_agent_usable"] == Bool(false)
                 && Complete(full, approvedOnly)
                 && exists p :: IsChosenProjection(full, approvedOnly, p) && NoNegativeInteger(p)
  {
    hide IsProjection, UsageStated, ApprovedFull, NoNegativeInteger, UnpackCompact, HeaderKey, Labelled;
    if !Buildable(full) || PAYLOAD_SOURCE !in full.header {
      return None;
    }
    var projection := ChosenProjection(full, approvedOnly);
    if projection == None {
      return None;
    }
    var p := projection.value;
    if !NoNegativeInteger(p) {
      forall q | IsChosenProjection(full, approvedOnly, q)
        ensures !NoNegativeInteger(q)
      {
        ProjectionIsUnique(if approvedOnly then ApprovedFull(full) else full, p, q);
      }
      return None;
    }
    var built := Assemble(full, fileHash, approvedOnly, hash, p);
    return Some(built);
  }

  function AsTable(v: Json): Option<seq<string>> {
    if v.Array? && (forall i :: 0 <= i < |v.items| ==> v.items[i].Text?) then
      var table := seq(|v.items|, i requires 0 <= i < |v.items| => v.items[i].s);
      if Sorted(table) then Some(table) else None
    else None
  }

  /** Checks both hashes and the string table, and replaces the indexes by their strings. */
  function UnpackCompact(compact: Record, hash: Hash): Option<Json> {
    if PAYLOAD_HASH !in compact || compact[PAYLOAD_HASH] != Text(hash(Object(compact - {PAYLOAD_HASH}))) then None
    else if STRING_TABLE !in compact || AsTable(compact[STRING_TABLE]) == None || PACKED !in compact then None
    else
      var projection := Unpack(compact[PACKED], AsTable(compact[STRING_TABLE]).value);
      if projection == None || PROJECTION_HASH !in compact || compact[PROJECTION_HASH] != Text(hash(projection.value))
        then None
      else projection
  }

  /** When exactly a compact form unpacks, and to what. */
  lemma UnpackChecks(c: Record, hash: Hash, p: Json)
    ensures UnpackCompact(c, hash) == Some(p)
            <==> (&& {"compact_payload_sha256", "semantic_projection_sha256", "string_table", "packed"} <= c.Keys
                  && c["compact_payload_sha256"] == Text(hash(Object(c - {"compact_payload_sha256"})))
                  && c["semantic_projection_sha256"] == Text(hash(p))
                  && exists table :: Sorted(table) && c["string_table"] == Array(Texts(table))
                                     && Unpack(c["packed"], table) == Some(p))
  {
    hide Unpack, Sorted;
    if STRING_TABLE in c {
      ReadTable(c[STRING_TABLE]);
    }
  }

  lemma ReadTable(v: Json)
    ensures forall table :: AsTable(v) == Some(table) <==> Sorted(table) && v == Array(Texts(table))
  {
    hide Sorted;
    forall table
      ensures AsTable(v) == Some(table) <==> Sorted(table) && v == Array(Texts(table))
    {
      if v.Array? && forall i :: 0 <= i < |v.items| ==> v.items[i].Text? {
        var read := seq(|v.items|, i requires 0 <= i < |v.items| => v.items[i].s);
        assert Texts(read) == v.items;
        if v == Array(Texts(table)) {
          assert read == table;
        }
      }
    }
  }

  lemma BuiltUnpacks(payload: Record, p: Json, table: seq<string>, indexes: map<string, nat>, hash: Hash)
    requires Sorted(table) && Covered(p, indexes) && Unpack(Pack(p, indexes), table) == Some(p)
    requires PAYLOAD_HASH !in payload
    requires PROJECTION_HASH in payload && payload[PROJECTION_HASH] == Text(hash(p))
    requires STRING_TABLE in payload && payload[STRING_TABLE] == Array(Texts(table))
    requires PACKED in payload && payload[PACKED] == Pack(p, indexes)
    ensures UnpackCompact(payload[PAYLOAD_HASH := Text(hash(Object(payload)))], hash) == Some(p)
  {
    hide Unpack, Pack, Covered;
    var compact := payload[PAYLOAD_HASH := Text(hash(Object(payload)))];
    assert compact - {PAYLOAD_HASH} == payload;
    assert PAYLOAD_HASH[0] == 'c' && PROJECTION_HASH[0] == 's' && STRING_TABLE[0] == 's' && PACKED[0] == 'p';
    assert compact[STRING_TABLE] == Array(Texts(table)) && compact[PACKED] == Pack(p, indexes);
    var items := Texts(table);
    assert seq(|items|, i requires 0 <= i < |items| => items[i].s) == table;
  }
}
