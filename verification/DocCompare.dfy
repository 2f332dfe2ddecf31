/** What a command's JSON output carries, and the two-way comparison of it with the documented table. */
module DocCompare {
  import opened Prelude
  import opened Text
  import opened DocTable

  datatype Json =
    | Null
    | Bool(b: bool)
    | Number(n: real)
    | String(s: string)
    | Object(members: map<string, Json>)
    | Array(elems: seq<Json>)

  datatype Field = Field(name: string, typ: string)

  datatype ShapeError = NotAnObject(elem: nat) | NotAShape

  // ----- types -----

  function CoarseJSONType(v: Json): string {
    match v
    case Null => "null"
    case Bool(_) => "boolean"
    case Number(_) => "number"
    case String(_) => "string"
    case Object(_) => "object"
    case Array(elems) =>
      if elems == [] then "array"
      else if forall i :: 1 <= i < |elems| ==> CoarseJSONType(elems[i]) == CoarseJSONType(elems[0]) then
        ARRAY_OF + CoarseJSONType(elems[0])
      else "array"
  }

  const ARRAY_OF := "array of "

  /** An array is an "array of t" exactly when it is not empty and every element has type t. */
  lemma ArrayOf(elems: seq<Json>, t: string)
    ensures CoarseJSONType(Array(elems)) == "array of " + t
       <==> elems != [] && forall e :: e in elems ==> CoarseJSONType(e) == t
  {
    assert |ARRAY_OF + t| == 9 + |t| && |"array"| == 5;
    if elems != [] {
      var first := CoarseJSONType(elems[0]);
      assert first != t ==> ARRAY_OF + first != ARRAY_OF + t by {
        assert (ARRAY_OF + first)[9..] == first && (ARRAY_OF + t)[9..] == t;
      }
      assert elems[0] in elems;
      if forall i :: 1 <= i < |elems| ==> CoarseJSONType(elems[i]) == first {
        forall e | e in elems ensures CoarseJSONType(e) == first {
          var i :| 0 <= i < |elems| && elems[i] == e;
          if i > 0 { assert CoarseJSONType(elems[i]) == first; }
        }
      } else {
        var i :| 1 <= i < |elems| && CoarseJSONType(elems[i]) != first;
        assert elems[i] in elems;
      }
    }
  }

  /** The name of every kind of value; an array that is empty or holds two types is only an "array". */
  lemma TypeNames(v: Json)
    ensures v.Null? ==> CoarseJSONType(v) == "null"
    ensures v.Bool? ==> CoarseJSONType(v) == "boolean"
    ensures v.Number? ==> CoarseJSONType(v) == "number"
    ensures v.String? ==> CoarseJSONType(v) == "string"
    ensures v.Object? ==> CoarseJSONType(v) == "object"
    ensures v.Array? ==> (CoarseJSONType(v) == "array" <==>
      v.elems == [] || exists i, j :: 0 <= i < j < |v.elems| && TypesDiffer(v.elems[i], v.elems[j]))
  {
    if v.Array? && v.elems != [] {
      assert |"array"| == 5;
      var first := v.elems[0];
      if !(forall i :: 1 <= i < |v.elems| ==> CoarseJSONType(v.elems[i]) == CoarseJSONType(first)) {
        var i :| 1 <= i < |v.elems| && CoarseJSONType(v.elems[i]) != CoarseJSONType(first);
        assert TypesDiffer(v.elems[0], v.elems[i]);
      }
    }
  }

  predicate TypesDiffer(a: Json, b: Json) {
    CoarseJSONType(a) != CoarseJSONType(b)
  }

  predicate TypesCompatible(docType: string, gotType: string) {
    docType == gotType || gotType == "null" || (docType == "array" && ARRAY_OF <= gotType)
  }

  /** An observed type suits a documented one when it is the same or "null", or is an "array of" anything
      documented as an "array"; and in no other case. */
  lemma CompatibleIff(docType: string, gotType: string)
    ensures TypesCompatible(docType, gotType) <==>
      || docType == gotType || gotType == "null"
      || (docType == "array" && exists t :: gotType == "array of " + t)
  {
    if ARRAY_OF <= gotType { assert gotType == "array of " + gotType[|ARRAY_OF|..]; }
  }

  // ----- names in order -----

  /** The order of Go strings. */
  predicate Less(a: string, b: string) {
    b != "" && (a == "" || a[0] < b[0] || (a[0] == b[0] && Less(a[1..], b[1..])))
  }

  lemma {:induction false} LessIsTotal(a: string, b: string)
    ensures Less(a, b) || a == b || Less(b, a)
    ensures !(Less(a, b) && Less(b, a)) && !Less(a, a)
  {
    if a != "" && b != "" {
      LessIsTotal(a[1..], b[1..]);
      assert a == [a[0]] + a[1..] && b == [b[0]] + b[1..];
    }
    if a != "" { LessIsTotal(a[1..], a[1..]); }
  }

  lemma {:induction false} LessIsTransitive(a: string, b: string, c: string)
    requires Less(a, b) && Less(b, c)
    ensures Less(a, c)
  {
    if a != "" && a[0] == b[0] && b[0] == c[0] { LessIsTransitive(a[1..], b[1..], c[1..]); }
  }

  ghost predicate Ascending(fields: seq<Field>) {
    forall i, j :: 0 <= i < j < |fields| ==> Less(fields[i].name, fields[j].name)
  }

  /** The fields list a map of types, in the order of their names. */
  ghost predicate Lists(fields: seq<Field>, types: map<string, string>) {
    && Ascending(fields)
    && (forall f :: f in fields ==> f.name in types && types[f.name] == f.typ)
    && (forall name :: name in types ==> Field(name, types[name]) in fields)
  }

  ghost predicate SameMembers(a: seq<Field>, b: seq<Field>) {
    forall f :: f in a <==> f in b
  }

  /** There is only one such list: the order a map is walked in cannot be seen. */
  lemma ListedOnce(a: seq<Field>, b: seq<Field>, types: map<string, string>)
    requires Lists(a, types) && Lists(b, types)
    ensures a == b
  {
    forall f ensures f in a <==> f in b {
      assert f in a || f in b ==> f == Field(f.name, types[f.name]);
    }
    AscendingOnce(a, b);
  }

  lemma {:induction false} AscendingOnce(a: seq<Field>, b: seq<Field>)
    requires Ascending(a) && Ascending(b) && SameMembers(a, b)
    ensures a == b
    decreases |a|
  {
    EmptyTogether(a, b);
    if a != [] {
      var n, m := |a| - 1, |b| - 1;
      SameLast(a, b);
      WithoutLast(a);
      WithoutLast(b);
      forall f ensures f in a[..n] <==> f in b[..m] { assert f in a <==> f in b; }
      AscendingOnce(a[..n], b[..m]);
      assert a == a[..n] + [a[n]] && b == b[..m] + [b[m]];
    }
  }

  lemma EmptyTogether(a: seq<Field>, b: seq<Field>)
    requires SameMembers(a, b)
    ensures a == [] <==> b == []
  {
    if a != [] { assert a[0] in b; }
    if b != [] { assert b[0] in a; }
  }

  lemma SameLast(a: seq<Field>, b: seq<Field>)
    requires Ascending(a) && Ascending(b) && SameMembers(a, b) && a != [] && b != []
    ensures a[|a| - 1] == b[|b| - 1]
  {
    var x, y := a[|a| - 1], b[|b| - 1];
    assert x in a && y in b;
    LastIsGreatest(a, y);
    LastIsGreatest(b, x);
    LessIsTotal(x.name, y.name);
  }

  lemma LastIsGreatest(fields: seq<Field>, f: Field)
    requires Ascending(fields) && f in fields
    ensures f == fields[|fields| - 1] || Less(f.name, fields[|fields| - 1].name)
  {
    var i :| 0 <= i < |fields| && fields[i] == f;
  }

  lemma WithoutLast(fields: seq<Field>)
    requires Ascending(fields) && fields != []
    ensures Ascending(fields[..|fields| - 1])
    ensures forall f :: f in fields[..|fields| - 1] <==> f in fields && f != fields[|fields| - 1]
  {
    var n := |fields| - 1;
    assert fields == fields[..n] + [fields[n]];
    forall f | f in fields[..n] ensures f != fields[n] {
      var i :| 0 <= i < n && fields[i] == f;
      LessIsTotal(f.name, fields[n].name);
    }
  }

  /** List a map in the order of its names, walking it in any order. */
  method SortedFields(types: map<string, string>) returns (fields: seq<Field>)
    ensures Lists(fields, types)
  {
    fields := [];
    var left := types.Keys;
    ghost var done: map<string, string> := map[];
    while left != {}
      invariant left <= types.Keys && done == types - left
      invariant Lists(fields, done)
      decreases left
    {
      var name :| name in left;
      fields := Insert(fields, Field(name, types[name]), done);
      left := left - {name};
      done := done[name := types[name]];
    }
    assert done == types;
  }

  method Insert(fields: seq<Field>, f: Field, ghost types: map<string, string>) returns (more: seq<Field>)
    requires Lists(fields, types) && f.name !in types
    ensures Lists(more, types[f.name := f.typ])
  {
    var k := 0;
    while k < |fields| && Less(fields[k].name, f.name)
      invariant k <= |fields| && forall i :: 0 <= i < k ==> Less(fields[i].name, f.name)
    {
      k := k + 1;
    }
    more := fields[..k] + [f] + fields[k..];
    InsertedIsAscending(fields, f, k, types);
    InsertedIsListed(fields, f, k, types);
  }

  lemma InsertedIsAscending(fields: seq<Field>, f: Field, k: nat, types: map<string, string>)
    requires Lists(fields, types) && f.name !in types && k <= |fields|
    requires forall i :: 0 <= i < k ==> Less(fields[i].name, f.name)
    requires k < |fields| ==> !Less(fields[k].name, f.name)
    ensures Ascending(fields[..k] + [f] + fields[k..])
  {
    forall j | k <= j < |fields| ensures Less(f.name, fields[j].name) {
      assert fields[k] in fields;
      LessIsTotal(f.name, fields[k].name);
      if k < j { LessIsTransitive(f.name, fields[k].name, fields[j].name); }
    }
  }

  lemma InsertedIsListed(fields: seq<Field>, f: Field, k: nat, types: map<string, string>)
    requires Lists(fields, types) && f.name !in types && k <= |fields|
    ensures var more := fields[..k] + [f] + fields[k..]; var wider := types[f.name := f.typ];
      && (forall g :: g in more ==> g.name in wider && wider[g.name] == g.typ)
      && (forall name :: name in wider ==> Field(name, wider[name]) in more)
  {
    var more := fields[..k] + [f] + fields[k..];
    var wider := types[f.name := f.typ];
    forall g | g in more ensures g.name in wider && wider[g.name] == g.typ {
      assert g == f || g in fields;
    }
    forall name | name in wider ensures Field(name, wider[name]) in more {
      if name == f.name {
        assert more[k] == f;
      } else {
        assert Field(name, types[name]) in fields;
        assert fields == fields[..k] + fields[k..];
      }
    }
  }

  // ----- the observed fields -----

  function Types(members: map<string, Json>): map<string, string> {
    map name | name in members :: CoarseJSONType(members[name])
  }

  /** The union of the elements' fields, a later element's type replacing an earlier one's. */
  function UnionTypes(elems: seq<Json>): map<string, string>
    requires forall e :: e in elems ==> e.Object?
  {
    if elems == [] then map[]
    else UnionTypes(elems[..|elems| - 1]) + Types(elems[|elems| - 1].members)
  }

  ghost predicate Carried(elems: seq<Json>, name: string)
    requires forall e :: e in elems ==> e.Object?
  {
    exists i :: 0 <= i < |elems| && name in elems[i].members
  }

  /** Element `i` is the last one to carry the name. */
  ghost predicate LastCarrier(elems: seq<Json>, i: int, name: string)
    requires forall e :: e in elems ==> e.Object?
  {
    && 0 <= i < |elems| && name in elems[i].members
    && forall j :: i < j < |elems| ==> name !in elems[j].members
  }

  lemma CarriedByOneMore(elems: seq<Json>, name: string)
    requires elems != [] && forall e :: e in elems ==> e.Object?
    ensures Carried(elems, name) <==> name in elems[|elems| - 1].members || Carried(elems[..|elems| - 1], name)
  {
    var n := |elems| - 1;
    if Carried(elems, name) {
      var i :| 0 <= i < |elems| && name in elems[i].members;
      if i < n { assert name in elems[..n][i].members; }
    }
    if Carried(elems[..n], name) {
      var i :| 0 <= i < n && name in elems[..n][i].members;
      assert name in elems[i].members;
    }
  }

  /** A name is observed exactly when some element carries it, ... */
  lemma {:induction false} UnionIsOfTheCarried(elems: seq<Json>, name: string)
    requires forall e :: e in elems ==> e.Object?
    ensures name in UnionTypes(elems) <==> Carried(elems, name)
  {
    if elems != [] {
      UnionIsOfTheCarried(elems[..|elems| - 1], name);
      CarriedByOneMore(elems, name);
    }
  }

  /** ... with the type it has in the last element that does. */
  lemma {:induction false} UnionIsByLastCarrier(elems: seq<Json>, i: nat, name: string)
    requires forall e :: e in elems ==> e.Object?
    requires LastCarrier(elems, i, name)
    ensures name in UnionTypes(elems) && UnionTypes(elems)[name] == CoarseJSONType(elems[i].members[name])
  {
    var n := |elems| - 1;
    if i < n {
      var front := elems[..n];
      assert front[i] == elems[i] && forall j :: i < j < n ==> front[j] == elems[j];
      UnionIsByLastCarrier(front, i, name);
      assert name !in elems[n].members;
    }
  }

  predicate HasShape(top: Json) {
    top.Object? || (top.Array? && forall e :: e in top.elems ==> e.Object?)
  }

  function ObservedTypes(top: Json): map<string, string>
    requires HasShape(top)
  {
    if top.Object? then Types(top.members) else UnionTypes(top.elems)
  }

  /** The fields of an object, or the union of those of an array of objects; nothing else has any. */
  method JsonShape(top: Json) returns (r: Result<seq<Field>, ShapeError>)
    ensures r.Ok? <==> HasShape(top)
    ensures r.Ok? ==> Lists(r.value, ObservedTypes(top))
    ensures r.Err? && r.error.NotAnObject? ==>
      && top.Array? && r.error.elem < |top.elems| && !top.elems[r.error.elem].Object?
      && forall i :: 0 <= i < r.error.elem ==> top.elems[i].Object?
    ensures r == Err(NotAShape) <==> !top.Object? && !top.Array?
  {
    match top
    case Object(members) =>
      var fields := SortedFields(Types(members));
      r := Ok(fields);
    case Array(elems) =>
      var union: map<string, string> := map[];
      for i := 0 to |elems|
        invariant forall j :: 0 <= j < i ==> elems[j].Object?
        invariant forall e :: e in elems[..i] ==> e.Object?
        invariant union == UnionTypes(elems[..i])
      {
        if !elems[i].Object? { return Err(NotAnObject(i)); }
        union := AddTypes(union, elems[i].members);
        assert elems[..i + 1][..i] == elems[..i];
      }
      assert elems[..|elems|] == elems;
      var fields := SortedFields(union);
      r := Ok(fields);
    case _ =>
      r := Err(NotAShape);
  }

  /** Record every member's type, walking the members in any order. */
  method AddTypes(union: map<string, string>, members: map<string, Json>) returns (wider: map<string, string>)
    ensures wider == union + Types(members)
  {
    wider := union;
    var left := members.Keys;
    ghost var types := Types(members);
    while left != {}
      invariant left <= types.Keys == members.Keys
      invariant Recorded(wider, union, types, left)
      decreases left
    {
      var name :| name in left;
      OneMoreType(wider, union, types, left, name);
      wider := wider[name := CoarseJSONType(members[name])];
      left := left - {name};
    }
  }

  /** All types but those left are recorded. */
  ghost predicate Recorded(wider: map<string, string>, union: map<string, string>, types: map<string, string>,
                           left: set<string>) {
    wider == union + (types - left)
  }

  lemma OneMoreType(wider: map<string, string>, union: map<string, string>, types: map<string, string>,
                    left: set<string>, name: string)
    requires Recorded(wider, union, types, left) && name in types && name in left
    ensures Recorded(wider[name := types[name]], union, types, left - {name})
  {
  }

  // ----- the comparison -----

  datatype Problem =
    | DocumentedTwice(field: string, first: nat, again: nat)
    | Undocumented(field: string)
    | WrongType(field: string, line: nat, documented: string, observed: string)
    | Undescribed(field: string, line: nat)
    | Outlived(field: string, line: nat)

  /** The first row of every name. */
  function ByName(rows: seq<DocRow>): map<string, DocRow> {
    if rows == [] then map[]
    else
      var m, r := ByName(rows[..|rows| - 1]), rows[|rows| - 1];
      if r.field in m then m else m[r.field := r]
  }

  ghost predicate Distinct(rows: seq<DocRow>) {
    forall i, j :: 0 <= i < j < |rows| ==> rows[i].field != rows[j].field
  }

  predicate FieldDocumented(f: Field, r: DocRow) {
    r.field == f.name && TypesCompatible(r.typ, f.typ) && TrimSpace(r.description) != ""
  }

  /** What the two-way gate stands for. */
  ghost predicate Accepts(fields: seq<Field>, rows: seq<DocRow>) {
    && Distinct(rows)
    && (forall f :: f in fields ==> exists r :: r in rows && FieldDocumented(f, r))
    && (forall r :: r in rows && !r.optional ==> exists f :: f in fields && f.name == r.field)
  }

  lemma {:induction false} ByNameIsFirst(rows: seq<DocRow>, name: string)
    ensures name in ByName(rows) <==> exists i :: 0 <= i < |rows| && rows[i].field == name
    ensures name in ByName(rows) ==>
              exists i :: 0 <= i < |rows| && rows[i] == ByName(rows)[name] && rows[i].field == name
                && forall j :: 0 <= j < i ==> rows[j].field != name
  {
    if rows != [] {
      var n := |rows| - 1;
      var front := rows[..n];
      ByNameIsFirst(front, name);
      if name in ByName(front) {
        var i :| 0 <= i < |front| && front[i] == ByName(front)[name] && front[i].field == name
          && forall j :: 0 <= j < i ==> front[j].field != name;
        assert rows[i] == front[i] && forall j :: 0 <= j < i ==> rows[j] == front[j];
      } else {
        assert forall j :: 0 <= j < n ==> rows[j] == front[j];
        assert forall j :: 0 <= j < n ==> rows[j].field != name;
        if rows[n].field == name {
          assert rows[n] == ByName(rows)[name];
        }
      }
    }
  }

  /** Every row whose name an earlier one has, with the first row of that name. */
  function Duplicates(rows: seq<DocRow>): seq<Problem> {
    if rows == [] then []
    else
      var front, r := rows[..|rows| - 1], rows[|rows| - 1];
      Duplicates(front)
      + (if r.field in ByName(front) then [DocumentedTwice(r.field, ByName(front)[r.field].line, r.line)] else [])
  }

  /** What is wrong with the row of an observed field. */
  function FieldProblems(f: Field, byName: map<string, DocRow>): seq<Problem> {
    if f.name !in byName then [Undocumented(f.name)]
    else
      var row := byName[f.name];
      (if TypesCompatible(row.typ, f.typ) then [] else [WrongType(f.name, row.line, row.typ, f.typ)])
      + (if TrimSpace(row.description) == "" then [Undescribed(f.name, row.line)] else [])
  }

  function AllFieldProblems(fields: seq<Field>, byName: map<string, DocRow>): seq<Problem> {
    if fields == [] then []
    else AllFieldProblems(fields[..|fields| - 1], byName) + FieldProblems(fields[|fields| - 1], byName)
  }

  /** Every required row of a field the output does not have. */
  function OutlivedRows(rows: seq<DocRow>, known: set<string>): seq<Problem> {
    if rows == [] then []
    else
      var r := rows[|rows| - 1];
      OutlivedRows(rows[..|rows| - 1], known) +
        (if r.field in known || r.optional then [] else [Outlived(r.field, r.line)])
  }

  function Names(fields: seq<Field>): set<string> {
    set f | f in fields :: f.name
  }

  method FindDuplicates(rows: seq<DocRow>) returns (byName: map<string, DocRow>, problems: seq<Problem>)
    ensures byName == ByName(rows)
    ensures problems == Duplicates(rows)
    ensures problems == [] <==> Distinct(rows)
  {
    byName, problems := map[], [];
    for i := 0 to |rows|
      invariant byName == ByName(rows[..i])
      invariant problems == Duplicates(rows[..i])
      invariant problems == [] <==> Distinct(rows[..i])
    {
      var r := rows[i];
      assert rows[..i + 1][..i] == rows[..i];
      ByNameIsFirst(rows[..i], r.field);
      OneMoreDistinct(rows, i);
      if r.field in byName {
        problems := problems + [DocumentedTwice(r.field, byName[r.field].line, r.line)];
        continue;
      }
      byName := byName[r.field := r];
    }
    assert rows[..|rows|] == rows;
  }

  lemma OneMoreDistinct(rows: seq<DocRow>, i: nat)
    requires i < |rows|
    ensures Distinct(rows[..i + 1])
       <==> Distinct(rows[..i]) && !(exists j :: 0 <= j < i && rows[..i][j].field == rows[i].field)
  {
    var more, front := rows[..i + 1], rows[..i];
    assert forall j :: 0 <= j < i ==> more[j] == front[j];
    assert more[i] == rows[i];
    if Distinct(more) {
      assert forall j :: 0 <= j < i ==> more[j].field != more[i].field;
    }
  }

  /** The field has a row in the map, of a compatible type and described. */
  predicate Covered(f: Field, byName: map<string, DocRow>) {
    f.name in byName && FieldDocumented(f, byName[f.name].(field := f.name))
  }

  method CheckFields(fields: seq<Field>, byName: map<string, DocRow>) returns (problems: seq<Problem>)
    ensures problems == [] <==> forall f :: f in fields ==> Covered(f, byName)
    ensures problems == AllFieldProblems(fields, byName)
  {
    problems := [];
    for i := 0 to |fields|
      invariant problems == AllFieldProblems(fields[..i], byName)
    {
      var f := fields[i];
      OneMoreField(fields, byName, i);
      if f.name !in byName {
        problems := problems + [Undocumented(f.name)];
        continue;
      }
      var row := byName[f.name];
      ghost var before := problems;
      if !TypesCompatible(row.typ, f.typ) {
        problems := problems + [WrongType(f.name, row.line, row.typ, f.typ)];
      }
      if TrimSpace(row.description) == "" {
        problems := problems + [Undescribed(f.name, row.line)];
      }
      assert problems == before + FieldProblems(f, byName);
    }
    assert fields[..|fields|] == fields;
    NoFieldProblems(fields, byName);
  }

  lemma OneMoreField(fields: seq<Field>, byName: map<string, DocRow>, i: nat)
    requires i < |fields|
    ensures AllFieldProblems(fields[..i + 1], byName)
         == AllFieldProblems(fields[..i], byName) + FieldProblems(fields[i], byName)
  {
    assert fields[..i + 1][..i] == fields[..i];
  }

  lemma NoProblem(f: Field, byName: map<string, DocRow>)
    ensures FieldProblems(f, byName) == [] <==> Covered(f, byName)
  {
  }

  lemma MembersOneMore<T>(xs: seq<T>)
    requires xs != []
    ensures forall x :: x in xs <==> x in xs[..|xs| - 1] || x == xs[|xs| - 1]
  {
    assert xs == xs[..|xs| - 1] + [xs[|xs| - 1]];
  }

  lemma {:induction false} NoFieldProblems(fields: seq<Field>, byName: map<string, DocRow>)
    ensures AllFieldProblems(fields, byName) == [] <==> forall f :: f in fields ==> Covered(f, byName)
  {
    if fields != [] {
      var n := |fields| - 1;
      NoFieldProblems(fields[..n], byName);
      NoProblem(fields[n], byName);
      MembersOneMore(fields);
    }
  }

  method CheckRows(rows: seq<DocRow>, fields: seq<Field>) returns (problems: seq<Problem>)
    ensures problems == [] <==>
            forall r :: r in rows && !r.optional ==> exists f :: f in fields && f.name == r.field
    ensures problems == OutlivedRows(rows, Names(fields))
  {
    var known: set<string> := {};
    for i := 0 to |fields|
      invariant known == Names(fields[..i])
    {
      known := known + {fields[i].name};
      assert fields[..i + 1] == fields[..i] + [fields[i]];
    }
    assert fields[..|fields|] == fields;
    problems := [];
    for i := 0 to |rows|
      invariant problems == [] <==> forall j :: 0 <= j < i ==> rows[j].optional || rows[j].field in known
      invariant problems == OutlivedRows(rows[..i], known)
    {
      var r := rows[i];
      assert rows[..i + 1][..i] == rows[..i];
      if r.field !in known && !r.optional {
        problems := problems + [Outlived(r.field, r.line)];
      }
    }
    assert rows[..|rows|] == rows;
    KnownAreFields(rows, fields);
  }

  lemma KnownAreFields(rows: seq<DocRow>, fields: seq<Field>)
    ensures (forall j :: 0 <= j < |rows| ==> rows[j].optional || rows[j].field in Names(fields))
       <==> forall r :: r in rows && !r.optional ==> exists f :: f in fields && f.name == r.field
  {
    forall name ensures name in Names(fields) <==> exists f :: f in fields && f.name == name {}
  }

  /** With distinct names, the first row of a name is the row of that name. */
  lemma CoveredIsDocumented(f: Field, rows: seq<DocRow>)
    requires Distinct(rows)
    ensures Covered(f, ByName(rows)) <==> exists r :: r in rows && FieldDocumented(f, r)
  {
    ByNameIsFirst(rows, f.name);
    if Covered(f, ByName(rows)) {
      var i :| 0 <= i < |rows| && rows[i] == ByName(rows)[f.name] && rows[i].field == f.name;
      assert rows[i] in rows && FieldDocumented(f, rows[i]);
    }
    if exists r :: r in rows && FieldDocumented(f, r) {
      var r :| r in rows && FieldDocumented(f, r);
      var k :| 0 <= k < |rows| && rows[k] == r;
      assert f.name in ByName(rows);
      var i :| 0 <= i < |rows| && rows[i] == ByName(rows)[f.name] && rows[i].field == f.name;
      assert i == k;
    }
  }

  ghost predicate IsFirstRow(rows: seq<DocRow>, i: int, name: string) {
    && 0 <= i < |rows| && rows[i].field == name
    && forall j :: 0 <= j < i ==> rows[j].field != name
  }

  lemma FirstRowIsFound(rows: seq<DocRow>, name: string) returns (i: int)
    ensures name in ByName(rows) <==> IsFirstRow(rows, i, name)
    ensures name in ByName(rows) ==> ByName(rows)[name] == rows[i]
    ensures name !in ByName(rows) ==> forall r :: r in rows ==> r.field != name
  {
    ByNameIsFirst(rows, name);
    i := -1;
    if name in ByName(rows) {
      i :| 0 <= i < |rows| && rows[i] == ByName(rows)[name] && rows[i].field == name
        && forall j :: 0 <= j < i ==> rows[j].field != name;
    }
  }

  lemma OneFirstRow(rows: seq<DocRow>, i: int, j: int, name: string)
    requires IsFirstRow(rows, i, name) && IsFirstRow(rows, j, name)
    ensures i == j
  {
  }

  /** A problem of a repeated name. */
  ghost predicate RepeatReported(p: Problem, rows: seq<DocRow>) {
    p.DocumentedTwice? && exists i, j :: RowsRepeat(p, rows, i, j)
  }

  ghost predicate RowsRepeat(p: Problem, rows: seq<DocRow>, i: int, j: int)
    requires p.DocumentedTwice?
  {
    && i < j < |rows| && IsFirstRow(rows, i, p.field) && rows[j].field == p.field
    && p.first == rows[i].line && p.again == rows[j].line
  }

  lemma OneMoreRepeat(rows: seq<DocRow>, p: Problem)
    requires rows != []
    ensures RepeatReported(p, rows) <==>
      || RepeatReported(p, rows[..|rows| - 1])
      || (rows[|rows| - 1].field in ByName(rows[..|rows| - 1]) &&
          p == DocumentedTwice(rows[|rows| - 1].field, ByName(rows[..|rows| - 1])[rows[|rows| - 1].field].line,
                               rows[|rows| - 1].line))
  {
    var n := |rows| - 1;
    var front, last := rows[..n], rows[n];
    assert forall j :: 0 <= j < n ==> front[j] == rows[j];
    var at := FirstRowIsFound(front, last.field);
    if RepeatReported(p, front) {
      var i, j :| RowsRepeat(p, front, i, j);
      assert RowsRepeat(p, rows, i, j);
    }
    if last.field in ByName(front) {
      assert IsFirstRow(rows, at, last.field);
      assert RowsRepeat(DocumentedTwice(last.field, rows[at].line, last.line), rows, at, n);
    }
    if RepeatReported(p, rows) {
      var i, j :| RowsRepeat(p, rows, i, j);
      assert IsFirstRow(front, i, p.field);
      if j < n {
        assert RowsRepeat(p, front, i, j);
      } else {
        assert front[i] in front;
        OneFirstRow(front, i, at, p.field);
      }
    }
  }

  lemma {:induction false} DuplicatesMean(rows: seq<DocRow>, p: Problem)
    ensures p in Duplicates(rows) <==> RepeatReported(p, rows)
  {
    if rows != [] {
      DuplicatesMean(rows[..|rows| - 1], p);
      OneMoreRepeat(rows, p);
    }
  }

  lemma {:induction false} FieldProblemsMean(fields: seq<Field>, byName: map<string, DocRow>, p: Problem)
    ensures p in AllFieldProblems(fields, byName) <==> exists f :: f in fields && p in FieldProblems(f, byName)
  {
    if fields != [] {
      FieldProblemsMean(fields[..|fields| - 1], byName, p);
      MembersOneMore(fields);
    }
  }

  lemma {:induction false} OutlivedMean(rows: seq<DocRow>, known: set<string>, p: Problem)
    ensures p in OutlivedRows(rows, known) <==>
      exists r :: r in rows && r.field !in known && !r.optional && p == Outlived(r.field, r.line)
  {
    if rows != [] {
      OutlivedMean(rows[..|rows| - 1], known, p);
      MembersOneMore(rows);
    }
  }

  /** What is wrong with a field's row, in terms of the first row of its name. */
  lemma OneFieldMeans(f: Field, rows: seq<DocRow>, p: Problem)
    ensures p in FieldProblems(f, ByName(rows)) <==>
      || (p == Undocumented(f.name) && forall r :: r in rows ==> r.field != f.name)
      || exists i :: IsFirstRow(rows, i, f.name) && RowProblem(f, rows[i], p)
  {
    var at := FirstRowIsFound(rows, f.name);
    if f.name in ByName(rows) {
      assert rows[at] in rows;
      forall i | IsFirstRow(rows, i, f.name) ensures i == at { OneFirstRow(rows, i, at, f.name); }
    } else {
      forall i ensures !IsFirstRow(rows, i, f.name) { if 0 <= i < |rows| { assert rows[i] in rows; } }
    }
  }

  predicate RowProblem(f: Field, row: DocRow, p: Problem) {
    || (p == WrongType(f.name, row.line, row.typ, f.typ) && !TypesCompatible(row.typ, f.typ))
    || (p == Undescribed(f.name, row.line) && TrimSpace(row.description) == "")
  }

  /** What each problem reports, in terms of the output's fields and the document's rows: a row whose name
      an earlier one has, against the first of that name; a field without a row; a field whose first row
      has a type that does not suit or no description; a required row without a field. */
  ghost predicate Reported(p: Problem, fields: seq<Field>, rows: seq<DocRow>) {
    || RepeatReported(p, rows)
    || (exists f :: f in fields && p == Undocumented(f.name) && forall r :: r in rows ==> r.field != f.name)
    || (exists f, i :: f in fields && IsFirstRow(rows, i, f.name) && RowProblem(f, rows[i], p))
    || (exists r :: r in rows && p == Outlived(r.field, r.line) && !r.optional
          && forall f :: f in fields ==> f.name != r.field)
  }

  /** The problems reported are exactly those there are, each with its field, lines and types. */
  lemma ProblemsMean(fields: seq<Field>, rows: seq<DocRow>, p: Problem)
    ensures p in Duplicates(rows) + AllFieldProblems(fields, ByName(rows)) + OutlivedRows(rows, Names(fields))
       <==> Reported(p, fields, rows)
  {
    DuplicatesMean(rows, p);
    FieldProblemsMean(fields, ByName(rows), p);
    forall f { OneFieldMeans(f, rows, p); }
    OutlivedMean(rows, Names(fields), p);
  }

  /** The gate is silent exactly when document and output agree in both directions. */
  method CompareCLIJSONDoc(fields: seq<Field>, rows: seq<DocRow>) returns (problems: seq<Problem>)
    ensures problems == Duplicates(rows) + AllFieldProblems(fields, ByName(rows)) + OutlivedRows(rows, Names(fields))
    ensures problems == [] <==> Accepts(fields, rows)
  {
    var byName, duplicates := FindDuplicates(rows);
    var observed := CheckFields(fields, byName);
    var outlived := CheckRows(rows, fields);
    problems := duplicates + observed + outlived;
    if Distinct(rows) {
      forall f | f in fields ensures Covered(f, byName) <==> exists r :: r in rows && FieldDocumented(f, r) {
        CoveredIsDocumented(f, rows);
      }
    }
  }
}
