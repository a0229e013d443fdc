/** Resolution of local references and allOf parts of an OpenAPI schema, over any document. */
module SchemaResolver {
  import opened Basics

  // An absent or empty reference is no reference.
  datatype Schema = Schema(
    reference: string,
    allOf: seq<Schema>,
    properties: map<string, Schema>,
    required: seq<string>)

  type Document = map<string, Schema>  // components.schemas

  datatype Result = Resolved(schema: Schema) | CyclicReference

  const PREFIX := "#/components/schemas/"

  const EMPTY := Schema("", [], map[], [])

  predicate IsLocal(reference: string) {
    PREFIX <= reference
  }

  function Target(doc: Document, reference: string): Schema
    requires IsLocal(reference)
  {
    var name := reference[|PREFIX|..];
    if name in doc then doc[name] else EMPTY
  }

  // ---------- termination: the references the document can still follow, then the schema's size ----------

  ghost function Size(schema: Schema): nat {
    1 + (if schema.reference != "" then 1 else 0) + SizeOf(schema.allOf)
  }

  ghost function SizeOf(parts: seq<Schema>): nat {
    if parts == [] then 0 else Size(parts[0]) + SizeOf(parts[1..])
  }

  lemma {:induction false} PartIsSmaller(parts: seq<Schema>, i: nat)
    requires i < |parts|
    ensures Size(parts[i]) <= SizeOf(parts)
  {
    if i > 0 {
      PartIsSmaller(parts[1..], i - 1);
    }
  }

  ghost function Unseen(doc: Document, seen: set<string>): set<string> {
    set name | name in doc && PREFIX + name !in seen
  }

  lemma {:induction false} FollowingShrinksUnseen(doc: Document, seen: set<string>, reference: string)
    requires IsLocal(reference) && reference !in seen
    ensures
      var name := reference[|PREFIX|..];
      if name in doc then |Unseen(doc, seen + {reference})| < |Unseen(doc, seen)|
      else |Unseen(doc, seen + {reference})| <= |Unseen(doc, seen)|
  {
    var name := reference[|PREFIX|..];
    assert reference == PREFIX + name;
    var before, after := Unseen(doc, seen), Unseen(doc, seen + {reference});
    if name in doc {
      assert name in before && name !in after;
      SubsetSize(after, before - {name});
    } else {
      SubsetSize(after, before);
    }
  }

  lemma {:induction false} SubsetSize(a: set<string>, b: set<string>)
    requires a <= b
    ensures |a| <= |b|
  {
    if a != {} {
      var x :| x in a;
      SubsetSize(a - {x}, b - {x});
    }
  }

  // ---------- the resolver ----------

  function Resolve(doc: Document, schema: Schema, seen: set<string>): Result
    decreases |Unseen(doc, seen)|, Size(schema), 0
  {
    if schema.reference != "" then
      if !IsLocal(schema.reference) then Resolved(schema)
      else if schema.reference in seen then CyclicReference
      else
        FollowingShrinksUnseen(doc, seen, schema.reference);
        Resolve(doc, Target(doc, schema.reference), seen + {schema.reference})
    else if schema.allOf == [] then Resolved(schema)
    else
      ResolveParts(doc, schema.allOf, |schema.allOf|, seen)
  }

  // The accumulators after the first n parts.
  function ResolveParts(doc: Document, parts: seq<Schema>, n: nat, seen: set<string>): (r: Result)
    requires n <= |parts|
    ensures r.Resolved? ==> r.schema.reference == "" && r.schema.allOf == []
    decreases |Unseen(doc, seen)|, SizeOf(parts), n
  {
    if n == 0 then Resolved(EMPTY)
    else
      var earlier := ResolveParts(doc, parts, n - 1, seen);
      if earlier.CyclicReference? then earlier
      else
        PartIsSmaller(parts, n - 1);
        var part := Resolve(doc, parts[n - 1], seen);
        if part.CyclicReference? then part
        else
          var properties := earlier.schema.properties + part.schema.properties;
          Resolved(Schema("", [], properties, earlier.schema.required + part.schema.required))
  }

  method ResolveSchema(doc: Document, schema: Schema, seen: set<string>) returns (r: Result)
    ensures r == Resolve(doc, schema, seen)
    decreases |Unseen(doc, seen)|, Size(schema)
  {
    if schema.reference != "" {
      if !IsLocal(schema.reference) {
        return Resolved(schema);
      }
      if schema.reference in seen {
        return CyclicReference;
      }
      FollowingShrinksUnseen(doc, seen, schema.reference);
      r := ResolveSchema(doc, Target(doc, schema.reference), seen + {schema.reference});
      return;
    }
    if schema.allOf == [] {
      return Resolved(schema);
    }
    var parts := schema.allOf;
    var properties: map<string, Schema> := map[];
    var required: seq<string> := [];
    for i := 0 to |parts|
      invariant ResolveParts(doc, parts, i, seen) == Resolved(Schema("", [], properties, required))
    {
      PartIsSmaller(parts, i);
      var resolved := ResolveSchema(doc, parts[i], seen);
      if resolved.CyclicReference? {
        CycleStops(doc, parts, i + 1, |parts|, seen);
        return CyclicReference;
      }
      properties := properties + resolved.schema.properties;
      required := required + resolved.schema.required;
    }
    return Resolved(Schema("", [], properties, required));
  }

  lemma {:induction false} CycleStops(doc: Document, parts: seq<Schema>, n: nat, m: nat, seen: set<string>)
    requires n <= m <= |parts| && ResolveParts(doc, parts, n, seen).CyclicReference?
    ensures ResolveParts(doc, parts, m, seen).CyclicReference?
    decreases m
  {
    if n < m {
      CycleStops(doc, parts, n, m - 1, seen);
    }
  }

  // ---------- when it raises: the reference graph ----------

  // The local references a schema leads to directly, through allOf parts only.
  function Direct(schema: Schema): set<string>
    decreases Size(schema), 0
  {
    if schema.reference != "" then (if IsLocal(schema.reference) then {schema.reference} else {})
    else DirectOf(schema.allOf)
  }

  function DirectOf(parts: seq<Schema>): set<string>
    decreases SizeOf(parts), 1
  {
    if parts == [] then {}
    else Direct(parts[0]) + DirectOf(parts[1..])
  }

  // A path of references: the first one in the schema, each next one in the target of the one before.
  ghost predicate IsPath(doc: Document, schema: Schema, path: seq<string>)
    decreases |path|
  {
    path == [] || (path[0] in Direct(schema) && IsLocal(path[0]) && IsPath(doc, Target(doc, path[0]), path[1..]))
  }

  // A path that comes back to a reference on it, or to one already being resolved.
  ghost predicate Returns(seen: set<string>, path: seq<string>) {
    |path| > 0 && (path[|path| - 1] in seen || path[|path| - 1] in path[..|path| - 1])
  }

  ghost predicate ReachesCycle(doc: Document, schema: Schema) {
    exists path :: IsPath(doc, schema, path) && Returns({}, path)
  }

  lemma {:induction false} DirectIsLocal(schema: Schema, r: string)
    requires r in Direct(schema)
    ensures IsLocal(r)
    decreases Size(schema), 0
  {
    if schema.reference == "" {
      DirectOfIsLocal(schema.allOf, r);
    }
  }

  lemma {:induction false} DirectOfIsLocal(parts: seq<Schema>, r: string)
    requires r in DirectOf(parts)
    ensures IsLocal(r)
    decreases SizeOf(parts), 1
  {
    assert parts != [];
    assert SizeOf(parts) == Size(parts[0]) + SizeOf(parts[1..]);
    if r in Direct(parts[0]) {
      DirectIsLocal(parts[0], r);
    } else {
      DirectOfIsLocal(parts[1..], r);
    }
  }

  lemma {:induction false} DirectOfParts(parts: seq<Schema>, r: string)
    ensures r in DirectOf(parts) <==> exists i :: 0 <= i < |parts| && r in Direct(parts[i])
    decreases |parts|
  {
    if parts != [] {
      DirectOfParts(parts[1..], r);
      if r in DirectOf(parts) && r !in Direct(parts[0]) {
        var i :| 0 <= i < |parts[1..]| && r in Direct(parts[1..][i]);
        assert parts[i + 1] == parts[1..][i];
      }
      if i :| 0 <= i < |parts| && r in Direct(parts[i]) {
        if i > 0 {
          assert parts[1..][i - 1] == parts[i];
        }
      }
    }
  }

  // Resolving a reference fails on its own account, or inside its target.
  predicate Fails(doc: Document, seen: set<string>, r: string)
    requires IsLocal(r)
  {
    r in seen || Resolve(doc, Target(doc, r), seen + {r}).CyclicReference?
  }

  // A schema raises exactly when one of the references it leads to directly does.
  lemma {:induction false} RaisesThroughDirect(doc: Document, schema: Schema, seen: set<string>)
    ensures Resolve(doc, schema, seen).CyclicReference? <==>
              exists r :: r in Direct(schema) && IsLocal(r) && Fails(doc, seen, r)
    decreases Size(schema), 0, 0
  {
    if schema.reference != "" {
      if IsLocal(schema.reference) {
        assert schema.reference in Direct(schema);
      }
    } else {
      PartsRaiseThroughDirect(doc, schema.allOf, |schema.allOf|, seen);
      if r :| r in Direct(schema) && IsLocal(r) && Fails(doc, seen, r) {
        DirectOfParts(schema.allOf, r);
      }
      if j, r :| 0 <= j < |schema.allOf| && r in Direct(schema.allOf[j]) && IsLocal(r) && Fails(doc, seen, r) {
        DirectOfParts(schema.allOf, r);
      }
    }
  }

  lemma {:induction false} PartsRaiseThroughDirect(doc: Document, parts: seq<Schema>, n: nat, seen: set<string>)
    requires n <= |parts|
    ensures ResolveParts(doc, parts, n, seen).CyclicReference? <==>
              exists j, r :: 0 <= j < n && r in Direct(parts[j]) && IsLocal(r) && Fails(doc, seen, r)
    decreases SizeOf(parts), 1, n
  {
    if n > 0 {
      PartsRaiseThroughDirect(doc, parts, n - 1, seen);
      PartIsSmaller(parts, n - 1);
      RaisesThroughDirect(doc, parts[n - 1], seen);
    }
  }

  lemma {:induction false} PathRaises(doc: Document, schema: Schema, seen: set<string>, path: seq<string>)
    requires IsPath(doc, schema, path) && Returns(seen, path)
    ensures Resolve(doc, schema, seen).CyclicReference?
    decreases |path|
  {
    var r, rest := path[0], path[1..];
    if r !in seen {
      var last := path[|path| - 1];
      assert rest != [] && rest[|rest| - 1] == last;
      if last !in seen && last != r {
        var i :| 0 <= i < |path| - 1 && path[i] == last;
        assert rest[..|rest| - 1][i - 1] == last;
      }
      PathRaises(doc, Target(doc, r), seen + {r}, rest);
    }
    assert Fails(doc, seen, r);
    RaisesThroughDirect(doc, schema, seen);
  }

  lemma {:induction false} RaisedPath(doc: Document, schema: Schema, seen: set<string>) returns (path: seq<string>)
    requires Resolve(doc, schema, seen).CyclicReference?
    ensures IsPath(doc, schema, path) && Returns(seen, path)
    decreases |Unseen(doc, seen)|
  {
    RaisesThroughDirect(doc, schema, seen);
    var r :| r in Direct(schema) && IsLocal(r) && Fails(doc, seen, r);
    if r in seen {
      path := [r];
    } else {
      FollowingShrinksUnseen(doc, seen, r);
      var rest := RaisedPath(doc, Target(doc, r), seen + {r});
      path := [r] + rest;
      assert path[1..] == rest;
      var last := path[|path| - 1];
      assert path[..|path| - 1] == [r] + rest[..|rest| - 1];
    }
  }

  // Resolution raises exactly when a cycle of local references is reachable; sharing a schema never raises.
  lemma {:induction false} RaisesExactlyOnCycles(doc: Document, schema: Schema)
    ensures Resolve(doc, schema, {}).CyclicReference? <==> ReachesCycle(doc, schema)
  {
    if Resolve(doc, schema, {}).CyclicReference? {
      var path := RaisedPath(doc, schema, {});
    }
    if path :| IsPath(doc, schema, path) && Returns({}, path) {
      PathRaises(doc, schema, {}, path);
    }
  }

  // ---------- what it returns: the leaves in order ----------

  // The schemas at the ends of references and allOf parts, in reading order, following at most `hops` references
  // in a row.
  ghost function Leaves(doc: Document, schema: Schema, hops: nat): seq<Schema>
    decreases hops, Size(schema), 0
  {
    if schema.reference != "" then
      if !IsLocal(schema.reference) then [schema]
      else if hops == 0 then []
      else Leaves(doc, Target(doc, schema.reference), hops - 1)
    else if schema.allOf == [] then [schema]
    else LeavesFirst(doc, schema.allOf, |schema.allOf|, hops)
  }

  ghost function LeavesFirst(doc: Document, parts: seq<Schema>, n: nat, hops: nat): seq<Schema>
    requires n <= |parts|
    decreases hops, SizeOf(parts), n
  {
    if n == 0 then []
    else
      PartIsSmaller(parts, n - 1);
      LeavesFirst(doc, parts, n - 1, hops) + Leaves(doc, parts[n - 1], hops)
  }

  function AllRequired(leaves: seq<Schema>): seq<string> {
    if leaves == [] then [] else AllRequired(leaves[..|leaves| - 1]) + leaves[|leaves| - 1].required
  }

  // A later leaf overrides an earlier one.
  function AllProperties(leaves: seq<Schema>): map<string, Schema> {
    if leaves == [] then map[] else AllProperties(leaves[..|leaves| - 1]) + leaves[|leaves| - 1].properties
  }

  // A local reference stands for the document's schema of that name, or for an empty one if there is none.
  lemma {:induction false} ReferenceStandsForTarget(doc: Document, name: string, schema: Schema)
    requires schema.reference == PREFIX + name && Resolve(doc, schema, {}).Resolved?
    ensures name in doc ==> Resolve(doc, schema, {}) == Resolve(doc, doc[name], {PREFIX + name})
    ensures name !in doc ==> Resolve(doc, schema, {}) == Resolved(Schema("", [], map[], []))
  {
    assert schema.reference[|PREFIX|..] == name;
    assert {} + {schema.reference} == {PREFIX + name};
  }

  lemma {:induction false} RequiredConcatenated(a: seq<Schema>, b: seq<Schema>)
    ensures AllRequired(a + b) == AllRequired(a) + AllRequired(b)
    decreases |b|
  {
    if b == [] {
      assert a + b == a;
    } else {
      var n := |b| - 1;
      RequiredConcatenated(a, b[..n]);
      LastOfConcatenation(a, b);
      AppendAssociates(AllRequired(a), AllRequired(b[..n]), b[n].required);
    }
  }

  lemma {:induction false} LastOfConcatenation(a: seq<Schema>, b: seq<Schema>)
    requires b != []
    ensures a + b != [] && (a + b)[..|a + b| - 1] == a + b[..|b| - 1] && (a + b)[|a + b| - 1] == b[|b| - 1]
  {
  }

  lemma {:induction false} PropertiesConcatenated(a: seq<Schema>, b: seq<Schema>)
    ensures AllProperties(a + b) == AllProperties(a) + AllProperties(b)
    decreases |b|
  {
    if b == [] {
      assert a + b == a;
    } else {
      var n := |b| - 1;
      PropertiesConcatenated(a, b[..n]);
      LastOfConcatenation(a, b);
      MapPlusAssociates(AllProperties(a), AllProperties(b[..n]), b[n].properties);
    }
  }

  lemma {:induction false} MapPlusAssociates(x: map<string, Schema>, y: map<string, Schema>, z: map<string, Schema>)
    ensures (x + y) + z == x + (y + z)
  {
  }

  lemma {:induction false} ResolvesToLeaves(doc: Document, schema: Schema, seen: set<string>, hops: nat)
    requires Resolve(doc, schema, seen).Resolved? && hops > |Unseen(doc, seen)|
    ensures
      var leaves, result := Leaves(doc, schema, hops), Resolve(doc, schema, seen).schema;
      result.required == AllRequired(leaves) && result.properties == AllProperties(leaves)
    decreases |Unseen(doc, seen)|, Size(schema), 0
  {
    if schema.reference != "" && IsLocal(schema.reference) {
      FollowingShrinksUnseen(doc, seen, schema.reference);
      if schema.reference[|PREFIX|..] in doc {
        ResolvesToLeaves(doc, Target(doc, schema.reference), seen + {schema.reference}, hops - 1);
      } else {
        assert Leaves(doc, EMPTY, hops - 1) == [EMPTY];
        assert [EMPTY][..0] == [];
      }
    } else if schema.reference == "" && schema.allOf != [] {
      PartsResolveToLeaves(doc, schema.allOf, |schema.allOf|, seen, hops);
    } else {
      assert [schema][..0] == [];
    }
  }

  lemma {:induction false} PartsResolveToLeaves(doc: Document, parts: seq<Schema>, n: nat, seen: set<string>, hops: nat)
    requires n <= |parts| && ResolveParts(doc, parts, n, seen).Resolved? && hops > |Unseen(doc, seen)|
    ensures
      var leaves, result := LeavesFirst(doc, parts, n, hops), ResolveParts(doc, parts, n, seen).schema;
      result.required == AllRequired(leaves) && result.properties == AllProperties(leaves)
    decreases |Unseen(doc, seen)|, SizeOf(parts), n
  {
    if n > 0 {
      PartIsSmaller(parts, n - 1);
      PartsResolveToLeaves(doc, parts, n - 1, seen, hops);
      ResolvesToLeaves(doc, parts[n - 1], seen, hops);
      RequiredConcatenated(LeavesFirst(doc, parts, n - 1, hops), Leaves(doc, parts[n - 1], hops));
      PropertiesConcatenated(LeavesFirst(doc, parts, n - 1, hops), Leaves(doc, parts[n - 1], hops));
    }
  }

  // Otherwise the result joins the leaves' required lists in order, however far references are followed.
  lemma {:induction false} RequiredIsLeavesInOrder(doc: Document, schema: Schema, hops: nat)
    requires !ReachesCycle(doc, schema) && hops > |doc|
    ensures Resolve(doc, schema, {}).Resolved?
    ensures Resolve(doc, schema, {}).schema.required == AllRequired(Leaves(doc, schema, hops))
    ensures Resolve(doc, schema, {}).schema.properties == AllProperties(Leaves(doc, schema, hops))
  {
    RaisesExactlyOnCycles(doc, schema);
    SubsetSize(Unseen(doc, {}), doc.Keys);
    assert |doc.Keys| == |doc|;
    ResolvesToLeaves(doc, schema, {}, hops);
  }
}
