/**
 Inheritance between record types: the cycle check, the memoised resolution of every type,
 and the queries about ancestors and descendants (internal/config/normalize.go, model.go).
*/
module Inheritance {
  import opened Text

  // ---------- parent chains ----------

  /** Each element's declared parent is the next one. */
  ghost predicate IsChain(parent: map<string, string>, p: seq<string>) {
    forall i :: 0 <= i < |p| - 1 ==> p[i] in parent && parent[p[i]] == p[i + 1]
  }

  ghost predicate IsCycle(parent: map<string, string>, p: seq<string>) {
    |p| >= 2 && IsChain(parent, p) && p[0] == p[|p| - 1]
  }

  ghost predicate Acyclic(parent: map<string, string>) {
    forall p :: !IsCycle(parent, p)
  }

  /** Every type in the list has its parent, if any, at an earlier position. */
  ghost predicate ParentsFirst(parent: map<string, string>, order: seq<string>) {
    forall i :: 0 <= i < |order| && order[i] in parent ==> parent[order[i]] in order[..i]
  }

  function PositionOf(order: seq<string>, name: string): (i: nat)
    requires name in order
    ensures i < |order| && order[i] == name
    ensures forall j :: 0 <= j < i ==> order[j] != name
  {
    if order[0] == name then 0 else 1 + PositionOf(order[1..], name)
  }

  lemma ParentIsEarlier(parent: map<string, string>, order: seq<string>, name: string)
    requires ParentsFirst(parent, order) && name in order && name in parent
    ensures parent[name] in order && PositionOf(order, parent[name]) < PositionOf(order, name)
  {
    var i := PositionOf(order, name);
    var j :| 0 <= j < i && order[j] == parent[name];
    assert PositionOf(order, parent[name]) <= j;
  }

  lemma {:induction false} ChainsDescend(parent: map<string, string>, order: seq<string>, p: seq<string>)
    requires ParentsFirst(parent, order) && |p| >= 1 && IsChain(parent, p) && p[0] in order
    ensures p[|p| - 1] in order
    ensures PositionOf(order, p[|p| - 1]) <= PositionOf(order, p[0])
    ensures |p| >= 2 ==> PositionOf(order, p[|p| - 1]) < PositionOf(order, p[0])
    decreases |p|
  {
    if |p| >= 2 {
      ParentIsEarlier(parent, order, p[0]);
      assert parent[p[0]] == p[1];
      ChainsDescend(parent, order, p[1..]);
    }
  }

  /** A listing with parents first rules cycles out. */
  lemma OrderedIsAcyclic(parent: map<string, string>, order: seq<string>)
    requires ParentsFirst(parent, order) && forall n :: n in parent ==> n in order
    ensures Acyclic(parent)
  {
    forall p | IsCycle(parent, p) ensures false {
      assert p[0] in parent;
      ChainsDescend(parent, order, p);
    }
  }

  // ---------- the cycle check ----------

  datatype State = Visiting | Done

  /** Depth-first search over parents, with the states and the stack of the program. */
  class CycleCheck {
    const parent: map<string, string>
    const names: set<string>
    var state: map<string, State>
    var stack: seq<string>
    ghost var order: seq<string>

    constructor (parent: map<string, string>, names: set<string>)
      requires forall n :: n in parent ==> n in names && parent[n] in names
      ensures this.parent == parent && this.names == names
      ensures Valid() && stack == [] && order == []
    {
      this.parent, this.names := parent, names;
      state, stack, order := map[], [], [];
    }

    ghost predicate Valid()
      reads this
      ensures Valid() ==> ParentsFirst(parent, order) && forall n :: n in order ==> n in names
    {
      && (forall n :: n in parent ==> n in names && parent[n] in names)
      && (forall i :: 0 <= i < |stack| ==> stack[i] in names)
      && (forall i, j :: 0 <= i < j < |stack| ==> stack[i] != stack[j])
      && IsChain(parent, stack)
      && (forall n :: (n in state && state[n] == Visiting) <==> n in stack)
      && (forall n :: (n in state && state[n] == Done) <==> n in order)
      && (forall n :: n in order ==> n in names)
      && ParentsFirst(parent, order)
    }

    ghost function OnStack(): set<string>
      reads this
    {
      set n | n in stack
    }

    /** Mark a type as being visited and push it on the stack. */
    method Enter(name: string)
      requires Valid() && name in names && name !in stack && name !in order
      requires stack != [] ==> stack[|stack| - 1] in parent && parent[stack[|stack| - 1]] == name
      modifies this
      ensures Valid() && stack == old(stack) + [name] && order == old(order)
      ensures OnStack() == old(OnStack()) + {name}
    {
      state := state[name := Visiting];
      stack := stack + [name];
    }

    /** Pop a type whose parent is done, and mark it done. */
    method Leave(name: string)
      requires Valid() && stack != [] && stack[|stack| - 1] == name
      requires name in parent ==> parent[name] in order
      modifies this
      ensures Valid() && stack == old(stack)[..|old(stack)| - 1]
      ensures order == old(order) + [name]
    {
      var top := |stack| - 1;
      assert name in stack && name !in order;
      assert forall n :: n in stack <==> n in stack[..top] || n == name;
      stack := stack[..top];
      state := state[name := Done];
      order := order + [name];
      assert forall i :: 0 <= i < |order| - 1 ==> order[..i] == old(order)[..i];
    }

    /** What the states say, and the cycle that a type still being visited closes. */
    lemma StatesMean(name: string)
      requires Valid()
      ensures name in state && state[name] == Visiting <==> name in stack
      ensures name in state && state[name] == Done <==> name in order
      ensures name in stack <==> name in OnStack()
      ensures name in stack && stack[|stack| - 1] in parent && parent[stack[|stack| - 1]] == name ==>
                IsCycle(parent, stack[PositionOf(stack, name)..] + [name])
    {
    }

    method Visit(name: string) returns (cycle: Option<seq<string>>)
      requires Valid() && name in names
      requires stack != [] ==> stack[|stack| - 1] in parent && parent[stack[|stack| - 1]] == name
      modifies this
      ensures cycle.Some? ==> IsCycle(parent, cycle.value)
      ensures cycle.None? ==> Valid() && stack == old(stack) && name in order && old(order) <= order
      decreases names - OnStack()
    {
      StatesMean(name);
      hide CycleCheck.Valid, CycleCheck.OnStack, IsCycle;
      if name in state && state[name] == Done {
        return None;
      }
      if name in state && state[name] == Visiting {
        var start := PositionOf(stack, name);
        return Some(stack[start..] + [name]);
      }
      ghost var was := OnStack();
      Enter(name);
      if name in parent {
        assert name in names - was && names - OnStack() == names - was - {name};
        cycle := Visit(parent[name]);
        if cycle.Some? {
          return;
        }
      }
      Leave(name);
      assert stack == old(stack);
      return None;
    }

    /** Visit every type in turn until a cycle is found. */
    method VisitAll(sorted: seq<string>) returns (cycle: Option<seq<string>>)
      requires Valid() && stack == [] && forall n :: n in sorted ==> n in names
      modifies this
      ensures cycle.Some? ==> IsCycle(parent, cycle.value)
      ensures cycle.None? ==> Valid() && stack == [] && forall n :: n in sorted ==> n in order
    {
      hide CycleCheck.Valid, IsCycle;
      for i := 0 to |sorted|
        invariant Valid() && stack == []
        invariant forall k :: 0 <= k < i ==> sorted[k] in order
      {
        ghost var was := order;
        cycle := Visit(sorted[i]);
        if cycle.Some? {
          return;
        }
        StaysIn(was, order);
      }
      cycle := None;
    }
  }

  // ---------- the outcome ----------

  lemma CycleIsNotAcyclic(parent: map<string, string>, p: seq<string>)
    requires IsCycle(parent, p)
    ensures !Acyclic(parent)
  {
  }

  lemma StaysIn(was: seq<string>, now: seq<string>)
    requires was <= now
    ensures forall x :: x in was ==> x in now
  {
  }

  /** The check reports nothing exactly for an acyclic parent relation, and what it reports is a cycle. */
  method ValidateInheritanceCycles(parent: map<string, string>, names: set<string>)
      returns (cycle: Option<seq<string>>, ghost order: seq<string>)
    requires forall n :: n in parent ==> n in names && parent[n] in names
    ensures cycle.None? <==> Acyclic(parent)
    ensures cycle.Some? ==> IsCycle(parent, cycle.value)
    ensures cycle.None? ==> ParentsFirst(parent, order) && forall n :: n in order <==> n in names
  {
    var check := new CycleCheck(parent, names);
    hide StrictlySorted, CycleCheck.Valid, IsCycle, ParentsFirst, Acyclic;
    var sorted := SortedKeys(names);
    cycle := check.VisitAll(sorted);
    order := check.order;
    if cycle.Some? {
      CycleIsNotAcyclic(parent, cycle.value);
    } else {
      OrderedIsAcyclic(parent, order);
    }
  }

  // ---------- type declarations ----------

  datatype Identifier = Identifier(field: string, generated: bool, pattern: string)

  datatype FieldDef = FieldDef(typ: string, required: bool, repeated: bool)

  datatype Entry = Entry(name: string, def: FieldDef)

  /** A type as declared; a json_schema, when given, stands for the fields loaded from it. */
  datatype RawType = RawType(
    name: string,
    parentName: string,
    identifier: Option<Identifier>,
    fields: seq<Entry>,
    jsonSchema: Option<seq<Entry>>,
    hasInclude: bool,
    hasData: bool)

  datatype TypeDef = TypeDef(
    name: string,
    parentName: string,
    ancestors: seq<string>,
    identifier: Identifier,
    fields: map<string, FieldDef>,
    fieldOrder: seq<string>)

  datatype Error =
    | CyclicInheritance(chain: seq<string>)
    | InvalidParent(name: string)
    | UnknownParent(name: string)
    | InvalidTypeName(name: string)
    | FieldsAndSchema(name: string)
    | NoFields(name: string)
    | SchemaWithInheritance(name: string)
    | MissingIdentifier(name: string)
    | InvalidIdentifier(name: string)
    | OverriddenIdentifier(name: string)
    | PathIdentifierWithData(name: string)
    | NoIncludeOrData(name: string)
    | InvalidField(name: string, field: string)
    | RedefinedField(name: string, field: string)

  const PATH_IDENTIFIER := "$path"

  predicate IsIdentifierChar(c: char) {
    'a' <= c <= 'z' || 'A' <= c <= 'Z' || '0' <= c <= '9' || c == '-' || c == '_'
  }

  predicate IsValidIdentifier(s: string) {
    s != "" && forall i :: 0 <= i < |s| ==> IsIdentifierChar(s[i])
  }

  predicate IsValidTypeName(s: string) {
    IsValidIdentifier(s) && 'A' <= s[0] <= 'Z'
  }

  predicate IsValidIdentifierField(s: string) {
    s == PATH_IDENTIFIER || IsValidIdentifier(s)
  }

  // ---------- the inheritance graph ----------

  /** The parent of every type that extends one; the declarations are looked at in any order. */
  method BuildInheritanceGraph(types: map<string, RawType>) returns (r: Result<map<string, string>, Error>)
    ensures r.Ok? <==> forall n :: n in types && types[n].parentName != "" ==>
            IsValidTypeName(types[n].parentName) && types[n].parentName in types
    ensures r.Ok? ==> r.value == Parents(types)
    ensures r.Err? ==> ParentFault(types, r.error)
  {
    var parent: map<string, string> := map[];
    var todo := types.Keys;
    while todo != {}
      invariant todo <= types.Keys
      invariant parent == map n | n in types && n !in todo && types[n].parentName != "" :: types[n].parentName
      invariant forall n :: n in parent ==> IsValidTypeName(parent[n]) && parent[n] in types
    {
      var name :| name in todo;
      todo := todo - {name};
      var parentName := types[name].parentName;
      if parentName == "" {
        continue;
      }
      if !IsValidTypeName(parentName) {
        return Err(InvalidParent(name));
      }
      if parentName !in types {
        return Err(UnknownParent(name));
      }
      parent := parent[name := parentName];
    }
    assert forall n :: n in types && types[n].parentName != "" ==> n in parent && parent[n] == types[n].parentName;
    return Ok(parent);
  }

  /** The type named has a parent whose name is not valid, or that is not declared. */
  ghost predicate ParentFault(types: map<string, RawType>, e: Error) {
    match e
    case InvalidParent(n) => n in types && types[n].parentName != "" && !IsValidTypeName(types[n].parentName)
    case UnknownParent(n) =>
      n in types && types[n].parentName != "" && IsValidTypeName(types[n].parentName) && types[n].parentName !in types
    case _ => false
  }

  function Parents(types: map<string, RawType>): map<string, string> {
    map n | n in types && types[n].parentName != "" :: types[n].parentName
  }

  predicate HasChildren(parent: map<string, string>, name: string) {
    exists n :: n in parent && parent[n] == name
  }

  // ---------- one type, given its parent ----------

  function NormalizeIdentifier(raw: RawType, parentDef: Option<TypeDef>): Result<Identifier, Error> {
    if parentDef.None? then
      if raw.identifier.None? || raw.identifier.value.field == "" then Err(MissingIdentifier(raw.name))
      else if !IsValidIdentifierField(raw.identifier.value.field) then Err(InvalidIdentifier(raw.name))
      else Ok(raw.identifier.value)
    else if raw.identifier.None? then Ok(parentDef.value.identifier)
    else if !IsValidIdentifierField(raw.identifier.value.field) then Err(InvalidIdentifier(raw.name))
    else if raw.identifier.value != parentDef.value.identifier then Err(OverriddenIdentifier(raw.name))
    else Ok(parentDef.value.identifier)
  }

  function NamesOf(es: seq<Entry>): (r: seq<string>)
    ensures |r| == |es|
    ensures forall i :: 0 <= i < |r| ==> r[i] == es[i].name
  {
    if es == [] then [] else [es[0].name] + NamesOf(es[1..])
  }

  /** The map a list of entries fills; a later entry of the same name wins. */
  function FieldMap(es: seq<Entry>): (m: map<string, FieldDef>)
    ensures forall n :: n in m <==> n in NamesOf(es)
  {
    if es == [] then map[]
    else
      var m := FieldMap(es[..|es| - 1]);
      assert es == es[..|es| - 1] + [es[|es| - 1]];
      assert NamesOf(es) == NamesOf(es[..|es| - 1]) + [es[|es| - 1].name];
      m[es[|es| - 1].name := es[|es| - 1].def]
  }

  function LocalEntries(raw: RawType): seq<Entry> {
    if raw.jsonSchema.Some? then raw.jsonSchema.value else raw.fields
  }

  function FirstInvalid(es: seq<Entry>): Option<string> {
    if es == [] then None
    else if !IsValidIdentifier(es[0].name) then Some(es[0].name)
    else FirstInvalid(es[1..])
  }

  /** Add the local fields, in order, to the inherited ones. */
  function MergeFields(name: string, fields: map<string, FieldDef>, order: seq<string>, local: seq<string>,
                       defs: map<string, FieldDef>)
      : (r: Result<(map<string, FieldDef>, seq<string>), Error>)
    requires forall n :: n in local ==> n in defs
    ensures r.Err? ==> r.error.RedefinedField?
    decreases |local|
  {
    if local == [] then Ok((fields, order))
    else if local[0] in fields then Err(RedefinedField(name, local[0]))
    else MergeFields(name, fields[local[0] := defs[local[0]]], order + [local[0]], local[1..], defs)
  }

  function MergeInherited(raw: RawType, parentDef: Option<TypeDef>): Result<(map<string, FieldDef>, seq<string>),
      Error> {
    var es := LocalEntries(raw);
    if parentDef.None? then Ok((FieldMap(es), NamesOf(es)))
    else MergeFields(raw.name, parentDef.value.fields, parentDef.value.fieldOrder, NamesOf(es), FieldMap(es))
  }

  function Normalize(raw: RawType, parentDef: Option<TypeDef>, hasChildren: bool): (r: Result<TypeDef, Error>)
    ensures r.Err? ==> !r.error.CyclicInheritance?
  {
    if raw.jsonSchema.Some? && raw.fields != [] then Err(FieldsAndSchema(raw.name))
    else if parentDef.None? && raw.jsonSchema.None? && raw.fields == [] then Err(NoFields(raw.name))
    else if raw.jsonSchema.Some? && (raw.parentName != "" || hasChildren) then Err(SchemaWithInheritance(raw.name))
    else
      var identifier := NormalizeIdentifier(raw, parentDef);
      if identifier.Err? then Err(identifier.error)
      else if identifier.value.field == PATH_IDENTIFIER && raw.hasData then Err(PathIdentifierWithData(raw.name))
      else if !raw.hasInclude && !raw.hasData && !hasChildren then Err(NoIncludeOrData(raw.name))
      else if raw.jsonSchema.None? && FirstInvalid(raw.fields).Some?
          then Err(InvalidField(raw.name, FirstInvalid(raw.fields).value))
      else
        var merged := MergeInherited(raw, parentDef);
        if merged.Err? then Err(merged.error)
        else
          var ancestors := if parentDef.None? then [] else parentDef.value.ancestors + [parentDef.value.name];
          Ok(TypeDef(raw.name, raw.parentName, ancestors, identifier.value, merged.value.0, merged.value.1))
  }

  method MergeInheritedFields(raw: RawType, parentDef: Option<TypeDef>)
      returns (r: Result<(map<string, FieldDef>, seq<string>), Error>)
    ensures r == MergeInherited(raw, parentDef)
  {
    var localOrder, localFields := NamesOf(LocalEntries(raw)), FieldMap(LocalEntries(raw));
    if parentDef.None? {
      return Ok((localFields, localOrder));
    }
    var mergedFields, mergedOrder := parentDef.value.fields, parentDef.value.fieldOrder;
    for i := 0 to |localOrder|
      invariant MergeInherited(raw, parentDef)
                == MergeFields(raw.name, mergedFields, mergedOrder, localOrder[i..], localFields)
    {
      assert localOrder[i..][1..] == localOrder[i + 1..];
      var fieldName := localOrder[i];
      if fieldName in mergedFields {
        return Err(RedefinedField(raw.name, fieldName));
      }
      mergedFields := mergedFields[fieldName := localFields[fieldName]];
      mergedOrder := mergedOrder + [fieldName];
    }
    return Ok((mergedFields, mergedOrder));
  }

  // ---------- resolving along a lineage ----------

  /** The chain from a root, which extends nothing, down to a type. */
  ghost predicate IsLineage(parent: map<string, string>, p: seq<string>, name: string) {
    && p != [] && p[|p| - 1] == name && p[0] !in parent
    && forall i :: 0 < i < |p| ==> p[i] in parent && parent[p[i]] == p[i - 1]
  }

  lemma {:induction false} LineageIsUnique(parent: map<string, string>, p: seq<string>, q: seq<string>, name: string)
    requires IsLineage(parent, p, name) && IsLineage(parent, q, name)
    ensures p == q
    decreases |p|
  {
    var m, n := |p| - 1, |q| - 1;
    assert p == p[..m] + [name] && q == q[..n] + [name];
    if m > 0 || n > 0 {
      assert name in parent;
      assert m > 0 && n > 0;
      LineageIsUnique(parent, p[..m], q[..n], parent[name]);
    }
  }

  ghost function LineageOf(parent: map<string, string>, order: seq<string>, name: string): (p: seq<string>)
    requires ParentsFirst(parent, order) && name in order
    ensures IsLineage(parent, p, name)
    ensures forall n :: n in p ==> n in order
    decreases PositionOf(order, name)
  {
    if name in parent then
      ParentIsEarlier(parent, order, name);
      LineageOf(parent, order, parent[name]) + [name]
    else [name]
  }

  /** Resolution without a memo: normalise from the root of the lineage downwards. */
  ghost function ResolveChain(types: map<string, RawType>, p: seq<string>): (r: Result<TypeDef, Error>)
    requires p != [] && forall n :: n in p ==> n in types
    ensures r.Err? ==> !r.error.CyclicInheritance?
  {
    var last := |p| - 1;
    var raw, hasChildren := types[p[last]], HasChildren(Parents(types), p[last]);
    if last == 0 then Normalize(raw, None, hasChildren)
    else
      var above := ResolveChain(types, p[..last]);
      if above.Err? then above else Normalize(raw, Some(above.value), hasChildren)
  }

  /** The memoised recursion. */
  class Resolver {
    const types: map<string, RawType>
    const parent: map<string, string>
    ghost const order: seq<string>
    var resolved: map<string, TypeDef>

    constructor (types: map<string, RawType>, ghost order: seq<string>)
      requires ParentsFirst(Parents(types), order) && forall n :: n in order <==> n in types
      ensures this.types == types && this.parent == Parents(types) && this.order == order
      ensures Valid() && resolved == map[]
    {
      this.types, this.parent, this.order := types, Parents(types), order;
      resolved := map[];
    }

    ghost predicate Valid()
      reads this
      ensures Valid() ==>
        && parent == Parents(types)
        && ParentsFirst(parent, order) && forall n :: n in order <==> n in types
    {
      && parent == Parents(types)
      && ParentsFirst(parent, order) && (forall n :: n in order <==> n in types)
      && forall n :: n in resolved ==> n in order && Unmemoised(n) == Ok(resolved[n])
    }

    ghost function Unmemoised(name: string): Result<TypeDef, Error>
      requires ParentsFirst(parent, order) && (forall n :: n in order <==> n in types) && name in order
    {
      ResolveChain(types, LineageOf(parent, order, name))
    }

    /** Terminates because the parents are acyclic, and answers as the recursion without a memo would. */
    method Resolve(name: string) returns (r: Result<TypeDef, Error>)
      requires Valid() && name in order
      modifies this
      ensures Valid() && r == Unmemoised(name)
      ensures r.Ok? ==> name in resolved && resolved[name] == r.value
      ensures forall n :: n in old(resolved) ==> n in resolved && resolved[n] == old(resolved)[n]
      decreases PositionOf(order, name)
    {
      hide Normalize, HasChildren, Unmemoised;
      if name in resolved {
        return Ok(resolved[name]);
      }
      var raw := types[name];
      var parentDef: Option<TypeDef> := None;
      Unfold(name);
      if name in parent {
        ParentIsEarlier(parent, order, name);
        var above := Resolve(parent[name]);
        if above.Err? {
          return above;
        }
        parentDef := Some(above.value);
      }
      r := Normalize(raw, parentDef, HasChildren(parent, name));
      if r.Ok? {
        resolved := resolved[name := r.value];
      }
    }

    /** The memo holds nothing but right answers. */
    lemma MemoIsRight()
      requires Valid()
      ensures forall n :: n in resolved ==>
              n in types && ResolveChain(types, LineageOf(parent, order, n)) == Ok(resolved[n])
    {
    }

    /** Resolve each name in turn; the first error stops it. */
    method ResolveNames(names: seq<string>) returns (failed: Option<Error>)
      requires Valid() && forall n :: n in names ==> n in order
      modifies this
      ensures Valid()
      ensures failed.None? ==> forall n :: n in names ==> n in resolved
      ensures failed.Some? ==> exists n :: n in names && Unmemoised(n) == Err(failed.value)
    {
      hide Unmemoised, Resolver.Valid, ParentsFirst;
      for i := 0 to |names|
        invariant Valid()
        invariant forall k :: 0 <= k < i ==> names[k] in resolved
      {
        var t := Resolve(names[i]);
        if t.Err? {
          assert names[i] in names;
          return Some(t.error);
        }
      }
      failed := None;
    }

    lemma Unfold(name: string)
      requires parent == Parents(types) && ParentsFirst(parent, order) && (forall n :: n in order <==> n in types)
               && name in order
      ensures name !in parent ==> Unmemoised(name) == Normalize(types[name], None, HasChildren(parent, name))
      ensures name in parent ==> parent[name] in order
      ensures name in parent && Unmemoised(parent[name]).Err? ==> Unmemoised(name) == Unmemoised(parent[name])
      ensures name in parent && Unmemoised(parent[name]).Ok? ==>
                Unmemoised(name) == Normalize(types[name], Some(Unmemoised(parent[name]).value),
                                              HasChildren(parent, name))
    {
      hide Normalize, HasChildren;
      if name in parent {
        ParentIsEarlier(parent, order, name);
        var p := LineageOf(parent, order, name);
        assert p[..|p| - 1] == LineageOf(parent, order, parent[name]);
      }
    }
  }

  // ---------- resolving every type ----------

  ghost predicate NamedAsDeclared(types: map<string, RawType>) {
    forall n :: n in types ==> types[n].name == n
  }

  /** cfg holds, for every declared type, what its lineage resolves to. */
  ghost predicate ResolvesTo(types: map<string, RawType>, cfg: map<string, TypeDef>) {
    && cfg.Keys == types.Keys
    && forall n :: n in types ==> exists p :: IsLineage(Parents(types), p, n) && Resolves(types, p, cfg[n])
  }

  ghost predicate Resolves(types: map<string, RawType>, p: seq<string>, t: TypeDef) {
    p != [] && (forall n :: n in p ==> n in types) && ResolveChain(types, p) == Ok(t)
  }

  method ResolveAll(types: map<string, RawType>, ghost order: seq<string>)
      returns (r: Result<map<string, TypeDef>, Error>)
    requires ParentsFirst(Parents(types), order) && forall n :: n in order <==> n in types
    ensures r.Ok? ==> ResolvesTo(types, r.value)
    ensures r.Err? ==> !r.error.CyclicInheritance? && Refused(types, r.error)
    ensures r.Ok? <==> forall n :: n in types ==> ResolveChain(types, LineageOf(Parents(types), order, n)).Ok?
  {
    hide Refused, ResolveChain, StrictlySorted, IsLineage, ResolvesTo, ParentsFirst, Resolver.Valid;
    var resolver := new Resolver(types, order);
    var names := SortedKeys(types.Keys);
    var failed := resolver.ResolveNames(names);
    if failed.Some? {
      ghost var n :| n in names && resolver.Unmemoised(n) == Err(failed.value);
      ChainRefused(types, LineageOf(Parents(types), order, n), n, failed.value);
      return Err(failed.value);
    }
    assert forall n :: n in types ==> n in names && n in resolver.resolved;
    resolver.MemoIsRight();
    Complete(types, order, resolver.resolved);
    return Ok(resolver.resolved);
  }

  /** A type of the configuration does not fit what it is declared under. */
  ghost predicate Refused(types: map<string, RawType>, e: Error) {
    exists n, above: Option<TypeDef> ::
      n in types && (above.None? <==> n !in Parents(types)) && Refuses(types, n, above, e)
  }

  ghost predicate Refuses(types: map<string, RawType>, n: string, above: Option<TypeDef>, e: Error)
    requires n in types
  {
    Normalize(types[n], above, HasChildren(Parents(types), n)) == Err(e)
  }

  lemma {:induction false} ChainRefused(types: map<string, RawType>, p: seq<string>, n: string, e: Error)
    requires IsLineage(Parents(types), p, n) && (forall m :: m in p ==> m in types) && ResolveChain(types, p) == Err(e)
    ensures Refused(types, e)
    decreases |p|
  {
    hide Normalize, HasChildren;
    if |p| == 1 {
      assert Refuses(types, n, None, e);
    } else {
      var up := p[..|p| - 1];
      if ResolveChain(types, up).Err? {
        ChainRefused(types, up, up[|up| - 1], e);
      } else {
        assert Refuses(types, n, Some(ResolveChain(types, up).value), e);
      }
    }
  }

  /** Every refusal names the type and is true of it. */
  lemma RefusalIsTrue(raw: RawType, above: Option<TypeDef>, hasChildren: bool)
    ensures Normalize(raw, above, hasChildren).Err? ==>
              match Normalize(raw, above, hasChildren).error
              case FieldsAndSchema(n) => n == raw.name && raw.jsonSchema.Some? && raw.fields != []
              case NoFields(n) => n == raw.name && above.None? && raw.jsonSchema.None? && raw.fields == []
              case SchemaWithInheritance(n) =>
                n == raw.name && raw.jsonSchema.Some? && (raw.parentName != "" || hasChildren)
              case MissingIdentifier(n) =>
                n == raw.name && above.None? && (raw.identifier.None? || raw.identifier.value.field == "")
              case InvalidIdentifier(n) =>
                n == raw.name && raw.identifier.Some? && !IsValidIdentifierField(raw.identifier.value.field)
              case OverriddenIdentifier(n) =>
                n == raw.name && above.Some? && raw.identifier.Some? && raw.identifier.value != above.value.identifier
              case PathIdentifierWithData(n) => n == raw.name && raw.hasData
              case NoIncludeOrData(n) => n == raw.name && !raw.hasInclude && !raw.hasData && !hasChildren
              case InvalidField(n, f) =>
                n == raw.name && !IsValidIdentifier(f) && exists entry :: entry in raw.fields && entry.name == f
              case RedefinedField(n, f) => n == raw.name && above.Some? && f in NamesOf(LocalEntries(raw))
              case _ => false
  {
    FirstInvalidIsOne(raw.fields);
    if above.Some? {
      var es := LocalEntries(raw);
      RedefinedIsLocal(raw.name, above.value.fields, above.value.fieldOrder, NamesOf(es), FieldMap(es));
    }
    hide FirstInvalid, MergeFields, LocalEntries, IsValidIdentifier, IsValidIdentifierField;
  }

  lemma {:induction false} FirstInvalidIsOne(es: seq<Entry>)
    ensures var f := FirstInvalid(es);
            f.Some? ==> !IsValidIdentifier(f.value) && exists e :: e in es && e.name == f.value
  {
    if es != [] {
      hide IsValidIdentifier;
      FirstInvalidIsOne(es[1..]);
      assert es[0] in es && forall e :: e in es[1..] ==> e in es;
    }
  }

  lemma {:induction false} RedefinedIsLocal(name: string, fields: map<string, FieldDef>, order: seq<string>,
                                            local: seq<string>,
                                            defs: map<string, FieldDef>)
    requires forall n :: n in local ==> n in defs
    ensures var r := MergeFields(name, fields, order, local, defs);
            r.Err? ==> r.error.RedefinedField? && r.error.name == name && r.error.field in local
    decreases |local|
  {
    if local != [] && local[0] !in fields {
      RedefinedIsLocal(name, fields[local[0] := defs[local[0]]], order + [local[0]], local[1..], defs);
    }
  }

  lemma Complete(types: map<string, RawType>, order: seq<string>, cfg: map<string, TypeDef>)
    requires ParentsFirst(Parents(types), order) && forall n :: n in order <==> n in types
    requires forall n :: n in cfg <==> n in types
    requires forall n :: n in types ==> ResolveChain(types, LineageOf(Parents(types), order, n)) == Ok(cfg[n])
    ensures ResolvesTo(types, cfg)
  {
    hide ResolveChain, IsLineage;
    forall n | n in types ensures exists p :: IsLineage(Parents(types), p, n) && Resolves(types, p, cfg[n]) {
      var p := LineageOf(Parents(types), order, n);
      assert Resolves(types, p, cfg[n]);
    }
  }

  lemma ParentsAreKnown(types: map<string, RawType>)
    requires forall n :: n in types && types[n].parentName != "" ==> types[n].parentName in types
    ensures forall n :: n in Parents(types) ==> n in types && Parents(types)[n] in types
  {
  }

  /** Load every type of the aggregate: graph, cycle check, names, then resolution in sorted order. */
  method NormalizeAggregate(types: map<string, RawType>) returns (r: Result<map<string, TypeDef>, Error>)
    requires NamedAsDeclared(types)
    ensures r.Ok? ==>
              ResolvesTo(types, r.value) && Acyclic(Parents(types)) && forall n :: n in types ==> IsValidTypeName(n)
    ensures r.Err? && r.error.CyclicInheritance? ==> IsCycle(Parents(types), r.error.chain)
    ensures r.Ok? <==> Normalizable(types)
    ensures r.Err? && !r.error.CyclicInheritance? ==>
              || ParentFault(types, r.error)
              || (r.error.InvalidTypeName? && r.error.name in types && !IsValidTypeName(r.error.name))
              || Refused(types, r.error)
  {
    hide Refused, ParentFault, ResolveChain, Resolves, StrictlySorted, DeclaredRight, Acyclic, IsValidTypeName,
        ParentsFirst, Parents;
    var graph := BuildInheritanceGraph(types);
    if graph.Err? {
      return Err(graph.error);
    }
    var parent := graph.value;
    ParentsAreKnown(types);
    var cycle, order := ValidateInheritanceCycles(parent, types.Keys);
    if cycle.Some? {
      return Err(CyclicInheritance(cycle.value));
    }
    var todo := types.Keys;
    while todo != {}
      invariant todo <= types.Keys
      invariant forall n :: n in types && n !in todo ==> IsValidTypeName(n)
    {
      var name :| name in todo;
      todo := todo - {name};
      if !IsValidTypeName(name) {
        return Err(InvalidTypeName(name));
      }
    }
    assert forall n :: n in types ==> IsValidTypeName(n);
    LineagesExactly(types, order);
    r := ResolveAll(types, order);
  }

  // ---------- what resolution gives a type ----------

  ghost predicate Distinct(xs: seq<string>) {
    forall i, j :: 0 <= i < j < |xs| ==> xs[i] != xs[j]
  }

  lemma {:induction false} MergedFields(name: string, fields: map<string, FieldDef>, order: seq<string>,
                                        local: seq<string>, defs: map<string, FieldDef>)
    requires forall n :: n in local ==> n in defs
    requires MergeFields(name, fields, order, local, defs).Ok?
    ensures var (f, o) := MergeFields(name, fields, order, local, defs).value;
            && o == order + local
            && f.Keys == fields.Keys + (set n | n in local)
            && (forall n :: n in fields ==> f[n] == fields[n])
            && (forall n :: n in local ==> f[n] == defs[n])
    ensures Distinct(local) && forall n :: n in local ==> n !in fields
    decreases |local|
  {
    if local != [] {
      MergedFields(name, fields[local[0] := defs[local[0]]], order + [local[0]], local[1..], defs);
      assert order + [local[0]] + local[1..] == order + local;
    }
  }

  /** The local field names along a lineage, root first. */
  ghost function LocalNames(types: map<string, RawType>, p: seq<string>): seq<string>
    requires forall n :: n in p ==> n in types
  {
    if p == [] then []
    else LocalNames(types, p[..|p| - 1]) + NamesOf(LocalEntries(types[p[|p| - 1]]))
  }

  /** A type with the given name, ancestors, identifier and field order; its root declares rootOrder. */
  ghost predicate Inherits(t: TypeDef, name: string, parentName: string, ancestors: seq<string>,
                           identifier: Option<Identifier>, order: seq<string>, rootOrder: seq<string>)
  {
    && t.name == name && t.parentName == parentName && t.ancestors == ancestors
    && identifier == Some(t.identifier)
    && t.fieldOrder == order && (forall n :: n in t.fields <==> n in order)
    && (Distinct(order) <==> Distinct(rootOrder))
  }

  /** What a resolved type has to do with the declarations on its lineage. */
  ghost predicate InheritsAlong(types: map<string, RawType>, p: seq<string>, t: TypeDef)
    requires p != [] && forall n :: n in p ==> n in types
  {
    var own, root := types[p[|p| - 1]], types[p[0]];
    Inherits(t, own.name, own.parentName, p[..|p| - 1], root.identifier, LocalNames(types, p),
             NamesOf(LocalEntries(root)))
  }

  lemma NormalizeParts(raw: RawType, parentDef: Option<TypeDef>, hasChildren: bool)
    requires Normalize(raw, parentDef, hasChildren).Ok?
    ensures var t := Normalize(raw, parentDef, hasChildren).value;
            && NormalizeIdentifier(raw, parentDef) == Ok(t.identifier)
            && MergeInherited(raw, parentDef) == Ok((t.fields, t.fieldOrder))
            && t.name == raw.name && t.parentName == raw.parentName
            && t.ancestors == (if parentDef.None? then [] else parentDef.value.ancestors + [parentDef.value.name])
  {
  }

  /**
   The ancestors are the lineage above the type, the identifier is the root's, the fields are
   the root's followed by each generation's own; only the root may declare a name twice.
  */
  lemma {:induction false} ChainInherits(types: map<string, RawType>, p: seq<string>)
    requires p != [] && (forall n :: n in p ==> n in types) && NamedAsDeclared(types)
    requires ResolveChain(types, p).Ok?
    ensures InheritsAlong(types, p, ResolveChain(types, p).value)
    decreases |p|
  {
    hide Normalize, HasChildren, Inherits, NamesOf, LocalEntries;
    LocalNamesStep(types, p);
    if |p| == 1 {
      RootInherits(types[p[0]], HasChildren(Parents(types), p[0]));
      assert LocalNames(types, p[..0]) == []
             && ResolveChain(types, p) == Normalize(types[p[0]], None, HasChildren(Parents(types), p[0]));
      hide LocalNames, ResolveChain;
      assert p[..0] == [] && LocalNames(types, p) == NamesOf(LocalEntries(types[p[0]]));
    } else {
      var up := p[..|p| - 1];
      ChainInherits(types, up);
      ResolveStep(types, p);
      hide LocalNames, ResolveChain;
      assert up[|up| - 1] in p && up[0] == p[0];
      assert up[..|up| - 1] + [up[|up| - 1]] == up;
      ChildInherits(types[p[|p| - 1]], ResolveChain(types, up).value, HasChildren(Parents(types), p[|p| - 1]),
                    up[|up| - 1], types[up[|up| - 1]].parentName, up[..|up| - 1], types[p[0]].identifier,
                    LocalNames(types, up), NamesOf(LocalEntries(types[p[0]])));
    }
  }

  lemma RootInherits(raw: RawType, hasChildren: bool)
    requires Normalize(raw, None, hasChildren).Ok?
    ensures var local := NamesOf(LocalEntries(raw));
            Inherits(Normalize(raw, None, hasChildren).value, raw.name, raw.parentName, [], raw.identifier, local,
                     local)
  {
    NormalizeParts(raw, None, hasChildren);
    hide Normalize, LocalEntries, Distinct;
  }

  lemma ResolveStep(types: map<string, RawType>, p: seq<string>)
    requires |p| > 1 && (forall n :: n in p ==> n in types) && ResolveChain(types, p).Ok?
    ensures ResolveChain(types, p[..|p| - 1]).Ok?
    ensures Normalize(types[p[|p| - 1]], Some(ResolveChain(types, p[..|p| - 1]).value),
                      HasChildren(Parents(types), p[|p| - 1]))
            == ResolveChain(types, p)
  {
    hide Normalize, HasChildren;
  }

  lemma ChildInherits(raw: RawType, above: TypeDef, hasChildren: bool,
                      name: string, parentName: string, ancestors: seq<string>,
                      identifier: Option<Identifier>, order: seq<string>, rootOrder: seq<string>)
    requires Inherits(above, name, parentName, ancestors, identifier, order, rootOrder)
    requires Normalize(raw, Some(above), hasChildren).Ok?
    ensures Inherits(Normalize(raw, Some(above), hasChildren).value, raw.name, raw.parentName, ancestors + [name],
                     identifier, order + NamesOf(LocalEntries(raw)), rootOrder)
  {
    var t := Normalize(raw, Some(above), hasChildren).value;
    NormalizeParts(raw, Some(above), hasChildren);
    hide Normalize, LocalEntries;
    InheritedIdentifier(raw, above, t.identifier);
    hide NormalizeIdentifier;
    ChildFields(raw, above, t);
    hide MergeInherited, Distinct;
  }

  lemma LocalNamesStep(types: map<string, RawType>, p: seq<string>)
    requires p != [] && forall n :: n in p ==> n in types
    ensures LocalNames(types, p) == LocalNames(types, p[..|p| - 1]) + NamesOf(LocalEntries(types[p[|p| - 1]]))
  {
  }

  lemma ChildFields(raw: RawType, above: TypeDef, t: TypeDef)
    requires MergeInherited(raw, Some(above)) == Ok((t.fields, t.fieldOrder))
    requires forall n :: n in above.fields <==> n in above.fieldOrder
    ensures var local := NamesOf(LocalEntries(raw));
            && t.fieldOrder == above.fieldOrder + local
            && (forall n :: n in t.fields <==> n in t.fieldOrder)
            && (Distinct(t.fieldOrder) <==> Distinct(above.fieldOrder))
  {
    hide MergeFields, LocalEntries, FieldMap;
    MergedFields(raw.name, above.fields, above.fieldOrder, NamesOf(LocalEntries(raw)), FieldMap(LocalEntries(raw)));
    AppendDistinct(above.fieldOrder, NamesOf(LocalEntries(raw)));
  }

  lemma InheritedIdentifier(raw: RawType, above: TypeDef, identifier: Identifier)
    requires NormalizeIdentifier(raw, Some(above)) == Ok(identifier)
    ensures identifier == above.identifier
  {
  }

  lemma AppendDistinct(xs: seq<string>, ys: seq<string>)
    requires Distinct(ys) && forall n :: n in ys ==> n !in xs
    ensures Distinct(xs + ys) <==> Distinct(xs)
  {
    var all := xs + ys;
    if Distinct(all) {
      forall i, j | 0 <= i < j < |xs| ensures xs[i] != xs[j] {
        assert all[i] != all[j];
      }
    }
    if Distinct(xs) {
      forall i, j | 0 <= i < j < |all| ensures all[i] != all[j] {
        if i < |xs| <= j {
          assert all[j] == ys[j - |xs|] && all[i] == xs[i] && all[j] in ys;
        }
      }
    }
  }

  // ---------- exactly which declarations resolve ----------

  /** The last type of the lineage is declared as its place in the tree demands; what is above it is right. */
  ghost predicate LevelRight(types: map<string, RawType>, p: seq<string>)
    requires p != [] && forall n :: n in p ==> n in types
  {
    var raw, hasChildren := types[p[|p| - 1]], HasChildren(Parents(types), p[|p| - 1]);
    && (raw.jsonSchema.Some? ==> raw.fields == [] && raw.parentName == "" && !hasChildren)
    && (|p| == 1 && raw.jsonSchema.None? ==> raw.fields != [])
    && IdentifierRight(types, p)
    && (raw.hasInclude || raw.hasData || hasChildren)
    && (raw.jsonSchema.None? ==> forall e :: e in raw.fields ==> IsValidIdentifier(e.name))
    && (|p| > 1 ==> AddsTo(NamesOf(LocalEntries(raw)), LocalNames(types, p[..|p| - 1])))
  }

  /** A root names a valid identifier, the others none or the same, and path identifiers go without inline data. */
  ghost predicate IdentifierRight(types: map<string, RawType>, p: seq<string>)
    requires p != [] && forall n :: n in p ==> n in types
  {
    var raw, root := types[p[|p| - 1]], types[p[0]];
    && root.identifier.Some?
    && (|p| == 1 ==> root.identifier.value.field != "" && IsValidIdentifierField(root.identifier.value.field))
    && (|p| > 1 && raw.identifier.Some? ==>
        raw.identifier == root.identifier && IsValidIdentifierField(raw.identifier.value.field))
    && !(root.identifier.value.field == PATH_IDENTIFIER && raw.hasData)
  }

  ghost predicate AddsTo(local: seq<string>, inherited: seq<string>) {
    Distinct(local) && forall n :: n in local ==> n !in inherited
  }

  /** The type's lineage is known and the type is declared as it demands. */
  ghost predicate DeclaredRight(types: map<string, RawType>, n: string) {
    exists p :: p != [] && IsLineage(Parents(types), p, n) && (forall m :: m in p ==> m in types)
        && LevelRight(types, p)
  }

  lemma {:induction false} MergeFieldsExactly(name: string, fields: map<string, FieldDef>, order: seq<string>,
                                              local: seq<string>,
                                              defs: map<string, FieldDef>)
    requires forall n :: n in local ==> n in defs
    ensures MergeFields(name, fields, order, local, defs).Ok? <==>
            Distinct(local) && forall n :: n in local ==> n !in fields
    decreases |local|
  {
    if MergeFields(name, fields, order, local, defs).Ok? {
      MergedFields(name, fields, order, local, defs);
    } else {
      var rest := local[1..];
      assert forall n :: n in rest ==> n in local;
      if local[0] !in fields {
        MergeFieldsExactly(name, fields[local[0] := defs[local[0]]], order + [local[0]], rest, defs);
        DistinctTail(local);
      }
    }
  }

  lemma DistinctTail(xs: seq<string>)
    requires xs != []
    ensures Distinct(xs) <==> Distinct(xs[1..]) && xs[0] !in xs[1..]
  {
    var rest := xs[1..];
    assert forall i :: 0 <= i < |rest| ==> rest[i] == xs[i + 1];
    if Distinct(rest) && xs[0] !in rest {
      forall i, j | 0 <= i < j < |xs| ensures xs[i] != xs[j] {
        assert xs[j] == rest[j - 1] && rest[j - 1] in rest;
        assert i > 0 ==> xs[i] == rest[i - 1];
      }
    }
  }

  lemma {:induction false} FirstInvalidExactly(es: seq<Entry>)
    ensures FirstInvalid(es).None? <==> forall e :: e in es ==> IsValidIdentifier(e.name)
  {
    if es != [] {
      hide IsValidIdentifier;
      FirstInvalidExactly(es[1..]);
      assert es == [es[0]] + es[1..];
    }
  }

  /** When what is above resolves, the type does exactly if it is declared right. */
  lemma LevelExactly(types: map<string, RawType>, p: seq<string>)
    requires p != [] && (forall n :: n in p ==> n in types) && NamedAsDeclared(types)
    requires |p| > 1 ==> ResolveChain(types, p[..|p| - 1]).Ok?
    ensures ResolveChain(types, p).Ok? <==> LevelRight(types, p)
  {
    var raw, hasChildren := types[p[|p| - 1]], HasChildren(Parents(types), p[|p| - 1]);
    FirstInvalidExactly(raw.fields);
    if |p| == 1 {
      hide Normalize, HasChildren;
      NormalizeRoot(raw, hasChildren);
    } else {
      hide Normalize, HasChildren, MergeFields, LocalEntries, LocalNames, FirstInvalid, NamesOf, FieldMap;
      var above := ResolveChain(types, p[..|p| - 1]).value;
      AboveInherits(types, p);
      FieldsAdd(raw, above, LocalNames(types, p[..|p| - 1]));
      NormalizeChild(raw, above, hasChildren);
    }
  }

  lemma AboveInherits(types: map<string, RawType>, p: seq<string>)
    requires |p| > 1 && (forall n :: n in p ==> n in types) && NamedAsDeclared(types)
    requires ResolveChain(types, p[..|p| - 1]).Ok?
    ensures var above := ResolveChain(types, p[..|p| - 1]).value;
            && types[p[0]].identifier == Some(above.identifier)
            && forall n :: n in above.fields <==> n in LocalNames(types, p[..|p| - 1])
  {
    hide Normalize, HasChildren, LocalNames, ResolveChain;
    assert p[..|p| - 1][0] == p[0];
    ChainInherits(types, p[..|p| - 1]);
  }

  lemma FieldsAdd(raw: RawType, above: TypeDef, inherited: seq<string>)
    requires forall n :: n in above.fields <==> n in inherited
    ensures var es := LocalEntries(raw);
            MergeFields(raw.name, above.fields, above.fieldOrder, NamesOf(es), FieldMap(es)).Ok? <==>
                AddsTo(NamesOf(es), inherited)
  {
    hide MergeFields, LocalEntries, NamesOf;
    var es := LocalEntries(raw);
    MergeFieldsExactly(raw.name, above.fields, above.fieldOrder, NamesOf(es), FieldMap(es));
  }

  lemma NormalizeRoot(raw: RawType, hasChildren: bool)
    ensures Normalize(raw, None, hasChildren).Ok? <==>
              && (raw.jsonSchema.Some? ==> raw.fields == [] && raw.parentName == "" && !hasChildren)
              && (raw.jsonSchema.None? ==> raw.fields != [])
              && raw.identifier.Some? && raw.identifier.value.field != ""
                  && IsValidIdentifierField(raw.identifier.value.field)
              && !(raw.identifier.value.field == PATH_IDENTIFIER && raw.hasData)
              && (raw.hasInclude || raw.hasData || hasChildren)
              && (raw.jsonSchema.None? ==> FirstInvalid(raw.fields).None?)
  {
    hide FirstInvalid, FieldMap, NamesOf, IsValidIdentifierField;
  }

  lemma NormalizeChild(raw: RawType, above: TypeDef, hasChildren: bool)
    ensures Normalize(raw, Some(above), hasChildren).Ok? <==>
              && (raw.jsonSchema.Some? ==> raw.fields == [] && raw.parentName == "" && !hasChildren)
              && (raw.identifier.Some? ==>
                    raw.identifier.value == above.identifier && IsValidIdentifierField(raw.identifier.value.field))
              && !(above.identifier.field == PATH_IDENTIFIER && raw.hasData)
              && (raw.hasInclude || raw.hasData || hasChildren)
              && (raw.jsonSchema.None? ==> FirstInvalid(raw.fields).None?)
              && MergeFields(raw.name, above.fields, above.fieldOrder, NamesOf(LocalEntries(raw)),
                             FieldMap(LocalEntries(raw))).Ok?
  {
    hide FirstInvalid, FieldMap, NamesOf, MergeFields, LocalEntries, IsValidIdentifierField;
  }

  /** A lineage resolves exactly if every level of it is declared right. */
  lemma {:induction false} ChainExactly(types: map<string, RawType>, p: seq<string>)
    requires p != [] && (forall n :: n in p ==> n in types) && NamedAsDeclared(types)
    ensures ResolveChain(types, p).Ok? <==> forall k :: 0 < k <= |p| ==> LevelAt(types, p, k)
    decreases |p|
  {
    if |p| == 1 {
      hide ResolveChain, LevelRight;
      LevelExactly(types, p);
      OnlyLevel(types, p);
    } else {
      hide *;
      var up := p[..|p| - 1];
      ChainExactly(types, up);
      LevelsAbove(types, p, up);
      ChainStep(types, p);
    }
  }

  lemma OnlyLevel(types: map<string, RawType>, p: seq<string>)
    requires |p| == 1 && forall n :: n in p ==> n in types
    ensures LevelRight(types, p) <==> forall k :: 0 < k <= |p| ==> LevelAt(types, p, k)
  {
    hide LevelRight;
    assert p[..1] == p;
    assert LevelAt(types, p, 1) <==> LevelRight(types, p);
  }

  lemma LevelsAbove(types: map<string, RawType>, p: seq<string>, up: seq<string>)
    requires |p| > 1 && up == p[..|p| - 1] && forall n :: n in p ==> n in types
    ensures (forall k :: 0 < k <= |p| ==> LevelAt(types, p, k))
            <==> (forall k :: 0 < k <= |up| ==> LevelAt(types, up, k)) && LevelRight(types, p)
  {
    hide LevelRight;
    assert p[..|p|] == p;
    assert forall k :: 0 < k <= |up| ==> up[..k] == p[..k];
    assert forall k :: 0 < k <= |up| ==> (LevelAt(types, up, k) <==> LevelAt(types, p, k));
    assert LevelAt(types, p, |p|) <==> LevelRight(types, p);
  }

  lemma ChainStep(types: map<string, RawType>, p: seq<string>)
    requires |p| > 1 && (forall n :: n in p ==> n in types) && NamedAsDeclared(types)
    ensures ResolveChain(types, p).Ok? <==> ResolveChain(types, p[..|p| - 1]).Ok? && LevelRight(types, p)
  {
    hide ResolveChain, LevelRight;
    ResolvesUp(types, p);
    if ResolveChain(types, p[..|p| - 1]).Ok? {
      LevelExactly(types, p);
    }
  }

  ghost predicate LevelAt(types: map<string, RawType>, p: seq<string>, k: int)
    requires (forall n :: n in p ==> n in types) && 0 < k <= |p|
  {
    LevelRight(types, p[..k])
  }

  lemma ResolvesUp(types: map<string, RawType>, p: seq<string>)
    requires |p| > 1 && forall n :: n in p ==> n in types
    ensures ResolveChain(types, p).Ok? ==> ResolveChain(types, p[..|p| - 1]).Ok?
  {
    hide Normalize, HasChildren;
  }

  /** Every lineage resolves exactly if every type is declared right. */
  lemma LineagesExactly(types: map<string, RawType>, order: seq<string>)
    requires ParentsFirst(Parents(types), order) && (forall n :: n in order <==> n in types) && NamedAsDeclared(types)
    ensures (forall n :: n in types ==> ResolveChain(types, LineageOf(Parents(types), order, n)).Ok?)
            <==> forall n :: n in types ==> DeclaredRight(types, n)
  {
    hide ResolveChain, LevelRight, IsLineage, ParentsFirst, Parents;
    forall n | n in types && ResolveChain(types, LineageOf(Parents(types), order, n)).Ok?
      ensures DeclaredRight(types, n) {
      var p := LineageOf(Parents(types), order, n);
      LineageIsNonempty(Parents(types), p, n);
      ChainExactly(types, p);
      assert LevelAt(types, p, |p|) && p[..|p|] == p;
    }
    if forall n :: n in types ==> DeclaredRight(types, n) {
      forall n | n in types ensures ResolveChain(types, LineageOf(Parents(types), order, n)).Ok? {
        var p := LineageOf(Parents(types), order, n);
        LineageIsNonempty(Parents(types), p, n);
        forall k | 0 < k <= |p| ensures LevelAt(types, p, k) {
          LineagePrefix(Parents(types), p, n, k);
          assert p[k - 1] in p && DeclaredRight(types, p[k - 1]);
          var q :| q != [] && IsLineage(Parents(types), q, p[k - 1]) && (forall m :: m in q ==> m in types)
              && LevelRight(types, q);
          LineageIsUnique(Parents(types), q, p[..k], p[k - 1]);
        }
        ChainExactly(types, p);
      }
    }
  }

  lemma LineageIsNonempty(parent: map<string, string>, p: seq<string>, n: string)
    requires IsLineage(parent, p, n)
    ensures p != []
  {
  }

  lemma LineagePrefix(parent: map<string, string>, p: seq<string>, n: string, k: int)
    requires IsLineage(parent, p, n) && 0 < k <= |p|
    ensures IsLineage(parent, p[..k], p[k - 1])
  {
  }

  /** Every type's lineage is known and declared right, the graph is acyclic, and names are valid. */
  ghost predicate Normalizable(types: map<string, RawType>) {
    && (forall n :: n in types && types[n].parentName != "" ==>
        IsValidTypeName(types[n].parentName) && types[n].parentName in types)
    && Acyclic(Parents(types))
    && (forall n :: n in types ==> IsValidTypeName(n) && DeclaredRight(types, n))
  }

  // ---------- the views of the hierarchy ----------

  function Reversed(p: seq<string>): (r: seq<string>)
    ensures |r| == |p| && forall i :: 0 <= i < |p| ==> r[i] == p[|p| - 1 - i]
  {
    if p == [] then [] else Reversed(p[1..]) + [p[0]]
  }

  lemma LineageIsDistinct(parent: map<string, string>, p: seq<string>, name: string)
    requires IsLineage(parent, p, name) && Acyclic(parent)
    ensures Distinct(p)
  {
    forall i, j | 0 <= i < j < |p| ensures p[i] != p[j] {
      var r := Reversed(p[i..j + 1]);
      forall k | 0 <= k < |r| - 1 ensures r[k] in parent && parent[r[k]] == r[k + 1] {
        assert r[k] == p[j - k] && r[k + 1] == p[j - k - 1];
      }
      assert r[0] == p[j] && r[|r| - 1] == p[i];
      assert !IsCycle(parent, r);
    }
  }

  /** Names, parents and ancestor lists of a configuration fit together. */
  ghost predicate Consistent(cfg: map<string, TypeDef>) {
    && "" !in cfg
    && forall n :: n in cfg ==> ConsistentType(cfg, n)
  }

  ghost predicate ConsistentType(cfg: map<string, TypeDef>, n: string)
    requires n in cfg
  {
    var t := cfg[n];
    && t.name == n
    && Distinct(t.ancestors + [n])
    && (t.parentName == "" <==> t.ancestors == [])
    && (t.ancestors != [] ==> t.parentName in cfg && t.ancestors == cfg[t.parentName].ancestors + [t.parentName])
  }

  lemma ResolvedIsConsistent(types: map<string, RawType>, cfg: map<string, TypeDef>)
    requires ResolvesTo(types, cfg) && Acyclic(Parents(types)) && NamedAsDeclared(types)
    requires forall n :: n in types ==> IsValidTypeName(n)
    ensures Consistent(cfg)
  {
    hide ResolveChain, IsLineage, Resolves;
    forall n | n in cfg ensures ConsistentType(cfg, n) {
      var p :| IsLineage(Parents(types), p, n) && Resolves(types, p, cfg[n]);
      if n in Parents(types) {
        ParentIsKnown(types, p, n);
        var q :| IsLineage(Parents(types), q, Parents(types)[n]) && Resolves(types, q, cfg[Parents(types)[n]]);
        ChildIsConsistent(types, cfg, p, q, n);
      } else {
        RootIsConsistent(types, cfg, p, n);
      }
    }
  }

  lemma ParentIsKnown(types: map<string, RawType>, p: seq<string>, n: string)
    requires IsLineage(Parents(types), p, n) && (exists t :: Resolves(types, p, t)) && n in Parents(types)
    ensures Parents(types)[n] in types
  {
    hide ResolveChain;
    assert p[|p| - 2] in p;
  }

  lemma ResolvedView(types: map<string, RawType>, p: seq<string>, n: string, t: TypeDef)
    requires n in types && NamedAsDeclared(types) && IsLineage(Parents(types), p, n) && Resolves(types, p, t)
    ensures t.name == n && t.parentName == types[n].parentName && t.ancestors == p[..|p| - 1]
  {
    ChainInherits(types, p);
  }

  lemma RootIsConsistent(types: map<string, RawType>, cfg: map<string, TypeDef>, p: seq<string>, n: string)
    requires n in cfg && n in types && n !in Parents(types) && NamedAsDeclared(types)
    requires IsLineage(Parents(types), p, n) && Resolves(types, p, cfg[n])
    ensures ConsistentType(cfg, n)
  {
    hide Resolves;
    ResolvedView(types, p, n, cfg[n]);
    assert |p| == 1;
  }

  lemma ChildIsConsistent(types: map<string, RawType>, cfg: map<string, TypeDef>, p: seq<string>, q: seq<string>,
                          n: string)
    requires n in cfg && n in types && n in Parents(types) && NamedAsDeclared(types) && Acyclic(Parents(types))
    requires IsLineage(Parents(types), p, n) && Resolves(types, p, cfg[n])
    requires var above := Parents(types)[n];
             above in cfg && above in types && IsLineage(Parents(types), q, above) && Resolves(types, q, cfg[above])
    ensures ConsistentType(cfg, n)
  {
    hide Resolves, Acyclic, Distinct;
    var above, last := Parents(types)[n], |p| - 1;
    ResolvedView(types, p, n, cfg[n]);
    ResolvedView(types, q, above, cfg[above]);
    LineageIsDistinct(Parents(types), p, n);
    assert last > 0 && p[..last] + [n] == p;
    LineageIsUnique(Parents(types), q, p[..last], above);
    assert p[..last] == p[..last - 1] + [p[last - 1]] && p[..last][..last - 1] == p[..last - 1];
  }

  lemma {:induction false} AncestorsNest(cfg: map<string, TypeDef>, n: string, i: nat)
    requires Consistent(cfg) && n in cfg && i < |cfg[n].ancestors|
    ensures var a := cfg[n].ancestors[i]; a in cfg && cfg[a].ancestors == cfg[n].ancestors[..i]
    decreases |cfg[n].ancestors|
  {
    assert ConsistentType(cfg, n);
    var t := cfg[n];
    var above := t.parentName;
    if i == |t.ancestors| - 1 {
      assert t.ancestors[..i] == cfg[above].ancestors;
    } else {
      AncestorsNest(cfg, above, i);
      assert t.ancestors[..i] == cfg[above].ancestors[..i];
    }
  }

  /** The first ancestor is the root of the tree. */
  lemma FirstAncestorIsRoot(cfg: map<string, TypeDef>, n: string)
    requires Consistent(cfg) && n in cfg && cfg[n].ancestors != []
    ensures var root := cfg[n].ancestors[0]; root in cfg && cfg[root].ancestors == [] && cfg[root].parentName == ""
  {
    AncestorsNest(cfg, n, 0);
    assert ConsistentType(cfg, cfg[n].ancestors[0]);
  }

  predicate InheritsFrom(cfg: map<string, TypeDef>, child: string, parent: string) {
    child in cfg && parent in cfg && (child == parent || parent in cfg[child].ancestors)
  }

  /** The walk up the declared parents finds exactly the type itself and its ancestors. */
  method IsA(cfg: map<string, TypeDef>, child: string, parent: string) returns (r: bool)
    requires Consistent(cfg)
    ensures r <==> InheritsFrom(cfg, child, parent)
  {
    if child == "" || parent == "" || child !in cfg || parent !in cfg {
      return false;
    }
    if child == parent {
      return true;
    }
    hide ConsistentType, Distinct;
    var seen, current := {child}, cfg[child];
    ghost var below := [child];
    assert current.name == child by { NameIs(cfg, child); }
    while current.parentName != ""
      invariant current.name in cfg && cfg[current.name] == current
      invariant cfg[child].ancestors + [child] == current.ancestors + below
      invariant forall n :: n in seen <==> n in below
      invariant parent !in below
      decreases |current.ancestors|
    {
      var next := current.parentName;
      StepUp(cfg, child, current.name, below);
      if next == parent {
        InPrefix(cfg[child].ancestors, child, parent, |current.ancestors| - 1);
        return true;
      }
      if next in seen {
        assert false;
      }
      seen := seen + {next};
      below := [next] + below;
      current := cfg[next];
    }
    RootHasNoAncestors(cfg, current.name);
    assert cfg[child].ancestors + [child] == below;
    NotInPrefix(cfg[child].ancestors, child, parent, below);
    return false;
  }

  lemma NameIs(cfg: map<string, TypeDef>, n: string)
    requires Consistent(cfg) && n in cfg
    ensures cfg[n].name == n
  {
    assert ConsistentType(cfg, n);
  }

  lemma RootHasNoAncestors(cfg: map<string, TypeDef>, n: string)
    requires Consistent(cfg) && n in cfg && cfg[n].parentName == ""
    ensures cfg[n].ancestors == []
  {
    assert ConsistentType(cfg, n);
  }

  /** One step of the walk: the parent is known, is the last of the ancestors, and has not been seen. */
  lemma StepUp(cfg: map<string, TypeDef>, child: string, n: string, below: seq<string>)
    requires Consistent(cfg) && child in cfg && n in cfg && cfg[n].parentName != ""
    requires cfg[child].ancestors + [child] == cfg[n].ancestors + below
    ensures var next := cfg[n].parentName;
            && next in cfg && cfg[next].name == next && next !in below
            && cfg[n].ancestors != [] && |cfg[next].ancestors| < |cfg[n].ancestors|
            && (cfg[child].ancestors + [child])[|cfg[n].ancestors| - 1] == next
            && cfg[child].ancestors + [child] == cfg[next].ancestors + ([next] + below)
  {
    hide *;
    var next := cfg[n].parentName;
    ParentStep(cfg, n);
    DistinctLineage(cfg, child);
    NotBelow(cfg[n].ancestors, below);
    StepRegroups(cfg[next].ancestors, next, below);
  }

  lemma StepRegroups(above: seq<string>, next: string, below: seq<string>)
    ensures above + [next] + below == above + ([next] + below)
    ensures (above + [next] + below)[|above|] == next
  {
  }

  lemma ParentStep(cfg: map<string, TypeDef>, n: string)
    requires Consistent(cfg) && n in cfg && cfg[n].parentName != ""
    ensures var next := cfg[n].parentName;
            next in cfg && cfg[next].name == next && cfg[n].ancestors == cfg[next].ancestors + [next]
  {
    assert ConsistentType(cfg, n);
    NameIs(cfg, cfg[n].parentName);
  }

  lemma DistinctLineage(cfg: map<string, TypeDef>, n: string)
    requires Consistent(cfg) && n in cfg
    ensures Distinct(cfg[n].ancestors + [n])
  {
    assert ConsistentType(cfg, n);
  }

  lemma NotBelow(above: seq<string>, below: seq<string>)
    requires Distinct(above + below) && above != []
    ensures above[|above| - 1] !in below
  {
    var all := above + below;
    assert forall j :: 0 <= j < |below| ==> below[j] == all[|above| + j];
    assert all[|above| - 1] == above[|above| - 1];
  }

  lemma InPrefix(ancestors: seq<string>, child: string, parent: string, i: nat)
    requires child != parent && i < |ancestors + [child]| && (ancestors + [child])[i] == parent
    ensures parent in ancestors
  {
  }

  lemma NotInPrefix(ancestors: seq<string>, child: string, parent: string, below: seq<string>)
    requires ancestors + [child] == below && parent !in below
    ensures parent !in ancestors
  {
    assert forall i :: 0 <= i < |ancestors| ==> ancestors[i] == below[i];
  }

  /** The sorted names of the types below one; the types are looked at in any order. */
  method DescendantTypes(cfg: map<string, TypeDef>, typeName: string) returns (r: seq<string>)
    requires Consistent(cfg)
    ensures StrictlySorted(r)
    ensures forall n :: n in r <==> typeName in cfg && n != typeName && InheritsFrom(cfg, n, typeName)
  {
    if typeName == "" || typeName !in cfg {
      return [];
    }
    var found: set<string> := {};
    var todo := cfg.Keys;
    while todo != {}
      invariant todo <= cfg.Keys
      invariant forall n :: n in found <==> n in cfg && n !in todo && n != typeName && InheritsFrom(cfg, n, typeName)
    {
      var candidate :| candidate in todo;
      todo := todo - {candidate};
      if candidate == typeName {
        continue;
      }
      var isA := IsA(cfg, candidate, typeName);
      if isA {
        found := found + {candidate};
      }
    }
    return SortedKeys(found);
  }

  /** The type itself, then the sorted names of the types below it. */
  function Assignable(cfg: map<string, TypeDef>, typeName: string): seq<string> {
    if typeName !in cfg then []
    else [typeName] + SortedKeys(set n | n in cfg && n != typeName && InheritsFrom(cfg, n, typeName))
  }

  lemma AssignableNames(cfg: map<string, TypeDef>, typeName: string)
    ensures Distinct(Assignable(cfg, typeName))
    ensures forall n :: n in Assignable(cfg, typeName) <==> InheritsFrom(cfg, n, typeName)
  {
    if typeName in cfg {
      hide StrictlySorted;
      HeadIsDistinct(typeName, SortedKeys(set n | n in cfg && n != typeName && InheritsFrom(cfg, n, typeName)));
    }
  }

  lemma HeadIsDistinct(head: string, rest: seq<string>)
    requires StrictlySorted(rest) && head !in rest
    ensures Distinct([head] + rest)
  {
    hide Leq;
    var all := [head] + rest;
    forall i, j | 0 <= i < j < |all| ensures all[i] != all[j] {
      assert all[j] == rest[j - 1];
      assert i > 0 ==> Less(rest[i - 1], rest[j - 1]);
    }
  }

  /** The type itself, then its descendants. */
  method AssignableTypes(cfg: map<string, TypeDef>, typeName: string) returns (r: seq<string>)
    requires Consistent(cfg)
    ensures r == Assignable(cfg, typeName)
  {
    if typeName == "" || typeName !in cfg {
      return [];
    }
    var below := DescendantTypes(cfg, typeName);
    StrictListingIsUnique(below, SortedKeys(set n | n in cfg && n != typeName && InheritsFrom(cfg, n, typeName)));
    r := [typeName] + below;
  }

  function Root(cfg: map<string, TypeDef>, n: string): string
    requires n in cfg
  {
    if cfg[n].ancestors == [] then n else cfg[n].ancestors[0]
  }

  /** The types assignable to a root are exactly its tree. */
  lemma TreeOfRoot(cfg: map<string, TypeDef>, n: string, other: string)
    requires Consistent(cfg) && n in cfg && other in cfg
    ensures Root(cfg, n) in cfg
    ensures InheritsFrom(cfg, other, Root(cfg, n)) <==> Root(cfg, other) == Root(cfg, n)
  {
    if cfg[n].ancestors != [] { FirstAncestorIsRoot(cfg, n); }
    var root := Root(cfg, n);
    if root in cfg[other].ancestors {
      var i :| 0 <= i < |cfg[other].ancestors| && cfg[other].ancestors[i] == root;
      AncestorsNest(cfg, other, i);
      assert |cfg[root].ancestors| == i;
    }
  }

  lemma SubtypesShareRoot(cfg: map<string, TypeDef>, n: string, below: string)
    requires Consistent(cfg) && InheritsFrom(cfg, below, n)
    ensures Root(cfg, below) == Root(cfg, n)
  {
    if below != n {
      var i :| 0 <= i < |cfg[below].ancestors| && cfg[below].ancestors[i] == n;
      AncestorsNest(cfg, below, i);
    }
  }

  // ---------- what inheritance makes of a whole configuration ----------

  /** A root has what it declares; any other type has what its parent has, followed by what it adds. */
  ghost predicate TakesOver(types: map<string, RawType>, cfg: map<string, TypeDef>, n: string)
    requires n in types && n in cfg
  {
    var t, raw, local := cfg[n], types[n], LocalEntries(types[n]);
    && t.parentName == raw.parentName
    && if raw.parentName == "" then
      raw.identifier == Some(t.identifier) && t.fieldOrder == NamesOf(local) && t.fields == FieldMap(local)
    else
      && raw.parentName in cfg
      && var above := cfg[raw.parentName];
      && t.identifier == above.identifier
      && t.fieldOrder == above.fieldOrder + NamesOf(local) && t.fields == above.fields + FieldMap(local)
      && AddsTo(NamesOf(local), above.fieldOrder)
  }

  /** The identifier is the root's, the ordered names are the fields, and only the root can repeat one. */
  ghost predicate KeepsToRoot(types: map<string, RawType>, cfg: map<string, TypeDef>, n: string)
    requires n in cfg
  {
    var t, root := cfg[n], Root(cfg, n);
    && root in cfg && root in types
    && types[root].identifier == Some(t.identifier) && t.identifier == cfg[root].identifier
    && (forall f :: f in t.fields <==> f in t.fieldOrder)
    && (Distinct(t.fieldOrder) <==> Distinct(NamesOf(LocalEntries(types[root]))))
  }

  /** Every type of a loaded configuration extends its parent, and whole trees share an identifier. */
  lemma ConfigurationInherits(types: map<string, RawType>, cfg: map<string, TypeDef>)
    requires ResolvesTo(types, cfg) && Acyclic(Parents(types)) && NamedAsDeclared(types)
    requires forall n :: n in types ==> IsValidTypeName(n)
    ensures Consistent(cfg) && forall n :: n in cfg ==> TakesOver(types, cfg, n) && KeepsToRoot(types, cfg, n)
  {
    hide *;
    ResolvedIsConsistent(types, cfg);
    ResolvedTakesOver(types, cfg);
    assert cfg.Keys == types.Keys by { SameNames(types, cfg); }
    forall n | n in cfg ensures KeepsToRoot(types, cfg, n) {
      TreeKeepsToRoot(types, cfg, n);
    }
  }

  lemma SameNames(types: map<string, RawType>, cfg: map<string, TypeDef>)
    requires ResolvesTo(types, cfg)
    ensures cfg.Keys == types.Keys
  {
    hide Resolves, IsLineage;
  }

  lemma ResolvedTakesOver(types: map<string, RawType>, cfg: map<string, TypeDef>)
    requires ResolvesTo(types, cfg) && NamedAsDeclared(types)
    ensures forall n :: n in cfg ==> TakesOver(types, cfg, n)
  {
    hide ResolveChain, IsLineage, Resolves, TakesOver;
    forall n | n in cfg ensures TakesOver(types, cfg, n) {
      var p :| IsLineage(Parents(types), p, n) && Resolves(types, p, cfg[n]);
      if n in Parents(types) {
        ParentIsKnown(types, p, n);
        var q :| IsLineage(Parents(types), q, Parents(types)[n]) && Resolves(types, q, cfg[Parents(types)[n]]);
        ChildTakesOver(types, cfg, p, q, n);
      } else {
        RootTakesOver(types, cfg, p, n);
      }
    }
  }

  lemma RootTakesOver(types: map<string, RawType>, cfg: map<string, TypeDef>, p: seq<string>, n: string)
    requires n in cfg && n in types && n !in Parents(types)
    requires IsLineage(Parents(types), p, n) && Resolves(types, p, cfg[n])
    ensures TakesOver(types, cfg, n)
  {
    hide Normalize, HasChildren, LocalEntries;
    assert |p| == 1;
    NormalizeParts(types[n], None, HasChildren(Parents(types), n));
  }

  lemma ChildTakesOver(types: map<string, RawType>, cfg: map<string, TypeDef>, p: seq<string>, q: seq<string>,
                       n: string)
    requires n in cfg && n in types && n in Parents(types) && NamedAsDeclared(types)
    requires IsLineage(Parents(types), p, n) && Resolves(types, p, cfg[n])
    requires var above := Parents(types)[n];
             above in cfg && above in types && IsLineage(Parents(types), q, above) && Resolves(types, q, cfg[above])
    ensures TakesOver(types, cfg, n)
  {
    hide Normalize, HasChildren, LocalEntries, MergeFields, FieldMap, NamesOf, AddsTo, ResolveChain, LocalNames,
        Inherits;
    var above, raw, up := cfg[Parents(types)[n]], types[n], p[..|p| - 1];
    assert |p| > 1;
    LineageIsUnique(Parents(types), q, up, Parents(types)[n]);
    ResolveStep(types, p);
    var local := LocalEntries(raw);
    NormalizeParts(raw, Some(above), HasChildren(Parents(types), n));
    InheritedIdentifier(raw, above, cfg[n].identifier);
    hide NormalizeIdentifier;
    ParentKeys(types, q, above);
    AddedFields(raw.name, above, NamesOf(local), FieldMap(local), cfg[n]);
  }

  lemma ParentKeys(types: map<string, RawType>, q: seq<string>, above: TypeDef)
    requires Resolves(types, q, above) && NamedAsDeclared(types)
    ensures forall f :: f in above.fields <==> f in above.fieldOrder
  {
    hide ResolveChain, LocalNames;
    ChainInherits(types, q);
  }

  lemma AddedFields(name: string, above: TypeDef, local: seq<string>, defs: map<string, FieldDef>, t: TypeDef)
    requires forall f :: f in local <==> f in defs
    requires forall f :: f in above.fields <==> f in above.fieldOrder
    requires MergeFields(name, above.fields, above.fieldOrder, local, defs) == Ok((t.fields, t.fieldOrder))
    ensures t.fieldOrder == above.fieldOrder + local && t.fields == above.fields + defs
            && AddsTo(local, above.fieldOrder)
  {
    hide MergeFields;
    MergedFields(name, above.fields, above.fieldOrder, local, defs);
  }

  lemma {:induction false} TreeKeepsToRoot(types: map<string, RawType>, cfg: map<string, TypeDef>, n: string)
    requires cfg.Keys == types.Keys && Consistent(cfg) && n in cfg
    requires forall m :: m in cfg ==> TakesOver(types, cfg, m)
    ensures KeepsToRoot(types, cfg, n)
    decreases |cfg[n].ancestors|
  {
    hide LocalEntries, NamesOf, FieldMap, Distinct, KeepsToRoot, TakesOver, AddsTo;
    assert ConsistentType(cfg, n) && TakesOver(types, cfg, n);
    if cfg[n].ancestors == [] {
      RootKeepsToRoot(types, cfg, n);
    } else {
      TreeKeepsToRoot(types, cfg, cfg[n].parentName);
      SubtypesShareRoot(cfg, cfg[n].parentName, n);
      ChildKeepsToRoot(types, cfg, n);
    }
  }

  lemma RootKeepsToRoot(types: map<string, RawType>, cfg: map<string, TypeDef>, n: string)
    requires n in cfg && n in types && cfg[n].ancestors == [] && cfg[n].parentName == "" && TakesOver(types, cfg, n)
    ensures KeepsToRoot(types, cfg, n)
  {
    hide LocalEntries, NamesOf, FieldMap, Distinct;
  }

  lemma ChildKeepsToRoot(types: map<string, RawType>, cfg: map<string, TypeDef>, n: string)
    requires n in cfg && n in types && cfg[n].parentName != "" && TakesOver(types, cfg, n)
    requires cfg[n].parentName in cfg && KeepsToRoot(types, cfg, cfg[n].parentName)
    requires Root(cfg, n) == Root(cfg, cfg[n].parentName)
    ensures KeepsToRoot(types, cfg, n)
  {
    hide LocalEntries, NamesOf, FieldMap, Distinct, Root;
    AppendDistinct(cfg[cfg[n].parentName].fieldOrder, NamesOf(LocalEntries(types[n])));
  }

  // ---------- names, and what a declaration declares ----------

  /** The character may stand in a name. */
  ghost predicate InName(c: char) {
    c in "abcdefghijklmnopqrstuvwxyz" || c in "ABCDEFGHIJKLMNOPQRSTUVWXYZ" || c in "0123456789" || c == '-' || c == '_'
  }

  /** Exactly which names are valid for fields, for types, and for the field that identifies an object. */
  lemma NamesExactly(s: string)
    ensures IsValidIdentifier(s) <==> s != "" && forall c :: c in s ==> InName(c)
    ensures IsValidTypeName(s) <==> s != "" && s[0] in "ABCDEFGHIJKLMNOPQRSTUVWXYZ" && forall c :: c in s ==> InName(c)
    ensures IsValidIdentifierField(s) <==> s == "$path" || (s != "" && forall c :: c in s ==> InName(c))
  {
    LettersExactly();
    assert forall i :: 0 <= i < |s| ==> s[i] in s;
    hide InName, IsIdentifierChar;
  }

  lemma LettersExactly()
    ensures forall c :: IsIdentifierChar(c) <==> InName(c)
    ensures forall c: char :: 'A' <= c <= 'Z' <==> c in "ABCDEFGHIJKLMNOPQRSTUVWXYZ"
  {
    Range("abcdefghijklmnopqrstuvwxyz", 'a');
    Range("ABCDEFGHIJKLMNOPQRSTUVWXYZ", 'A');
    Range("0123456789", '0');
  }

  lemma Range(letters: string, first: char)
    requires 0 < |letters| < 100 && first < 'z' && letters[0] == first
    requires forall i :: 0 <= i < |letters| ==> letters[i] as int == first as int + i
    ensures forall c: char :: first <= c <= letters[|letters| - 1] <==> c in letters
  {
    forall c: char | first <= c <= letters[|letters| - 1] ensures c in letters {
      assert letters[c as int - first as int] == c;
    }
  }

  /** A type declares its own fields, or those of its schema; of fields of one name the last counts. */
  lemma {:induction false} DeclaresExactly(raw: RawType, k: nat)
    ensures LocalEntries(raw) == if raw.jsonSchema.None? then raw.fields else raw.jsonSchema.value
    ensures var es := LocalEntries(raw);
            k < |es| && (forall j :: k < j < |es| ==> es[j].name != es[k].name) ==>
              es[k].name in FieldMap(es) && FieldMap(es)[es[k].name] == es[k].def
  {
    var es := LocalEntries(raw);
    if k < |es| && (forall j :: k < j < |es| ==> es[j].name != es[k].name) { LastCounts(es, k); }
  }

  lemma {:induction false} LastCounts(es: seq<Entry>, k: nat)
    requires k < |es| && forall j :: k < j < |es| ==> es[j].name != es[k].name
    ensures es[k].name in FieldMap(es) && FieldMap(es)[es[k].name] == es[k].def
    decreases |es|
  {
    if k < |es| - 1 { LastCounts(es[..|es| - 1], k); }
  }

  /** A type has children exactly if one names it as its parent. */
  lemma ChildrenExactly(types: map<string, RawType>, n: string)
    ensures HasChildren(Parents(types), n) <==> exists m :: m in types && types[m].parentName == n != ""
  {
    if m :| m in types && types[m].parentName == n != "" { assert m in Parents(types) && Parents(types)[m] == n; }
  }
}
