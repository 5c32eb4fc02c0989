/** What the schema generator leaves in its registry, and its agreement with the validator. */
module SchemaTheorems {
  import opened Wrappers
  import opened Annotations
  import opened Graph
  import opened Schema
  import TypesHandler

  // ----- The registry-free reference -----

  /** The generator can express t, leaving aside the classes that t mentions. */
  predicate Expressible(t: Ann)
    decreases t
  {
    match StripOptional(t)
    case List(args) => args == [] || Expressible(args[0])
    case Tuple(args) => args == [] || Expressible(args[0])
    case Dict(args) => |args| != 2 || Expressible(args[1])
    case Union(_) | Other(_) => false
    case _ => true
  }

  /** The classes that the generator visits from t itself; of a tuple, only the first argument. */
  function Visited(t: Ann): set<string>
    decreases t
  {
    match StripOptional(t)
    case List(args) => if args == [] then {} else Visited(args[0])
    case Tuple(args) => if args == [] then {} else Visited(args[0])
    case Dict(args) => if |args| != 2 then {} else Visited(args[1])
    case Struct(n) => {n}
    case ErrorType => {"ErrorType"}
    case _ => {}
  }

  /** The schema of t, whatever the registry; only meant for expressible annotations. */
  function SchemaOf(t: Ann, nested: bool): JsonSchema
    decreases t
  {
    match StripOptional(t)
    case Bytes => ByteString
    case Any => Anything
    case DateTime => DateTimeString
    case Scalar(kind) => ScalarSchema(kind)
    case List(args) => ArrayOf(if args == [] then Anything else SchemaOf(args[0], nested))
    case Tuple(args) => ArrayOf(if args == [] then Anything else SchemaOf(args[0], nested))
    case Dict(args) => if |args| != 2 then PlainObject else MapOf(SchemaOf(args[1], nested))
    case Struct(n) => Ref(nested, n)
    case ErrorType => Ref(nested, "ErrorType")
    case _ => Anything
  }

  function VisitedBy(fields: seq<Field>): set<string> {
    if fields == [] then {} else Visited(fields[0].ty) + VisitedBy(fields[1..])
  }

  ghost predicate AllExpressible(fields: seq<Field>) {
    forall f | f in fields :: Expressible(f.ty)
  }

  function AddAll(c: Component, fields: seq<Field>): Component
    decreases fields
  {
    if fields == [] then c
    else AddAll(AddProperty(c, fields[0].name, SchemaOf(fields[0].ty, true)), fields[1..])
  }

  /** The component of class n that does not depend on when and from where it is registered. */
  function Canonical(env: Env, n: string): Component {
    AddAll(Component(n, [], map[]), FieldsOf(env, n))
  }

  function VisitGraph(env: Env): Graph {
    map n | n in env :: VisitedBy(env[n])
  }

  ghost predicate ExpressibleClass(env: Env, n: string) {
    AllExpressible(FieldsOf(env, n))
  }

  // ----- What one call does -----

  /** The entries that a call adds are canonical, expressible and reached from where it
      starts, past the classes registered before. */
  ghost predicate AddsCanonical(env: Env, from: set<string>, reg: Registry, reg': Registry) {
    forall m | m in reg' && m !in reg ::
      reg'[m] == Canonical(env, m) && ExpressibleClass(env, m) && Reach(VisitGraph(env), from, reg.Keys, m)
  }

  /** On success everything that an added entry refers to is registered too. */
  ghost predicate AddsClosed(env: Env, from: set<string>, reg: Registry, reg': Registry) {
    from <= reg'.Keys && forall m | m in reg' && m !in reg :: Succ(VisitGraph(env), m) <= reg'.Keys
  }

  ghost predicate MeetsInexpressible(env: Env, from: set<string>, reg: Registry) {
    exists m :: Reach(VisitGraph(env), from, reg.Keys, m) && !ExpressibleClass(env, m)
  }

  /** Outcome of a call for an annotation with this schema, which mentions these classes. */
  ghost predicate CallSpec(env: Env, expressible: bool, from: set<string>, schema: JsonSchema, reg: Registry,
                           result: (Outcome, Registry)) {
    var (r, reg') := result;
    && AddsCanonical(env, from, reg, reg')
    && (r.Ok? ==> r.value == schema && expressible && AddsClosed(env, from, reg, reg'))
    && (r.Err? ==> !expressible || MeetsInexpressible(env, from, reg))
  }

  lemma {:induction false} GetSchemaSpec(env: Env, t: Ann, reg: Registry, nested: bool)
    ensures CallSpec(env, Expressible(t), Visited(t), SchemaOf(t, nested), reg, GetSchema(env, t, reg, nested))
    decreases env.Keys - reg.Keys, 1, t
  {
    match StripOptional(t)
    case List(args) => ListSpec(env, t, args, reg, nested);
    case Tuple(args) => ListSpec(env, t, args, reg, nested);
    case Dict(args) => DictSpec(env, t, args, reg, nested);
    case ErrorType => StructSpec(env, t, "ErrorType", reg, nested);
    case Struct(n) => StructSpec(env, t, n, reg, nested);
    case _ => LeafSpec(env, t, reg, nested);
  }

  lemma {:induction false} ListSpec(env: Env, t: Ann, args: seq<Ann>, reg: Registry, nested: bool)
    requires StripOptional(t) == List(args) || StripOptional(t) == Tuple(args)
    ensures CallSpec(env, Expressible(t), Visited(t), SchemaOf(t, nested), reg, GetSchema(env, t, reg, nested))
    decreases env.Keys - reg.Keys, 1, t, 0
  {
    BuildListSpec(env, args, reg, nested);
    assert GetSchema(env, t, reg, nested) == BuildList(env, args, reg, nested);
  }

  lemma {:induction false} DictSpec(env: Env, t: Ann, args: seq<Ann>, reg: Registry, nested: bool)
    requires StripOptional(t) == Dict(args)
    ensures CallSpec(env, Expressible(t), Visited(t), SchemaOf(t, nested), reg, GetSchema(env, t, reg, nested))
    decreases env.Keys - reg.Keys, 1, t, 0
  {
    BuildDictSpec(env, args, reg, nested);
    assert GetSchema(env, t, reg, nested) == BuildDict(env, args, reg, nested);
  }

  lemma {:induction false} StructSpec(env: Env, t: Ann, n: string, reg: Registry, nested: bool)
    requires StripOptional(t) == Struct(n) || (StripOptional(t) == ErrorType && n == "ErrorType")
    ensures CallSpec(env, Expressible(t), Visited(t), SchemaOf(t, nested), reg, GetSchema(env, t, reg, nested))
    decreases env.Keys - reg.Keys, 1, t, 0
  {
    BuildStructSpec(env, n, reg, nested);
    assert GetSchema(env, t, reg, nested) == BuildStruct(env, n, reg, nested);
    assert Visited(t) == {n};
  }

  lemma LeafSpec(env: Env, t: Ann, reg: Registry, nested: bool)
    requires var ty := StripOptional(t); !ty.List? && !ty.Tuple? && !ty.Dict? && !ty.ErrorType? && !ty.Struct?
    ensures CallSpec(env, Expressible(t), Visited(t), SchemaOf(t, nested), reg, GetSchema(env, t, reg, nested))
  {
    assert GetSchema(env, t, reg, nested).1 == reg && Visited(t) == {};
  }

  lemma {:induction false} BuildListSpec(env: Env, args: seq<Ann>, reg: Registry, nested: bool)
    ensures if args == [] then BuildList(env, args, reg, nested) == (Ok(ArrayOf(Anything)), reg)
            else CallSpec(env, Expressible(args[0]), Visited(args[0]), ArrayOf(SchemaOf(args[0], nested)), reg,
                          BuildList(env, args, reg, nested))
    decreases env.Keys - reg.Keys, 1, args
  {
    if args == [] {
    } else {
      GetSchemaSpec(env, args[0], reg, nested);
    }
  }

  lemma {:induction false} BuildDictSpec(env: Env, args: seq<Ann>, reg: Registry, nested: bool)
    ensures if |args| != 2 then BuildDict(env, args, reg, nested) == (Ok(PlainObject), reg)
            else CallSpec(env, Expressible(args[1]), Visited(args[1]), MapOf(SchemaOf(args[1], nested)), reg,
                          BuildDict(env, args, reg, nested))
    decreases env.Keys - reg.Keys, 1, args
  {
    if |args| == 2 {
      GetSchemaSpec(env, args[1], reg, nested);
    }
  }

  lemma {:induction false} BuildStructSpec(env: Env, n: string, reg: Registry, nested: bool)
    ensures var (r, reg') := BuildStruct(env, n, reg, nested);
            && AddsCanonical(env, {n}, reg, reg')
            && (r.Ok? ==> r.value == Ref(nested, n) && AddsClosed(env, {n}, reg, reg'))
            && (r.Err? ==> n !in reg && n !in reg' && MeetsInexpressible(env, {n}, reg))
    decreases env.Keys - reg.Keys, 0
  {
    if n !in reg {
      var g := VisitGraph(env);
      ReachDirect(g, {n}, reg.Keys, n);
      if n in env {
        var reserved := reg[n := Component(n, [], map[])];
        assert n in env.Keys - reg.Keys && n !in env.Keys - reserved.Keys;
        AddFieldsSpec(env, n, env[n], reserved);
        forall m | Reach(g, VisitedBy(env[n]), reserved.Keys, m) ensures Reach(g, {n}, reg.Keys, m) {
          ReachMonotone(g, VisitedBy(env[n]), reserved.Keys, g, Succ(g, n), reg.Keys, m);
          ReachStep(g, {n}, reg.Keys, n, m);
        }
      }
    }
  }

  /** Two calls in a row, between which only the slot of a class n in work is written. */
  lemma AddsInSequence(env: Env, a: set<string>, b: set<string>, n: string, reg: Registry,
                       reg1: Registry, reg2: Registry,
                       reg': Registry)
    requires n in reg && Extends(reg, reg1) && reg2.Keys == reg1.Keys && reg2 - {n} == reg1 - {n}
    requires Extends(reg2 - {n}, reg') && n in reg'
    requires AddsCanonical(env, a, reg, reg1) && AddsCanonical(env, b, reg2, reg')
    ensures AddsCanonical(env, a + b, reg, reg')
    ensures AddsClosed(env, a, reg, reg1) && AddsClosed(env, b, reg2, reg') ==> AddsClosed(env, a + b, reg, reg')
  {
    var g := VisitGraph(env);
    assert reg.Keys <= reg2.Keys;
    forall k | k in reg1 && k != n ensures k in reg' && reg'[k] == reg1[k] {
      assert k in reg1 - {n} && (reg1 - {n})[k] == reg1[k];
      assert k in reg2 - {n} && (reg2 - {n})[k] == reg1[k];
    }
    forall m | m in reg' && m !in reg
      ensures reg'[m] == Canonical(env, m) && ExpressibleClass(env, m) && Reach(g, a + b, reg.Keys, m)
    {
      if m in reg1 {
        ReachMonotone(g, a, reg.Keys, g, a + b, reg.Keys, m);
      } else {
        ReachMonotone(g, b, reg2.Keys, g, a + b, reg.Keys, m);
      }
    }
  }

  lemma MeetsMonotone(env: Env, a: set<string>, reg: Registry, b: set<string>, reg': Registry)
    requires MeetsInexpressible(env, a, reg) && a <= b && reg'.Keys <= reg.Keys
    ensures MeetsInexpressible(env, b, reg')
  {
    var g := VisitGraph(env);
    var m :| Reach(g, a, reg.Keys, m) && !ExpressibleClass(env, m);
    ReachMonotone(g, a, reg.Keys, g, b, reg'.Keys, m);
  }

  /** What the loop over the fields of n makes of the registry. */
  ghost predicate FieldsSpec(env: Env, n: string, fields: seq<Field>, reg: Registry,
                             result: (Option<SchemaError>, Registry))
    requires n in reg
  {
    var (err, reg') := result;
    && n in reg' && AddsCanonical(env, VisitedBy(fields), reg, reg')
    && (err.None? ==>
          reg'[n] == AddAll(reg[n], fields) && AllExpressible(fields) && AddsClosed(env, VisitedBy(fields), reg, reg'))
    && (err.Some? ==> !AllExpressible(fields) || MeetsInexpressible(env, VisitedBy(fields), reg))
  }

  lemma FirstFieldFails(env: Env, n: string, fields: seq<Field>, reg: Registry)
    requires n in reg && fields != []
    requires CallSpec(env, Expressible(fields[0].ty), Visited(fields[0].ty), SchemaOf(fields[0].ty, true), reg,
                      GetSchema(env, fields[0].ty, reg, true))
    requires GetSchema(env, fields[0].ty, reg, true).0.Err?
    ensures FieldsSpec(env, n, fields, reg, AddFields(env, n, fields, reg))
  {
    var g, ty := VisitGraph(env), fields[0].ty;
    forall m | Reach(g, Visited(ty), reg.Keys, m) ensures Reach(g, VisitedBy(fields), reg.Keys, m) {
      ReachMonotone(g, Visited(ty), reg.Keys, g, VisitedBy(fields), reg.Keys, m);
    }
    if Expressible(ty) {
      MeetsMonotone(env, Visited(ty), reg, VisitedBy(fields), reg);
    }
  }

  lemma FirstFieldAdded(env: Env, n: string, fields: seq<Field>, reg: Registry, reg1: Registry, reg2: Registry,
                        result: (Option<SchemaError>, Registry))
    requires n in reg && n in reg1 && fields != []
    requires CallSpec(env, Expressible(fields[0].ty), Visited(fields[0].ty), SchemaOf(fields[0].ty, true), reg,
                      (Ok(SchemaOf(fields[0].ty, true)), reg1))
    requires Extends(reg, reg1) && reg2 == reg1[n := AddProperty(reg1[n], fields[0].name, SchemaOf(fields[0].ty, true))]
    requires Extends(reg2 - {n}, result.1) && FieldsSpec(env, n, fields[1..], reg2, result)
    ensures FieldsSpec(env, n, fields, reg, result)
  {
    var ty, rest := fields[0].ty, fields[1..];
    AddsInSequence(env, Visited(ty), VisitedBy(rest), n, reg, reg1, reg2, result.1);
    if result.0.None? {
      assert forall f | f in fields :: f == fields[0] || f in rest;
    } else if AllExpressible(rest) {
      MeetsMonotone(env, VisitedBy(rest), reg2, VisitedBy(fields), reg);
    }
  }

  lemma {:induction false} AddFieldsSpec(env: Env, n: string, fields: seq<Field>, reg: Registry)
    requires n in reg
    ensures FieldsSpec(env, n, fields, reg, AddFields(env, n, fields, reg))
    decreases env.Keys - reg.Keys, 1, fields
  {
    if fields == [] {
    } else {
      var (s, reg1) := GetSchema(env, fields[0].ty, reg, true);
      GetSchemaSpec(env, fields[0].ty, reg, true);
      if s.Err? {
        FirstFieldFails(env, n, fields, reg);
      } else {
        var reg2 := reg1[n := AddProperty(reg1[n], fields[0].name, s.value)];
        AddFieldsSpec(env, n, fields[1..], reg2);
        FirstFieldAdded(env, n, fields, reg, reg1, reg2, AddFields(env, n, fields[1..], reg2));
      }
    }
  }

  // ----- Exactness of the registry -----

  /** The component of n is canonical, n is expressible, and all it refers to is registered. */
  ghost predicate Settled(env: Env, reg: Registry, n: string)
    requires n in reg
  {
    reg[n] == Canonical(env, n) && ExpressibleClass(env, n) && Succ(VisitGraph(env), n) <= reg.Keys
  }

  ghost predicate Complete(env: Env, reg: Registry) {
    forall n | n in reg :: Settled(env, reg, n)
  }

  /** The generator reaches class n from t, starting with an empty registry. */
  ghost predicate Reaches(env: Env, t: Ann, n: string) {
    Reach(VisitGraph(env), Visited(t), {}, n)
  }

  /** The generator can express everything it meets from t. */
  ghost predicate FullyExpressible(env: Env, t: Ann) {
    Expressible(t) && forall n | Reaches(env, t, n) :: ExpressibleClass(env, n)
  }

  lemma ReachesFrom(env: Env, t: Ann, avoid: set<string>, n: string)
    requires Reach(VisitGraph(env), Visited(t), avoid, n)
    ensures Reaches(env, t, n)
  {
    ReachMonotone(VisitGraph(env), Visited(t), avoid, VisitGraph(env), Visited(t), {}, n);
  }

  lemma SuccessCompletes(env: Env, t: Ann, reg: Registry, nested: bool)
    requires Complete(env, reg) && GetSchema(env, t, reg, nested).0.Ok?
    ensures Expressible(t) && Complete(env, GetSchema(env, t, reg, nested).1)
  {
    GetSchemaSpec(env, t, reg, nested);
    var reg' := GetSchema(env, t, reg, nested).1;
    forall n | n in reg' ensures Settled(env, reg', n) {
      if n in reg {
        assert Settled(env, reg, n);
      }
    }
  }

  lemma SuccessRegisters(env: Env, t: Ann, reg: Registry, nested: bool, n: string)
    requires Complete(env, reg) && GetSchema(env, t, reg, nested).0.Ok?
    ensures n in GetSchema(env, t, reg, nested).1 <==> n in reg || Reaches(env, t, n)
  {
    var reg' := GetSchema(env, t, reg, nested).1;
    SuccessCompletes(env, t, reg, nested);
    assert AddsCanonical(env, Visited(t), reg, reg') && AddsClosed(env, Visited(t), reg, reg') by {
      GetSchemaSpec(env, t, reg, nested);
    }
    if n in reg' && n !in reg {
      ReachesFrom(env, t, reg.Keys, n);
    }
    if Reaches(env, t, n) {
      CompleteContainsReached(env, t, reg', n);
    }
  }

  lemma CompleteContainsReached(env: Env, t: Ann, reg: Registry, n: string)
    requires Complete(env, reg) && Visited(t) <= reg.Keys && Reaches(env, t, n)
    ensures n in reg
  {
    forall m | m in reg ensures Succ(VisitGraph(env), m) <= reg.Keys {
      assert Settled(env, reg, m);
    }
    ReachStaysInside(VisitGraph(env), Visited(t), reg.Keys, n);
  }

  lemma SucceedsExactlyWhen(env: Env, t: Ann, reg: Registry, nested: bool)
    requires Complete(env, reg)
    ensures GetSchema(env, t, reg, nested).0.Ok? <==> FullyExpressible(env, t)
  {
    var (r, reg') := GetSchema(env, t, reg, nested);
    GetSchemaSpec(env, t, reg, nested);
    if r.Ok? {
      SuccessCompletes(env, t, reg, nested);
      forall n | Reaches(env, t, n) ensures ExpressibleClass(env, n) {
        SuccessRegisters(env, t, reg, nested, n);
        assert Settled(env, reg', n);
      }
    } else if Expressible(t) {
      var n :| Reach(VisitGraph(env), Visited(t), reg.Keys, n) && !ExpressibleClass(env, n);
      ReachesFrom(env, t, reg.Keys, n);
    }
  }

  /** From a complete registry, get_schema succeeds exactly when everything it meets can be
      expressed; then it adds the canonical component of every class it reaches, no other
      entry, and the registry is complete again. */
  lemma RegistryIsExact(env: Env, t: Ann, reg: Registry, nested: bool)
    requires Complete(env, reg)
    ensures var (r, reg') := GetSchema(env, t, reg, nested);
            && (r.Ok? <==> FullyExpressible(env, t))
            && (r.Ok? ==>
                  && r.value == SchemaOf(t, nested)
                  && Complete(env, reg')
                  && (forall n :: n in reg' <==> n in reg || Reaches(env, t, n)))
  {
    SucceedsExactlyWhen(env, t, reg, nested);
    GetSchemaSpec(env, t, reg, nested);
    var (r, reg') := GetSchema(env, t, reg, nested);
    if r.Ok? {
      SuccessCompletes(env, t, reg, nested);
      forall n ensures n in reg' <==> n in reg || Reaches(env, t, n) {
        SuccessRegisters(env, t, reg, nested, n);
      }
    }
  }

  /** Registering a list of types, one after the other. */
  function RegisterAll(env: Env, ts: seq<Ann>, reg: Registry): (r: (bool, Registry)) {
    if ts == [] then (true, reg)
    else
      var (ok, reg1) := RegisterAll(env, ts[..|ts| - 1], reg);
      if !ok then (false, reg1)
      else
        var (r, reg2) := GetSchema(env, ts[|ts| - 1], reg1, false);
        (r.Ok?, reg2)
  }

  ghost predicate ReachesFromSome(env: Env, ts: seq<Ann>, n: string) {
    exists t | t in ts :: Reaches(env, t, n)
  }

  lemma {:induction false} RegisterAllIsExact(env: Env, ts: seq<Ann>, reg: Registry)
    requires Complete(env, reg)
    ensures var (ok, reg') := RegisterAll(env, ts, reg);
            && (ok <==> forall t | t in ts :: FullyExpressible(env, t))
            && (ok ==>
                  && Complete(env, reg')
                  && (forall n :: n in reg' <==> n in reg || ReachesFromSome(env, ts, n)))
  {
    if ts == [] {
    } else {
      var before, last := ts[..|ts| - 1], ts[|ts| - 1];
      assert forall t :: t in ts <==> t in before || t == last;
      RegisterAllIsExact(env, before, reg);
      var (ok, reg1) := RegisterAll(env, before, reg);
      if ok {
        RegistryIsExact(env, last, reg1, false);
        forall n ensures ReachesFromSome(env, ts, n) <==> ReachesFromSome(env, before, n) || Reaches(env, last, n) {
        }
      }
    }
  }

  /** What a complete registry holds depends on its keys alone. */
  lemma SameKeysSameRegistry(env: Env, reg1: Registry, reg2: Registry)
    requires Complete(env, reg1) && Complete(env, reg2)
    requires forall n :: n in reg1 <==> n in reg2
    ensures reg1 == reg2
  {
    forall n | n in reg1 ensures n in reg2 && reg1[n] == reg2[n] {
      assert Settled(env, reg1, n) && Settled(env, reg2, n);
    }
  }

  /** The order in which types are registered, and how often, makes no difference: neither to
      success nor to the registry that results. */
  lemma OrderDoesNotMatter(env: Env, ts: seq<Ann>, ts': seq<Ann>, reg: Registry)
    requires Complete(env, reg) && forall t :: t in ts <==> t in ts'
    ensures RegisterAll(env, ts, reg).0 == RegisterAll(env, ts', reg).0
    ensures RegisterAll(env, ts, reg).0 ==> RegisterAll(env, ts, reg).1 == RegisterAll(env, ts', reg).1
  {
    RegisterAllIsExact(env, ts, reg);
    RegisterAllIsExact(env, ts', reg);
    var (ok, reg1) := RegisterAll(env, ts, reg);
    if ok {
      forall n ensures ReachesFromSome(env, ts, n) <==> ReachesFromSome(env, ts', n) {
      }
      SameKeysSameRegistry(env, reg1, RegisterAll(env, ts', reg).1);
    }
  }

  // ----- References -----

  /** The references in a schema, with their form. */
  function Refs(s: JsonSchema): set<(bool, string)> {
    match s
    case ArrayOf(items) => Refs(items)
    case MapOf(values) => Refs(values)
    case Ref(nested, name) => {(nested, name)}
    case _ => {}
  }

  lemma {:induction false} RefsOfSchema(t: Ann, nested: bool)
    requires Expressible(t)
    ensures Refs(SchemaOf(t, nested)) == set n | n in Visited(t) :: (nested, n)
    decreases t
  {
    match StripOptional(t)
    case List(args) =>
      if args != [] {
        RefsOfSchema(args[0], nested);
      }
    case Tuple(args) =>
      if args != [] {
        RefsOfSchema(args[0], nested);
      }
    case Dict(args) =>
      if |args| == 2 {
        RefsOfSchema(args[1], nested);
      }
    case _ =>
  }

  /** Every field is required, in order, and becomes a property. */
  lemma {:induction false} ComponentShape(c: Component, fields: seq<Field>)
    ensures var c' := AddAll(c, fields);
            && c'.id == c.id
            && c'.required == c.required + Names(fields)
            && (forall p :: p in c'.properties <==> p in c.properties || p in Names(fields))
    decreases fields
  {
    if fields == [] {
    } else {
      ComponentShape(AddProperty(c, fields[0].name, SchemaOf(fields[0].ty, true)), fields[1..]);
    }
  }

  lemma {:induction false} PropertyKept(c: Component, fields: seq<Field>, p: string)
    requires p in c.properties && p !in Names(fields)
    ensures p in AddAll(c, fields).properties && AddAll(c, fields).properties[p] == c.properties[p]
    decreases fields
  {
    if fields == [] {
    } else {
      PropertyKept(AddProperty(c, fields[0].name, SchemaOf(fields[0].ty, true)), fields[1..], p);
    }
  }

  /** A property has the schema of the type of a field of that name: the last one. */
  lemma {:induction false} PropertyOrigin(c: Component, fields: seq<Field>, p: string) returns (i: nat)
    requires p in Names(fields)
    ensures i < |fields| && fields[i].name == p && p !in Names(fields[i + 1..])
    ensures p in AddAll(c, fields).properties && AddAll(c, fields).properties[p] == SchemaOf(fields[i].ty, true)
    decreases fields
  {
    var c1 := AddProperty(c, fields[0].name, SchemaOf(fields[0].ty, true));
    if p in Names(fields[1..]) {
      i := PropertyOrigin(c1, fields[1..], p);
      i := i + 1;
      assert fields[i + 1..] == fields[1..][i..];
    } else {
      i := 0;
      PropertyKept(c1, fields[1..], p);
    }
  }

  function Names(fields: seq<Field>): seq<string> {
    if fields == [] then [] else [fields[0].name] + Names(fields[1..])
  }

  /** The canonical component carries the name of its class, requires every field in order and has
      a property for each, with the schema of its type in the nested form. */
  lemma CanonicalShape(env: Env, n: string)
    ensures var c, fields := Canonical(env, n), FieldsOf(env, n);
            && c.id == n && c.required == Names(fields)
            && (forall p :: p in c.properties <==> p in Names(fields))
            && (forall p | p in c.properties ::
                  exists f | f in fields :: f.name == p && c.properties[p] == SchemaOf(f.ty, true))
  {
    var fields := FieldsOf(env, n);
    ComponentShape(Component(n, [], map[]), fields);
    forall p | p in Canonical(env, n).properties
      ensures exists f | f in fields :: f.name == p && Canonical(env, n).properties[p] == SchemaOf(f.ty, true)
    {
      var i := PropertyOrigin(Component(n, [], map[]), fields, p);
      assert fields[i] in fields;
    }
  }

  lemma {:induction false} FieldVisits(fields: seq<Field>, f: Field)
    requires f in fields
    ensures Visited(f.ty) <= VisitedBy(fields)
  {
    if f != fields[0] {
      FieldVisits(fields[1..], f);
    }
  }

  /** The references in s have the given form and name registered components. */
  ghost predicate Resolves(reg: Registry, s: JsonSchema, nested: bool) {
    forall ref | ref in Refs(s) :: ref.0 == nested && ref.1 in reg
  }

  lemma PropertyResolves(env: Env, reg: Registry, n: string, p: string)
    requires n in reg && Settled(env, reg, n) && p in reg[n].properties
    ensures Resolves(reg, reg[n].properties[p], true)
  {
    var fields := FieldsOf(env, n);
    ComponentShape(Component(n, [], map[]), fields);
    var i := PropertyOrigin(Component(n, [], map[]), fields, p);
    FieldVisits(fields, fields[i]);
    RefsOfSchema(fields[i].ty, true);
  }

  /** Every reference in every component names a registered component. */
  ghost predicate AllResolve(reg: Registry) {
    forall n, p | n in reg && p in reg[n].properties :: Resolves(reg, reg[n].properties[p], true)
  }

  lemma CompleteResolves(env: Env, reg: Registry)
    requires Complete(env, reg)
    ensures AllResolve(reg)
  {
    forall n, p | n in reg && p in reg[n].properties ensures Resolves(reg, reg[n].properties[p], true) {
      PropertyResolves(env, reg, n, p);
    }
  }

  /** After a successful call every reference, in the schema returned and in every component,
      names a registered component; only the short form occurs inside components. */
  lemma ReferencesResolve(env: Env, t: Ann, reg: Registry, nested: bool)
    requires Complete(env, reg) && GetSchema(env, t, reg, nested).0.Ok?
    ensures var (r, reg') := GetSchema(env, t, reg, nested);
            && Resolves(reg', r.value, nested)
            && AllResolve(reg')
  {
    var (r, reg') := GetSchema(env, t, reg, nested);
    SuccessCompletes(env, t, reg, nested);
    assert Resolves(reg', r.value, nested) by {
      GetSchemaSpec(env, t, reg, nested);
      RefsOfSchema(t, nested);
    }
    CompleteResolves(env, reg');
  }

  /** Entries present before a call are never changed; a class whose registration fails is not
      left behind, and what is left behind is canonical. */
  lemma FailureLeavesNoTrace(env: Env, n: string, reg: Registry, nested: bool)
    ensures var (r, reg') := GetSchema(env, Struct(n), reg, nested);
            && (forall k | k in reg :: k in reg' && reg'[k] == reg[k])
            && (r.Err? ==> n !in reg')
            && (forall k | k in reg' && k !in reg :: reg'[k] == Canonical(env, k))
  {
    BuildStructSpec(env, n, reg, nested);
    GetSchemaSpec(env, Struct(n), reg, nested);
  }

  // ----- The generator and the validator -----

  lemma {:induction false} WellFormedIsExpressible(t: Ann)
    requires TypesHandler.Defects(t) == {}
    ensures Expressible(t)
    decreases t
  {
    match StripOptional(t)
    case List(args) => WellFormedIsExpressible(args[0]);
    case Tuple(args) => WellFormedIsExpressible(args[0]);
    case Dict(args) => WellFormedIsExpressible(args[1]);
    case _ =>
  }

  lemma {:induction false} VisitedIsMentioned(t: Ann)
    ensures Visited(t) <= TypesHandler.Mentioned(t)
    decreases t
  {
    match StripOptional(t)
    case List(args) =>
      if args != [] {
        VisitedIsMentioned(args[0]);
      }
    case Tuple(args) =>
      if args != [] {
        VisitedIsMentioned(args[0]);
      }
    case Dict(args) =>
      if |args| == 2 {
        VisitedIsMentioned(args[1]);
      }
    case _ =>
  }

  lemma {:induction false} FieldsWellFormed(fields: seq<Field>)
    ensures VisitedBy(fields) <= TypesHandler.MentionedBy(Types(fields))
    ensures TypesHandler.DefectsOf(Types(fields)) == {} ==> AllExpressible(fields)
  {
    if fields == [] {
    } else {
      var ts := Types(fields);
      assert ts[0] == fields[0].ty && ts[1..] == Types(fields[1..]);
      FieldsWellFormed(fields[1..]);
      VisitedIsMentioned(fields[0].ty);
      if TypesHandler.DefectsOf(ts) == {} {
        WellFormedIsExpressible(fields[0].ty);
        assert forall f | f in fields :: f == fields[0] || f in fields[1..];
      }
    }
  }

  /** A type that the validator accepts has a schema, from any registry whatever, also in the
      middle of registering the classes of a cycle. */
  lemma ValidatedTypesHaveSchemas(env: Env, t: Ann, reg: Registry, nested: bool)
    requires TypesHandler.TypeIsValid(env, t, {}, false) == None
    ensures GetSchema(env, t, reg, nested).0 == Ok(SchemaOf(t, nested))
  {
    TypesHandler.TypeIsValidExactly(env, t, false);
    WellFormedIsExpressible(t);
    GetSchemaSpec(env, t, reg, nested);
    VisitedIsMentioned(t);
    var g, h := VisitGraph(env), TypesHandler.ClassGraph(env);
    forall m | m in g ensures g[m] <= Succ(h, m) {
      FieldsWellFormed(env[m]);
    }
    forall m | Reach(g, Visited(t), reg.Keys, m) ensures ExpressibleClass(env, m) {
      ReachMonotone(g, Visited(t), reg.Keys, h, TypesHandler.Mentioned(t), {}, m);
      FieldsWellFormed(FieldsOf(env, m));
    }
  }

  /** The generator overlooks nothing that the validator minds in t itself: no missing type
      arguments, no dictionary key, no tuple argument but the first. */
  predicate Seen(t: Ann)
    decreases t
  {
    match StripOptional(t)
    case List(args) => args != [] && Seen(args[0])
    case Tuple(args) => args != [] && Seen(args[0]) && TypesHandler.DefectsOf(args[1..]) == {}
    case Dict(args) => |args| == 2 && args[0] == Scalar(Str) && Seen(args[1])
    case ErrorType => false
    case _ => true
  }

  ghost predicate AllSeen(fields: seq<Field>) {
    forall f | f in fields :: Seen(f.ty)
  }

  /** Nor does it in the classes that the validator enters, or it never comes to such a class, by
      way of a later tuple argument, and that class has no defect. */
  ghost predicate NothingOverlooked(env: Env, t: Ann) {
    && Seen(t)
    && (forall n | Reach(TypesHandler.ClassGraph(env), TypesHandler.Mentioned(t), {}, n) ::
          AllSeen(FieldsOf(env, n)) && (Reaches(env, t, n) || TypesHandler.FieldDefects(env, n) == {}))
  }

  lemma {:induction false} DefectFreeExactlyWhen(t: Ann)
    ensures TypesHandler.Defects(t) == {} <==> Expressible(t) && Seen(t)
    decreases t
  {
    match StripOptional(t)
    case List(args) =>
      if args != [] {
        DefectFreeExactlyWhen(args[0]);
      }
    case Tuple(args) =>
      if args != [] {
        DefectFreeExactlyWhen(args[0]);
      }
    case Dict(args) =>
      if |args| == 2 {
        DefectFreeExactlyWhen(args[1]);
      }
    case _ =>
  }

  lemma {:induction false} FieldsDefectFreeExactlyWhen(fields: seq<Field>)
    ensures TypesHandler.DefectsOf(Types(fields)) == {} <==> AllExpressible(fields) && AllSeen(fields)
  {
    if fields == [] {
    } else {
      var ts := Types(fields);
      assert ts[0] == fields[0].ty && ts[1..] == Types(fields[1..]);
      DefectFreeExactlyWhen(fields[0].ty);
      FieldsDefectFreeExactlyWhen(fields[1..]);
      assert forall f | f in fields :: f == fields[0] || f in fields[1..];
    }
  }

  /** The validator accepts exactly what the generator has a schema for and overlooks nothing in:
      nothing else separates the two. */
  lemma ValidExactlyWhenNothingOverlooked(env: Env, t: Ann, reg: Registry, nested: bool)
    requires Complete(env, reg)
    ensures TypesHandler.TypeIsValid(env, t, {}, false) == None <==>
            GetSchema(env, t, reg, nested).0.Ok? && NothingOverlooked(env, t)
  {
    TypesHandler.TypeIsValidExactly(env, t, false);
    DefectFreeExactlyWhen(t);
    forall n
      ensures TypesHandler.FieldDefects(env, n) == {} <==> ExpressibleClass(env, n) && AllSeen(FieldsOf(env, n))
    {
      FieldsDefectFreeExactlyWhen(FieldsOf(env, n));
    }
    if TypesHandler.TypeIsValid(env, t, {}, false) == None {
      ValidatedTypesHaveSchemas(env, t, reg, nested);
    } else {
      SucceedsExactlyWhen(env, t, reg, nested);
    }
  }

  /** Each kind of oversight occurs. */
  lemma GeneratorAcceptsMore(env: Env, reg: Registry, t: Ann)
    requires "ErrorType" !in env
    requires t in {List([]), Tuple([]), Tuple([Scalar(Str), Other("...")]),
                   Dict([]), Dict([Scalar(Int), Any]), ErrorType}
    ensures TypesHandler.TypeIsValid(env, t, {}, false).Some? && GetSchema(env, t, reg, false).0.Ok? && !Seen(t)
  {
    var args := [Scalar(Str), Other("...")];
    assert args[1..] == [Other("...")];
    assert TypesHandler.Defects(Other("...")) == {TypesHandler.NotSerialisable(Other("..."))};
    assert TypesHandler.NotSerialisable(Other("...")) in TypesHandler.DefectsOf(args[1..]);
    assert !Seen(Tuple(args));
    TypesHandler.TypeIsValidExactly(env, t, false);
    DefectFreeExactlyWhen(t);
    assert GetSchema(env, Scalar(Str), reg, false).0.Ok? && GetSchema(env, Any, reg, false).0.Ok?;
    assert BuildList(env, args, reg, false).0.Ok? && BuildDict(env, [Scalar(Int), Any], reg, false).0.Ok?;
  }
}
