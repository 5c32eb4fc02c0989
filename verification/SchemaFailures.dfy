/** What a failed call of the schema generator leaves behind in its registry. */
module SchemaFailures {
  import opened Wrappers
  import opened Annotations
  import opened Graph
  import opened Schema
  import opened SchemaTheorems

  /** A class from which something inexpressible is reached, so that it cannot be registered. */
  ghost predicate Spoiled(env: Env, n: string) {
    MeetsInexpressible(env, {n}, map[])
  }

  ghost predicate OnCycle(env: Env, n: string) {
    Reach(VisitGraph(env), Succ(VisitGraph(env), n), {}, n)
  }

  /** A class that an added entry refers to is registered, or its slot was given up: then it is
      spoiled, and the entry was added on a detour that leads back to it. */
  ghost predicate Explained(env: Env, m: string, reg': Registry) {
    forall k | k in Succ(VisitGraph(env), m) && k !in reg' :: Spoiled(env, k) && OnCycle(env, k)
  }

  ghost predicate GapsExplained(env: Env, reg: Registry, reg': Registry) {
    forall m | m in reg' && m !in reg :: Explained(env, m, reg')
  }

  lemma {:induction false} GetSchemaGaps(env: Env, t: Ann, reg: Registry, nested: bool)
    ensures GapsExplained(env, reg, GetSchema(env, t, reg, nested).1)
    decreases env.Keys - reg.Keys, 1, t
  {
    match StripOptional(t)
    case List(args) =>
      if args != [] {
        GetSchemaGaps(env, args[0], reg, nested);
      }
    case Tuple(args) =>
      if args != [] {
        GetSchemaGaps(env, args[0], reg, nested);
      }
    case Dict(args) =>
      if |args| == 2 {
        GetSchemaGaps(env, args[1], reg, nested);
      }
    case ErrorType => BuildStructGaps(env, "ErrorType", reg, nested);
    case Struct(n) => BuildStructGaps(env, n, reg, nested);
    case _ =>
  }

  lemma {:induction false} BuildStructGaps(env: Env, n: string, reg: Registry, nested: bool)
    ensures GapsExplained(env, reg, BuildStruct(env, n, reg, nested).1)
    decreases env.Keys - reg.Keys, 0
  {
    if n in reg || n !in env {
    } else {
      var reserved := reg[n := Component(n, [], map[])];
      assert n in env.Keys - reg.Keys && n !in env.Keys - reserved.Keys;
      AddFieldsGaps(env, n, env[n], reserved);
      var (err, filled) := AddFields(env, n, env[n], reserved);
      BuildStructSpec(env, n, reg, nested);
      if err.None? {
        OwnSlotHasNoGap(env, n, reg, filled);
      } else {
        AddFieldsSpec(env, n, env[n], reserved);
        MeetsMonotone(env, {n}, reg, {n}, map[]);
        GivenUpSlot(env, n, reg, reserved, filled, filled - {n});
      }
    }
  }

  lemma OwnSlotHasNoGap(env: Env, n: string, reg: Registry, filled: Registry)
    requires n !in reg && GapsExplained(env, reg[n := Component(n, [], map[])], filled)
    requires AddsClosed(env, {n}, reg, filled)
    ensures GapsExplained(env, reg, filled)
  {
  }

  lemma BackToSlot(env: Env, n: string, avoid: set<string>, m: string)
    requires n in env && Reach(VisitGraph(env), VisitedBy(env[n]), avoid, m) && n in Succ(VisitGraph(env), m)
    ensures OnCycle(env, n)
  {
    var g := VisitGraph(env);
    ReachMonotone(g, VisitedBy(env[n]), avoid, g, Succ(g, n), {}, m);
    ReachExtend(g, Succ(g, n), {}, m, n);
  }

  lemma GivenUpGap(env: Env, n: string, avoid: set<string>, filled: Registry, left: Registry, m: string)
    requires n in env && Spoiled(env, n) && Explained(env, m, filled)
    requires Reach(VisitGraph(env), VisitedBy(env[n]), avoid, m)
    requires forall k :: k in left <==> k in filled && k != n
    ensures Explained(env, m, left)
  {
    if n in Succ(VisitGraph(env), m) {
      BackToSlot(env, n, avoid, m);
    }
  }

  /** The slot of n is given up: the entries that refer to it were added on the way from n. */
  lemma GivenUpSlot(env: Env, n: string, reg: Registry, reserved: Registry, filled: Registry, left: Registry)
    requires n in env && Spoiled(env, n)
    requires forall k :: k in reserved <==> k in reg || k == n
    requires forall k :: k in left <==> k in filled && k != n
    requires GapsExplained(env, reserved, filled) && AddsCanonical(env, VisitedBy(env[n]), reserved, filled)
    ensures GapsExplained(env, reg, left)
  {
    forall m | m in left && m !in reg ensures Explained(env, m, left) {
      GivenUpGap(env, n, reserved.Keys, filled, left, m);
    }
  }

  lemma {:induction false} AddFieldsGaps(env: Env, n: string, fields: seq<Field>, reg: Registry)
    requires n in reg
    ensures GapsExplained(env, reg, AddFields(env, n, fields, reg).1)
    decreases env.Keys - reg.Keys, 1, fields
  {
    if fields == [] {
    } else {
      var (s, reg1) := GetSchema(env, fields[0].ty, reg, true);
      GetSchemaGaps(env, fields[0].ty, reg, true);
      if s.Ok? {
        var reg2 := reg1[n := AddProperty(reg1[n], fields[0].name, s.value)];
        AddFieldsGaps(env, n, fields[1..], reg2);
        var reg' := AddFields(env, n, fields[1..], reg2).1;
        forall k | k in reg1 ensures k in reg' {
          assert k == n || k in reg2 - {n};
        }
      }
    }
  }

  /** Everything that is reached from a class of a complete registry is expressible. */
  lemma CompleteIsExpressible(env: Env, reg: Registry, m: string)
    requires Complete(env, reg) && m in reg
    ensures FullyExpressible(env, Struct(m))
  {
    forall n | Reaches(env, Struct(m), n) ensures ExpressibleClass(env, n) {
      CompleteContainsReached(env, Struct(m), reg, n);
      assert Settled(env, reg, n);
    }
  }

  lemma SpoiledSuccessor(env: Env, m: string, k: string)
    requires k in Succ(VisitGraph(env), m) && Spoiled(env, k)
    ensures !FullyExpressible(env, Struct(m))
  {
    var g := VisitGraph(env);
    var n :| Reach(g, {k}, {}, n) && !ExpressibleClass(env, n);
    ReachMonotone(g, {k}, {}, g, Succ(g, m), {}, n);
    ReachStep(g, {m}, {}, m, n);
    assert Reaches(env, Struct(m), n);
  }

  /** An added entry from which only expressible classes are reached has all it refers to. */
  lemma ExpressibleIsSettled(env: Env, from: set<string>, reg: Registry, reg': Registry, m: string)
    requires AddsCanonical(env, from, reg, reg') && GapsExplained(env, reg, reg')
    requires m in reg' && m !in reg && FullyExpressible(env, Struct(m))
    ensures Settled(env, reg', m)
  {
    forall k | k in Succ(VisitGraph(env), m) ensures k in reg' {
      if k !in reg' {
        SpoiledSuccessor(env, m, k);
      }
    }
  }

  /** Whatever comes of a call, the registry it leaves is complete if and only if nothing
      inexpressible is reached from the classes in it. */
  lemma CompleteExactlyWhenExpressible(env: Env, t: Ann, reg: Registry, nested: bool)
    requires Complete(env, reg)
    ensures var reg' := GetSchema(env, t, reg, nested).1;
            Complete(env, reg') <==> forall m | m in reg' && m !in reg :: FullyExpressible(env, Struct(m))
  {
    var reg' := GetSchema(env, t, reg, nested).1;
    assert AddsCanonical(env, Visited(t), reg, reg') by {
      GetSchemaSpec(env, t, reg, nested);
    }
    GetSchemaGaps(env, t, reg, nested);
    if Complete(env, reg') {
      forall m | m in reg' ensures FullyExpressible(env, Struct(m)) {
        CompleteIsExpressible(env, reg', m);
      }
    } else {
      var m :| m in reg' && !Settled(env, reg', m);
      assert m in reg ==> Settled(env, reg, m);
      if FullyExpressible(env, Struct(m)) && m !in reg {
        ExpressibleIsSettled(env, Visited(t), reg, reg', m);
      }
    }
  }

  /** Fields of a dataclass, like parameters of a constructor, have different names. */
  ghost predicate DifferentNames(env: Env) {
    forall n, i, j | n in env && 0 <= i < j < |env[n]| :: env[n][i].name != env[n][j].name
  }

  lemma {:induction false} NameAt(fields: seq<Field>, i: nat)
    requires i < |fields|
    ensures |Names(fields)| == |fields| && Names(fields)[i] == fields[i].name
  {
    if i == 0 {
      if |fields| > 1 {
        NameAt(fields[1..], 0);
      }
    } else {
      NameAt(fields[1..], i - 1);
    }
  }

  lemma {:induction false} FieldVisiting(fields: seq<Field>, k: string) returns (i: nat)
    requires k in VisitedBy(fields)
    ensures i < |fields| && k in Visited(fields[i].ty)
  {
    if k in Visited(fields[0].ty) {
      i := 0;
    } else {
      i := FieldVisiting(fields[1..], k);
      i := i + 1;
    }
  }

  /** Every class that a canonical component visits is referred to by one of its properties. */
  lemma SuccessorIsReferredTo(env: Env, n: string, k: string) returns (p: string)
    requires DifferentNames(env) && ExpressibleClass(env, n) && k in Succ(VisitGraph(env), n)
    ensures p in Canonical(env, n).properties && (true, k) in Refs(Canonical(env, n).properties[p])
  {
    var fields := FieldsOf(env, n);
    var i := FieldVisiting(fields, k);
    p := fields[i].name;
    NameAt(fields, i);
    var j := PropertyOrigin(Component(n, [], map[]), fields, p);
    assert i == j;
    RefsOfSchema(fields[i].ty, true);
  }

  /** Whatever comes of a call, no component is left with a dangling reference if and only if
      nothing inexpressible is reached from the classes that were added. */
  lemma NoDanglingReferenceExactlyWhen(env: Env, t: Ann, reg: Registry, nested: bool)
    requires Complete(env, reg) && DifferentNames(env)
    ensures var reg' := GetSchema(env, t, reg, nested).1;
            AllResolve(reg') <==> forall m | m in reg' && m !in reg :: FullyExpressible(env, Struct(m))
  {
    var reg' := GetSchema(env, t, reg, nested).1;
    CompleteExactlyWhenExpressible(env, t, reg, nested);
    if Complete(env, reg') {
      CompleteResolves(env, reg');
    }
    if AllResolve(reg') {
      GetSchemaSpec(env, t, reg, nested);
      forall n | n in reg' ensures Settled(env, reg', n) {
        if n in reg {
          assert Settled(env, reg, n);
        } else {
          forall k | k in Succ(VisitGraph(env), n) ensures k in reg' {
            var p := SuccessorIsReferredTo(env, n, k);
            assert Resolves(reg', reg'[n].properties[p], true);
          }
        }
      }
    }
  }

  /** A caller can tell beforehand: if no class that is reached from t is spoiled and lies on a
      cycle, in particular if none lies on a cycle, not even a failed call leaves a dangling
      reference. */
  lemma WithoutSpoiledCyclesNothingDangles(env: Env, t: Ann, reg: Registry, nested: bool)
    requires Complete(env, reg) && forall n | Reaches(env, t, n) :: !(OnCycle(env, n) && Spoiled(env, n))
    ensures Complete(env, GetSchema(env, t, reg, nested).1) && AllResolve(GetSchema(env, t, reg, nested).1)
  {
    var reg' := GetSchema(env, t, reg, nested).1;
    GetSchemaSpec(env, t, reg, nested);
    GetSchemaGaps(env, t, reg, nested);
    forall m | m in reg' ensures Settled(env, reg', m) {
      if m in reg {
        assert Settled(env, reg, m);
      } else {
        ReachesFrom(env, t, reg.Keys, m);
        forall k | k in Succ(VisitGraph(env), m) ensures k in reg' {
          ReachExtend(VisitGraph(env), Visited(t), {}, m, k);
          assert Reaches(env, t, k);
        }
      }
    }
    CompleteResolves(env, reg');
  }

  // ----- The error of a failed call -----

  /** What the generator cannot express in t itself. */
  function Unfit(t: Ann): set<Ann>
    decreases t
  {
    match StripOptional(t)
    case List(args) => if args == [] then {} else Unfit(args[0])
    case Tuple(args) => if args == [] then {} else Unfit(args[0])
    case Dict(args) => if |args| != 2 then {} else Unfit(args[1])
    case Union(_) | Other(_) => {StripOptional(t)}
    case _ => {}
  }

  /** Some class that is reached from these has a field in which ty is unfit. */
  ghost predicate Blamed(env: Env, from: set<string>, ty: Ann) {
    exists m, f :: BlamedAt(env, from, ty, m, f)
  }

  ghost predicate BlamedAt(env: Env, from: set<string>, ty: Ann, m: string, f: Field) {
    Reach(VisitGraph(env), from, {}, m) && f in FieldsOf(env, m) && ty in Unfit(f.ty)
  }

  lemma BlamedFromMore(env: Env, a: set<string>, b: set<string>, ty: Ann)
    requires a <= b && Blamed(env, a, ty)
    ensures Blamed(env, b, ty)
  {
    var m, f :| BlamedAt(env, a, ty, m, f);
    ReachMonotone(VisitGraph(env), a, {}, VisitGraph(env), b, {}, m);
    assert BlamedAt(env, b, ty, m, f);
  }

  lemma ErrorOfLeaf(env: Env, t: Ann, reg: Registry, nested: bool)
    requires StripOptional(t).Union? || StripOptional(t).Other?
    ensures GetSchema(env, t, reg, nested).0 == Err(NotAValidType(StripOptional(t))) && StripOptional(t) in Unfit(t)
  {
  }

  /** The argument of a container that the generator visits. */
  predicate Inner(t: Ann, arg: Ann) {
    match StripOptional(t)
    case List(args) => args != [] && arg == args[0]
    case Tuple(args) => args != [] && arg == args[0]
    case Dict(args) => |args| == 2 && arg == args[1]
    case _ => false
  }

  lemma SameAsInner(t: Ann, arg: Ann)
    requires Inner(t, arg)
    ensures Unfit(t) == Unfit(arg) && Visited(t) == Visited(arg)
  {
  }

  lemma ErrorOfInner(env: Env, t: Ann, arg: Ann, reg: Registry, nested: bool)
    requires Inner(t, arg)
    ensures var r, inner := GetSchema(env, t, reg, nested).0, GetSchema(env, arg, reg, nested).0;
            r.Err? ==> inner.Err? && r.error == inner.error
  {
  }

  lemma {:induction false} ErrorOfType(env: Env, t: Ann, reg: Registry, nested: bool)
    ensures var r := GetSchema(env, t, reg, nested).0;
            r.Err? ==> r.error.ty in Unfit(t) || Blamed(env, Visited(t), r.error.ty)
    decreases env.Keys - reg.Keys, 1, t
  {
    var ty := StripOptional(t);
    if (ty.List? || ty.Tuple?) && ty.args != [] {
      ErrorOfType(env, ty.args[0], reg, nested);
      SameAsInner(t, ty.args[0]);
      ErrorOfInner(env, t, ty.args[0], reg, nested);
    } else if ty.Dict? && |ty.args| == 2 {
      ErrorOfType(env, ty.args[1], reg, nested);
      SameAsInner(t, ty.args[1]);
      ErrorOfInner(env, t, ty.args[1], reg, nested);
    } else if ty.Struct? || ty.ErrorType? {
      var n := if ty.Struct? then ty.name else "ErrorType";
      ErrorOfClass(env, n, reg, nested);
      assert GetSchema(env, t, reg, nested) == BuildStruct(env, n, reg, nested) && Visited(t) == {n};
    } else if ty.Union? || ty.Other? {
      ErrorOfLeaf(env, t, reg, nested);
    } else {
      NoErrorOfLeaf(env, t, reg, nested);
    }
  }

  lemma NoErrorOfLeaf(env: Env, t: Ann, reg: Registry, nested: bool)
    requires var ty := StripOptional(t);
             && !ty.Union? && !ty.Other? && !ty.Struct? && !ty.ErrorType?
             && ((ty.List? || ty.Tuple?) ==> ty.args == []) && (ty.Dict? ==> |ty.args| != 2)
    ensures GetSchema(env, t, reg, nested).0.Ok?
  {
  }

  lemma {:induction false} ErrorOfClass(env: Env, n: string, reg: Registry, nested: bool)
    ensures var r := BuildStruct(env, n, reg, nested).0; r.Err? ==> Blamed(env, {n}, r.error.ty)
    decreases env.Keys - reg.Keys, 0
  {
    if n in reg || n !in env {
    } else {
      var reserved := reg[n := Component(n, [], map[])];
      assert n in env.Keys - reg.Keys && n !in env.Keys - reserved.Keys;
      ErrorOfFields(env, n, env[n], reserved);
      var err := AddFields(env, n, env[n], reserved).0;
      if err.Some? {
        OwnFieldOrBeyond(env, n, err.value.ty);
      }
    }
  }

  lemma OwnFieldOrBeyond(env: Env, n: string, ty: Ann)
    requires n in env && ((exists f | f in env[n] :: ty in Unfit(f.ty)) || Blamed(env, VisitedBy(env[n]), ty))
    ensures Blamed(env, {n}, ty)
  {
    var g := VisitGraph(env);
    if f :| f in env[n] && ty in Unfit(f.ty) {
      ReachDirect(g, {n}, {}, n);
      assert BlamedAt(env, {n}, ty, n, f);
    } else {
      var m, f :| BlamedAt(env, VisitedBy(env[n]), ty, m, f);
      ReachStep(g, {n}, {}, n, m);
      assert BlamedAt(env, {n}, ty, m, f);
    }
  }

  lemma {:induction false} ErrorOfFields(env: Env, n: string, fields: seq<Field>, reg: Registry)
    requires n in reg
    ensures var err := AddFields(env, n, fields, reg).0;
            err.Some? ==> (exists f | f in fields :: err.value.ty in Unfit(f.ty))
                          || Blamed(env, VisitedBy(fields), err.value.ty)
    decreases env.Keys - reg.Keys, 1, fields
  {
    if fields == [] {
    } else {
      var (s, reg1) := GetSchema(env, fields[0].ty, reg, true);
      ErrorOfType(env, fields[0].ty, reg, true);
      if s.Err? {
        if Blamed(env, Visited(fields[0].ty), s.error.ty) {
          BlamedFromMore(env, Visited(fields[0].ty), VisitedBy(fields), s.error.ty);
        }
      } else {
        var reg2 := reg1[n := AddProperty(reg1[n], fields[0].name, s.value)];
        ErrorOfFields(env, n, fields[1..], reg2);
        var err := AddFields(env, n, fields[1..], reg2).0;
        if err.Some? && Blamed(env, VisitedBy(fields[1..]), err.value.ty) {
          BlamedFromMore(env, VisitedBy(fields[1..]), VisitedBy(fields), err.value.ty);
        }
      }
    }
  }

  /** The error of a failed call names a type that cannot be expressed and that occurs, without its
      Optional, in the type itself or in a field of a class that is reached from it. */
  lemma ErrorNamesTheCulprit(env: Env, t: Ann, reg: Registry, nested: bool)
    requires GetSchema(env, t, reg, nested).0.Err?
    ensures var ty := GetSchema(env, t, reg, nested).0.error.ty;
            || ty in Unfit(t)
            || exists n, f :: Reaches(env, t, n) && f in FieldsOf(env, n) && ty in Unfit(f.ty)
  {
    ErrorOfType(env, t, reg, nested);
    var ty := GetSchema(env, t, reg, nested).0.error.ty;
    if ty !in Unfit(t) {
      var n, f :| BlamedAt(env, Visited(t), ty, n, f);
      assert Reaches(env, t, n);
    }
  }

  // ----- Witnesses -----

  /** A class with a field of a class that refers back to it, and a field without schema. */
  const HALF_BROKEN: Env :=
    map["A" := [Field("b", Struct("B")), Field("x", Other("?"))], "B" := [Field("a", Struct("A"))]]

  const DANGLING_B := Component("B", ["a"], map["a" := Ref(true, "A")])

  lemma RegisterB(reg: Registry, nested: bool)
    requires "A" in reg && "B" !in reg
    ensures GetSchema(HALF_BROKEN, Struct("B"), reg, nested) == (Ok(Ref(nested, "B")), reg["B" := DANGLING_B])
  {
    var b0 := Component("B", [], map[]);
    var fields := [Field("a", Struct("A"))];
    FieldStep(HALF_BROKEN, "B", fields, reg["B" := b0], Ref(true, "A"), reg["B" := b0]);
    assert AddProperty(b0, "a", Ref(true, "A")) == DANGLING_B && fields[1..] == [];
    assert reg["B" := b0]["B" := DANGLING_B] == reg["B" := DANGLING_B];
  }

  /** A failed call can leave a component behind that refers to the class whose registration
      failed: here it is B, with a reference to A that names no component. */
  lemma FailureCanLeaveDanglingReference()
    ensures var (r, reg) := GetSchema(HALF_BROKEN, Struct("A"), map[], false);
            r.Err? && reg == map["B" := DANGLING_B] && !Resolves(reg, DANGLING_B.properties["a"], true)
  {
    var a0, a1 := Component("A", [], map[]), Component("A", ["b"], map["b" := Ref(true, "B")]);
    var fields := HALF_BROKEN["A"];
    RegisterB(map["A" := a0], true);
    FieldStep(HALF_BROKEN, "A", fields, map["A" := a0], Ref(true, "B"), map["A" := a0, "B" := DANGLING_B]);
    assert AddProperty(a0, "b", Ref(true, "B")) == a1 && fields[1..] == [Field("x", Other("?"))];
    assert (true, "A") in Refs(DANGLING_B.properties["a"]);
  }

  lemma RegisterAFails(reg: Registry, nested: bool)
    requires "B" in reg && "A" !in reg
    ensures GetSchema(HALF_BROKEN, Struct("A"), reg, nested) == (Err(NotAValidType(Other("?"))), reg)
  {
    var a0, a1 := Component("A", [], map[]), Component("A", ["b"], map["b" := Ref(true, "B")]);
    var fields := HALF_BROKEN["A"];
    FieldStep(HALF_BROKEN, "A", fields, reg["A" := a0], Ref(true, "B"), reg["A" := a0]);
    assert AddProperty(a0, "b", Ref(true, "B")) == a1 && fields[1..] == [Field("x", Other("?"))];
    assert reg["A" := a0]["A" := a1] - {"A"} == reg;
  }

  /** It depends on where the call starts: from B the same classes leave nothing behind. */
  lemma StartingPointMatters()
    ensures GetSchema(HALF_BROKEN, Struct("B"), map[], false) == (Err(NotAValidType(Other("?"))), map[])
  {
    var reg: Registry := map["B" := Component("B", [], map[])];
    RegisterAFails(reg, true);
    assert HALF_BROKEN["B"] == [Field("a", Struct("A"))];
    assert reg - {"B"} == map[];
  }

  lemma FieldStep(env: Env, n: string, fields: seq<Field>, reg: Registry, s: JsonSchema, reg1: Registry)
    requires n in reg && fields != [] && GetSchema(env, fields[0].ty, reg, true) == (Ok(s), reg1)
    ensures n in reg1
    ensures AddFields(env, n, fields, reg) ==
            AddFields(env, n, fields[1..], reg1[n := AddProperty(reg1[n], fields[0].name, s)])
  {
  }
}
