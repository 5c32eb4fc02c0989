/** The parameter-type validator of internal/types_handler.py. */
module TypesHandler {
  import opened Wrappers
  import opened Annotations
  import opened Graph

  datatype TypeError =
    | ListNeedsElement
    | MapNeedsTwoTypes
    | MapKeyNotString(key: Ann)
    | EmptyTuple
    | ErrorAsParameter
    | NotSerialisable(ty: Ann)

  /** type_is_valid. The classes being validated are on the path; they are accepted when met
      again. Termination: a class joins the path, or the annotation gets smaller. */
  function TypeIsValid(env: Env, t: Ann, path: set<string>, allowError: bool): Option<TypeError>
    decreases env.Keys - path, t
  {
    var ty := StripOptional(t);
    match ty
    case Any | Scalar(_) | Bytes | DateTime => None
    case List(args) =>
      if args == [] then Some(ListNeedsElement) else TypeIsValid(env, args[0], path, false)
    case Dict(args) =>
      if |args| != 2 then Some(MapNeedsTwoTypes)
      else if args[0] != Scalar(Str) then Some(MapKeyNotString(args[0]))
      else TypeIsValid(env, args[1], path, false)
    case Tuple(args) =>
      if args == [] then Some(EmptyTuple) else FirstInvalid(env, args, path)
    case ErrorType => if allowError then None else Some(ErrorAsParameter)
    case Struct(n) =>
      if n in path || n !in env then None else FirstInvalid(env, Types(env[n]), path + {n})
    case Union(_) | Other(_) => Some(NotSerialisable(ty))
  }

  /** The loop over tuple arguments and, in _struct_of_valid_type, over fields. */
  function FirstInvalid(env: Env, ts: seq<Ann>, path: set<string>): Option<TypeError>
    decreases env.Keys - path, ts
  {
    if ts == [] then None
    else
      var err := TypeIsValid(env, ts[0], path, false);
      if err.Some? then err else FirstInvalid(env, ts[1..], path)
  }

  // ----- What is wrong with an annotation, without entering classes -----

  /** The defects of an annotation itself, down to the classes it mentions. */
  function Defects(t: Ann): set<TypeError>
    decreases t
  {
    var ty := StripOptional(t);
    match ty
    case List(args) => if args == [] then {ListNeedsElement} else Defects(args[0])
    case Dict(args) =>
      if |args| != 2 then {MapNeedsTwoTypes}
      else if args[0] != Scalar(Str) then {MapKeyNotString(args[0])}
      else Defects(args[1])
    case Tuple(args) => if args == [] then {EmptyTuple} else DefectsOf(args)
    case ErrorType => {ErrorAsParameter}
    case Union(_) | Other(_) => {NotSerialisable(ty)}
    case _ => {}
  }

  function DefectsOf(ts: seq<Ann>): set<TypeError>
    decreases ts
  {
    if ts == [] then {} else Defects(ts[0]) + DefectsOf(ts[1..])
  }

  /** The classes that an annotation mentions. */
  function Mentioned(t: Ann): set<string>
    decreases t
  {
    match StripOptional(t)
    case List(args) => if args == [] then {} else Mentioned(args[0])
    case Dict(args) => if |args| != 2 then {} else Mentioned(args[1])
    case Tuple(args) => MentionedBy(args)
    case Struct(n) => {n}
    case ErrorType => {"ErrorType"}
    case _ => {}
  }

  function MentionedBy(ts: seq<Ann>): set<string>
    decreases ts
  {
    if ts == [] then {} else Mentioned(ts[0]) + MentionedBy(ts[1..])
  }

  /** The class graph: each class to the classes that its fields mention. */
  function ClassGraph(env: Env): Graph {
    map n | n in env :: MentionedBy(Types(env[n]))
  }

  function FieldDefects(env: Env, n: string): set<TypeError> {
    DefectsOf(Types(FieldsOf(env, n)))
  }

  // ----- The depth-first search finds exactly the reachable defects -----

  /** r is the outcome of a search that starts from these names and whose own annotation has
      these defects. */
  ghost predicate Exact(env: Env, defects: set<TypeError>, from: set<string>, path: set<string>, r: Option<TypeError>) {
    match r
    case None => defects == {} && forall n | Reach(ClassGraph(env), from, path, n) :: FieldDefects(env, n) == {}
    case Some(e) => e in defects || exists n :: Reach(ClassGraph(env), from, path, n) && e in FieldDefects(env, n)
  }

  lemma {:induction false} ValidatorExact(env: Env, t: Ann, path: set<string>)
    ensures Exact(env, Defects(t), Mentioned(t), path, TypeIsValid(env, t, path, false))
    decreases env.Keys - path, t
  {
    match StripOptional(t)
    case List(args) =>
      if args == [] {
        LeafExact(env, t, path);
      } else {
        ValidatorExact(env, args[0], path);
      }
    case Dict(args) =>
      if |args| == 2 && args[0] == Scalar(Str) {
        ValidatorExact(env, args[1], path);
      } else {
        LeafExact(env, t, path);
      }
    case Tuple(args) =>
      if args == [] {
        LeafExact(env, t, path);
      } else {
        FirstInvalidExact(env, args, path);
      }
    case Struct(n) => StructExact(env, n, path);
    case _ => LeafExact(env, t, path);
  }

  /** An annotation that is judged without looking further. */
  lemma LeafExact(env: Env, t: Ann, path: set<string>)
    requires match StripOptional(t)
             case List(args) => args == []
             case Tuple(args) => args == []
             case Dict(args) => |args| != 2 || args[0] != Scalar(Str)
             case Struct(_) => false
             case _ => true
    ensures Exact(env, Defects(t), Mentioned(t), path, TypeIsValid(env, t, path, false))
  {
  }

  lemma {:induction false} FirstInvalidExact(env: Env, ts: seq<Ann>, path: set<string>)
    ensures Exact(env, DefectsOf(ts), MentionedBy(ts), path, FirstInvalid(env, ts, path))
    decreases env.Keys - path, ts
  {
    if ts == [] {
    } else {
      ValidatorExact(env, ts[0], path);
      FirstInvalidExact(env, ts[1..], path);
      forall n {
        ReachUnion(ClassGraph(env), Mentioned(ts[0]), MentionedBy(ts[1..]), path, n);
      }
    }
  }

  lemma {:induction false} StructExact(env: Env, n: string, path: set<string>)
    ensures Exact(env, {}, {n}, path, TypeIsValid(env, Struct(n), path, false))
    decreases env.Keys - path, Struct(n), 0
  {
    var g := ClassGraph(env);
    var r := TypeIsValid(env, Struct(n), path, false);
    if n in env && n !in path {
      FirstInvalidExact(env, Types(env[n]), path + {n});
      ReachDirect(g, {n}, path, n);
    }
    match r
    case None =>
      forall m | Reach(g, {n}, path, m) ensures FieldDefects(env, m) == {} {
        LoopRemoval(g, path, n, m);
      }
    case Some(e) =>
      if m :| Reach(g, Succ(g, n), path + {n}, m) && e in FieldDefects(env, m) {
        ReachMonotone(g, Succ(g, n), path + {n}, g, Succ(g, n), path, m);
        ReachStep(g, {n}, path, n, m);
      }
  }

  /** Every annotation inside t or inside a class reachable from t is well formed. */
  ghost predicate WellFormed(env: Env, t: Ann) {
    Defects(t) == {} && forall n | Reach(ClassGraph(env), Mentioned(t), {}, n) :: FieldDefects(env, n) == {}
  }

  lemma ErrorsOnlyMatterOnTop(env: Env, t: Ann)
    ensures TypeIsValid(env, t, {}, true) ==
            if StripOptional(t) == ErrorType then None else TypeIsValid(env, t, {}, false)
  {
  }

  /** The validator accepts exactly the types from which no ill-formed annotation can be
      reached, on any class environment, cyclic or not; and the error it reports is the defect
      of an annotation that can be reached. */
  lemma TypeIsValidExactly(env: Env, t: Ann, allowError: bool)
    ensures var r := TypeIsValid(env, t, {}, allowError);
            && (r == None <==> WellFormed(env, t) || (allowError && StripOptional(t) == ErrorType))
            && (r.Some? ==>
                  || r.value in Defects(t)
                  || exists n :: Reach(ClassGraph(env), Mentioned(t), {}, n) && r.value in FieldDefects(env, n))
  {
    ValidatorExact(env, t, {});
    ErrorsOnlyMatterOnTop(env, t);
  }
}
