/** Resolved Python annotations and the classes they mention. */
module Annotations {

  datatype ScalarKind = Str | Bool | Int | Float

  /** The type arguments of a typing alias are a sequence; it is empty for a bare alias. Other
      is anything that is neither a class nor one of the aliases, an Ellipsis for instance. */
  datatype Ann =
    | Any
    | Scalar(kind: ScalarKind)
    | Bytes
    | DateTime
    | List(args: seq<Ann>)
    | Dict(args: seq<Ann>)
    | Tuple(args: seq<Ann>)
    | Union(args: seq<Ann>)
    | Struct(name: string)
    | ErrorType
    | Other(text: string)

  datatype Field = Field(name: string, ty: Ann)

  /** The annotated fields (dataclass) or constructor parameters (plain class) of each class,
      by class name. A class without any may be left out. */
  type Env = map<string, seq<Field>>

  /** type(None) is a class like any other. */
  const NONE_TYPE := Struct("NoneType")

  function NonNone(args: seq<Ann>): (r: seq<Ann>)
    ensures forall a | a in r :: a in args && a != NONE_TYPE
  {
    if args == [] then []
    else (if args[0] == NONE_TYPE then [] else [args[0]]) + NonNone(args[1..])
  }

  /** _strip_optional: a union of one type with None is that type. */
  function StripOptional(t: Ann): (r: Ann)
    ensures r == t || (t.Union? && r in t.args)
  {
    if t.Union? && |NonNone(t.args)| == 1 then NonNone(t.args)[0] else t
  }

  /** Argument i is the only one that is not None. */
  ghost predicate OnlyOther(args: seq<Ann>, i: nat) {
    i < |args| && args[i] != NONE_TYPE && forall j | 0 <= j < |args| && j != i :: args[j] == NONE_TYPE
  }

  lemma {:induction false} AllNone(args: seq<Ann>)
    ensures NonNone(args) == [] <==> forall i | 0 <= i < |args| :: args[i] == NONE_TYPE
  {
    if args == [] {
    } else {
      AllNone(args[1..]);
      assert forall i | 0 < i < |args| :: args[i] == args[1..][i - 1];
    }
  }

  lemma {:induction false} OnlyOtherIsLeft(args: seq<Ann>, i: nat)
    requires OnlyOther(args, i)
    ensures NonNone(args) == [args[i]]
  {
    if i == 0 {
      AllNone(args[1..]);
    } else {
      OnlyOtherIsLeft(args[1..], i - 1);
    }
  }

  lemma {:induction false} LeftIsOnlyOther(args: seq<Ann>) returns (i: nat)
    requires |NonNone(args)| == 1
    ensures OnlyOther(args, i)
  {
    if args[0] == NONE_TYPE {
      i := LeftIsOnlyOther(args[1..]);
      i := i + 1;
      assert forall j | 0 < j < |args| :: args[j] == args[1..][j - 1];
    } else {
      i := 0;
      AllNone(args[1..]);
      assert forall j | 0 < j < |args| :: args[j] == args[1..][j - 1];
    }
  }

  /** _strip_optional strips a union exactly when one of its arguments is not None, and all
      others are; then that argument is left. */
  lemma StripsExactlyWhen(t: Ann)
    ensures forall i: nat | t.Union? && OnlyOther(t.args, i) :: StripOptional(t) == t.args[i]
    ensures StripOptional(t) != t ==> t.Union? && exists i: nat :: OnlyOther(t.args, i)
  {
    if t.Union? {
      forall i: nat | OnlyOther(t.args, i) ensures StripOptional(t) == t.args[i] {
        OnlyOtherIsLeft(t.args, i);
      }
      if |NonNone(t.args)| == 1 {
        var i := LeftIsOnlyOther(t.args);
      }
    }
  }

  function Types(fields: seq<Field>): (ts: seq<Ann>)
    ensures |ts| == |fields| && forall i | 0 <= i < |ts| :: ts[i] == fields[i].ty
  {
    if fields == [] then [] else [fields[0].ty] + Types(fields[1..])
  }

  function FieldsOf(env: Env, n: string): seq<Field> {
    if n in env then env[n] else []
  }
}
