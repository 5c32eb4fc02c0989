/** The JSON schema generator of metadata/schema.py and its registry of components. */
module Schema {
  import opened Wrappers
  import opened Annotations

  /** A reference is the bare class name inside a component (nested) and carries the prefix
      "#/components/schemas/" elsewhere. */
  datatype JsonSchema =
    | Anything
    | ScalarSchema(kind: ScalarKind)
    | ByteString
    | DateTimeString
    | ArrayOf(items: JsonSchema)
    | PlainObject
    | MapOf(values: JsonSchema)
    | Ref(nested: bool, name: string)

  /** The schema of a class; additional properties are never allowed. */
  datatype Component = Component(id: string, required: seq<string>, properties: map<string, JsonSchema>)

  type Registry = map<string, Component>

  datatype SchemaError = NotAValidType(ty: Ann)

  type Outcome = Result<JsonSchema, SchemaError>

  function Wrap(r: Outcome, f: JsonSchema -> JsonSchema): Outcome {
    if r.Ok? then Ok(f(r.value)) else r
  }

  ghost predicate Extends(reg: Registry, reg': Registry) {
    forall k | k in reg :: k in reg' && reg'[k] == reg[k]
  }

  function AddProperty(c: Component, name: string, s: JsonSchema): Component {
    c.(required := c.required + [name], properties := c.properties[name := s])
  }

  /** _get_schema, with the registry before and after. */
  function GetSchema(env: Env, t: Ann, reg: Registry, nested: bool): (r: (Outcome, Registry))
    ensures Extends(reg, r.1)
    decreases env.Keys - reg.Keys, 1, t
  {
    var ty := StripOptional(t);
    match ty
    case Bytes => (Ok(ByteString), reg)
    case Any => (Ok(Anything), reg)
    case DateTime => (Ok(DateTimeString), reg)
    case Scalar(kind) => (Ok(ScalarSchema(kind)), reg)
    case List(args) => BuildList(env, args, reg, nested)
    case Tuple(args) => BuildList(env, args, reg, nested)
    case Dict(args) => BuildDict(env, args, reg, nested)
    case ErrorType => BuildStruct(env, "ErrorType", reg, nested)
    case Struct(n) => BuildStruct(env, n, reg, nested)
    case Union(_) | Other(_) => (Err(NotAValidType(ty)), reg)
  }

  /** _build_list_schema: lists and tuples alike, by their first type argument. */
  function BuildList(env: Env, args: seq<Ann>, reg: Registry, nested: bool): (r: (Outcome, Registry))
    ensures Extends(reg, r.1)
    decreases env.Keys - reg.Keys, 1, args
  {
    if args == [] then (Ok(ArrayOf(Anything)), reg)
    else
      var (item, reg') := GetSchema(env, args[0], reg, nested);
      (Wrap(item, s => ArrayOf(s)), reg')
  }

  /** _build_dict_schema, which does not look at the key type. */
  function BuildDict(env: Env, args: seq<Ann>, reg: Registry, nested: bool): (r: (Outcome, Registry))
    ensures Extends(reg, r.1)
    decreases env.Keys - reg.Keys, 1, args
  {
    if |args| != 2 then (Ok(PlainObject), reg)
    else
      var (value, reg') := GetSchema(env, args[1], reg, nested);
      (Wrap(value, s => MapOf(s)), reg')
  }

  /** _build_struct_schema with _add_component_if_not_exists: the slot of the class is taken
      before its fields are visited, and given up again when one of them fails. */
  function BuildStruct(env: Env, n: string, reg: Registry, nested: bool): (r: (Outcome, Registry))
    ensures Extends(reg, r.1)
    decreases env.Keys - reg.Keys, 0
  {
    if n in reg then (Ok(Ref(nested, n)), reg)
    else
      var reserved := reg[n := Component(n, [], map[])];
      if n !in env then (Ok(Ref(nested, n)), reserved)
      else
        var (err, reg') := AddFields(env, n, env[n], reserved);
        if err.Some? then (Err(err.value), reg' - {n}) else (Ok(Ref(nested, n)), reg')
  }

  /** The loop over the fields of class n, which fills the component in its slot. */
  function AddFields(env: Env, n: string, fields: seq<Field>, reg: Registry): (r: (Option<SchemaError>, Registry))
    requires n in reg
    ensures n in r.1 && Extends(reg - {n}, r.1)
    decreases env.Keys - reg.Keys, 1, fields
  {
    if fields == [] then (None, reg)
    else
      var (s, reg1) := GetSchema(env, fields[0].ty, reg, true);
      if s.Err? then (Some(s.error), reg1)
      else AddFields(env, n, fields[1..], reg1[n := AddProperty(reg1[n], fields[0].name, s.value)])
  }

  // ----- The generator as it runs, on a registry updated in place -----

  class ComponentMetadata {
    var schemas: Registry

    method Generate(env: Env, t: Ann, nested: bool) returns (r: Outcome)
      modifies this
      ensures (r, schemas) == GetSchema(env, t, old(schemas), nested)
      decreases env.Keys - schemas.Keys, 1, t
    {
      var ty := StripOptional(t);
      match ty {
        case Bytes => r := Ok(ByteString);
        case Any => r := Ok(Anything);
        case DateTime => r := Ok(DateTimeString);
        case Scalar(kind) => r := Ok(ScalarSchema(kind));
        case List(args) => r := GenerateList(env, args, nested);
        case Tuple(args) => r := GenerateList(env, args, nested);
        case Dict(args) => r := GenerateDict(env, args, nested);
        case ErrorType => r := GenerateStruct(env, "ErrorType", nested);
        case Struct(n) => r := GenerateStruct(env, n, nested);
        case Union(_) => r := Err(NotAValidType(ty));
        case Other(_) => r := Err(NotAValidType(ty));
      }
    }

    method GenerateList(env: Env, args: seq<Ann>, nested: bool) returns (r: Outcome)
      modifies this
      ensures (r, schemas) == BuildList(env, args, old(schemas), nested)
      decreases env.Keys - schemas.Keys, 1, args
    {
      if args == [] {
        return Ok(ArrayOf(Anything));
      }
      var item := Generate(env, args[0], nested);
      r := Wrap(item, s => ArrayOf(s));
    }

    method GenerateDict(env: Env, args: seq<Ann>, nested: bool) returns (r: Outcome)
      modifies this
      ensures (r, schemas) == BuildDict(env, args, old(schemas), nested)
      decreases env.Keys - schemas.Keys, 1, args
    {
      if |args| != 2 {
        return Ok(PlainObject);
      }
      var value := Generate(env, args[1], nested);
      r := Wrap(value, s => MapOf(s));
    }

    method GenerateStruct(env: Env, n: string, nested: bool) returns (r: Outcome)
      modifies this
      ensures (r, schemas) == BuildStruct(env, n, old(schemas), nested)
      decreases env.Keys - schemas.Keys, 0, 1
    {
      var err := AddComponentIfNotExists(env, n);
      r := if err.Some? then Err(err.value) else Ok(Ref(nested, n));
    }

    method AddComponentIfNotExists(env: Env, n: string) returns (err: Option<SchemaError>)
      modifies this
      ensures forall nested ::
        BuildStruct(env, n, old(schemas), nested) == (if err.Some? then Err(err.value) else Ok(Ref(nested, n)), schemas)
      decreases env.Keys - schemas.Keys, 0, 0
    {
      if n in schemas {
        return None;
      }
      schemas := schemas[n := Component(n, [], map[])];
      if n !in env {
        return None;
      }
      assert env.Keys - schemas.Keys < env.Keys - old(schemas.Keys) by {
        assert n in env.Keys - old(schemas.Keys) && n !in env.Keys - schemas.Keys;
      }
      err := FillFields(env, n, env[n]);
      if err.Some? {
        schemas := schemas - {n};
      }
    }

    method FillFields(env: Env, n: string, fields: seq<Field>) returns (err: Option<SchemaError>)
      requires n in schemas
      modifies this
      ensures (err, schemas) == AddFields(env, n, fields, old(schemas))
      decreases env.Keys - schemas.Keys, 1, fields
    {
      err := None;
      for i := 0 to |fields|
        invariant n in schemas && Extends(old(schemas) - {n}, schemas)
        invariant AddFields(env, n, fields, old(schemas)) == AddFields(env, n, fields[i..], schemas)
      {
        var s := Generate(env, fields[i].ty, true);
        if s.Err? {
          return Some(s.error);
        }
        schemas := schemas[n := AddProperty(schemas[n], fields[i].name, s.value)];
      }
    }
  }
}
