/** Dispatch of a call in contractapi/contract_chaincode.py: the function that is run, the
    metadata entry that goes with it, and the hooks around it. */
module Dispatch {
  import opened Wrappers
  import opened Strings

  /** What registration keeps of a method: its number of parameters besides the context. */
  datatype ContractFunction = ContractFunction(arity: nat)

  /** A metadata entry: a name and the number of its parameter descriptions. */
  datatype TransactionEntry = TransactionEntry(name: string, parameters: nat)

  type Functions = map<string, ContractFunction>

  /** Python's str.isupper and str.upper on one character. */
  datatype Letters = Letters(isUpper: char -> bool, upper: char -> string)

  /** _to_first_rune_upper_case. */
  function FirstUpper(text: string, letters: Letters): string {
    if text == "" || letters.isUpper(text[0]) then text else letters.upper(text[0]) + text[1..]
  }

  /** Capitalising changes the first character only, and nothing if that is a capital letter. */
  lemma CapitalForm(name: string, small: char, letters: Letters)
    requires name != "" && letters.isUpper(name[0])
    requires !letters.isUpper(small) && letters.upper(small) == [name[0]]
    ensures FirstUpper(name, letters) == name && FirstUpper([small] + name[1..], letters) == name
    ensures FirstUpper("", letters) == ""
  {
    assert ([small] + name[1..])[1..] == name[1..] && [name[0]] + name[1..] == name;
  }

  // ----- Routing -----

  /** Python's rfind for a single character: its last position, or -1. */
  function RFind(s: string, c: char): (i: int)
    ensures -1 <= i < |s|
    ensures i >= 0 ==> s[i] == c && c !in s[i + 1..]
    ensures i == -1 <==> c !in s
  {
    if s == "" then -1
    else if s[|s| - 1] == c then |s| - 1
    else
      var i := RFind(s[..|s| - 1], c);
      assert s == s[..|s| - 1] + [s[|s| - 1]];
      assert i >= 0 ==> s[i + 1..] == s[..|s| - 1][i + 1..] + [s[|s| - 1]];
      i
  }

  /** _get_namespace_function_and_params, without the parameters. A function name never has a
      colon; the contract name has all colons but the last. */
  function Route(nsFcn: string, defaultContract: string): (r: (string, string))
    ensures ':' !in r.1
    ensures ':' in nsFcn ==> nsFcn == r.0 + ":" + r.1
    ensures ':' !in nsFcn ==> r == (defaultContract, nsFcn)
  {
    var idx := RFind(nsFcn, ':');
    if idx == -1 then (defaultContract, nsFcn)
    else
      assert nsFcn == nsFcn[..idx] + [nsFcn[idx]] + nsFcn[idx + 1..];
      (nsFcn[..idx], nsFcn[idx + 1..])
  }

  /** That determines the route: whatever the contract is called, one way to split is left. */
  lemma RouteIsUnique(ns: string, fn: string, ns': string, fn': string)
    requires ':' !in fn && ':' !in fn' && ns + ":" + fn == ns' + ":" + fn'
    ensures ns == ns' && fn == fn'
  {
    var s := ns + ":" + fn;
    assert s[|ns|] == ':' && s[|ns'|] == ':';
    assert forall i | |ns| < i < |s| :: s[i] == fn[i - |ns| - 1];
    assert forall i | |ns'| < i < |s| :: s[i] == fn'[i - |ns'| - 1];
    assert |ns| == |ns'|;
    assert ns == s[..|ns|] && fn == s[|ns| + 1..];
    assert ns' == s[..|ns'|] && fn' == s[|ns'| + 1..];
  }

  /** A name leads to the default contract exactly when it is a plain function name or has the
      name of that contract in front. */
  lemma RoutesToDefault(name: string, default: string, fn: string)
    requires ':' !in fn
    ensures Route(name, default) == (default, fn) <==> name == fn || name == default + ":" + fn
  {
    var (ns, form) := Route(name, default);
    if name == default + ":" + fn {
      assert name[|default|] == ':';
      RouteIsUnique(ns, form, default, fn);
    }
  }

  // ----- The function and its metadata entry -----

  /** The name under which the function to run is registered. */
  function CalledName(functions: Functions, fn: string, letters: Letters): Option<string> {
    if fn in functions then Some(fn)
    else if FirstUpper(fn, letters) in functions then Some(FirstUpper(fn, letters))
    else None
  }

  /** The entries describe exactly the registered functions and are sorted by name. */
  ghost predicate Reflects(functions: Functions, entries: seq<TransactionEntry>) {
    && (forall i | 0 <= i < |entries| ::
          entries[i].name in functions && entries[i].parameters == functions[entries[i].name].arity)
    && (forall name | name in functions :: exists i | 0 <= i < |entries| :: entries[i].name == name)
    && SortedByName(entries)
  }

  ghost predicate SortedByName(entries: seq<TransactionEntry>) {
    forall i, j | 0 <= i < j < |entries| :: Less(entries[i].name, entries[j].name)
  }

  /** reflect_metadata: one parameter description for each parameter. */
  function ReflectEntry(name: string, f: ContractFunction): TransactionEntry {
    TransactionEntry(name, f.arity)
  }

  /** Where an entry belongs in a sorted list. */
  function Insert(entries: seq<TransactionEntry>, e: TransactionEntry): (r: seq<TransactionEntry>)
    ensures forall x :: x in r <==> x in entries || x == e
  {
    if entries == [] || Less(e.name, entries[0].name) then [e] + entries
    else [entries[0]] + Insert(entries[1..], e)
  }

  lemma {:induction false} InsertKeepsSorted(entries: seq<TransactionEntry>, e: TransactionEntry)
    requires SortedByName(entries) && forall x | x in entries :: x.name != e.name
    ensures SortedByName(Insert(entries, e))
  {
    if entries == [] {
    } else {
      var first, rest := entries[0], entries[1..];
      LessIsTotal(e.name, first.name);
      if Less(e.name, first.name) {
        forall x | x in rest ensures Less(e.name, x.name) {
          LessIsTransitive(e.name, first.name, x.name);
        }
      } else {
        InsertKeepsSorted(rest, e);
        assert forall x | x in Insert(rest, e) :: Less(first.name, x.name);
      }
    }
  }

  /** _reflect_metadata for one contract: an entry per function in registration order, sorted.
      The names are those of the function dictionary, in its order. */
  method ReflectTransactions(names: seq<string>, functions: Functions) returns (entries: seq<TransactionEntry>)
    requires forall n :: n in names <==> n in functions
    requires forall i, j | 0 <= i < j < |names| :: names[i] != names[j]
    ensures Reflects(functions, entries)
  {
    entries := [];
    for i := 0 to |names|
      invariant SortedByName(entries)
      invariant forall x :: x in entries <==> exists j | 0 <= j < i :: x == ReflectEntry(names[j], functions[names[j]])
    {
      var e := ReflectEntry(names[i], functions[names[i]]);
      InsertKeepsSorted(entries, e);
      entries := Insert(entries, e);
    }
    assert forall i | 0 <= i < |entries| :: entries[i] in entries;
    forall name | name in functions ensures exists i | 0 <= i < |entries| :: entries[i].name == name {
      assert ReflectEntry(name, functions[name]) in entries;
    }
  }

  /** The loop of invoke over the entries: the first that has either form of the name. */
  method FindEntry(entries: seq<TransactionEntry>, fn: string, letters: Letters)
    returns (entry: Option<TransactionEntry>)
    ensures entry == FirstMatch(entries, fn, FirstUpper(fn, letters))
  {
    for i := 0 to |entries|
      invariant FirstMatch(entries, fn, FirstUpper(fn, letters)) ==
                FirstMatch(entries[i..], fn, FirstUpper(fn, letters))
    {
      if entries[i].name == fn || entries[i].name == FirstUpper(fn, letters) {
        return Some(entries[i]);
      }
    }
    return None;
  }

  function FirstMatch(entries: seq<TransactionEntry>, a: string, b: string): Option<TransactionEntry> {
    if entries == [] then None
    else if entries[0].name == a || entries[0].name == b then Some(entries[0])
    else FirstMatch(entries[1..], a, b)
  }

  lemma {:induction false} FirstMatchIsLeast(entries: seq<TransactionEntry>, a: string, b: string)
    requires SortedByName(entries)
    ensures match FirstMatch(entries, a, b)
            case None => forall e | e in entries :: e.name != a && e.name != b
            case Some(m) =>
              && m in entries && (m.name == a || m.name == b)
              && (forall e | e in entries && (e.name == a || e.name == b) :: e.name == m.name || Less(m.name, e.name))
  {
    if entries != [] && entries[0].name != a && entries[0].name != b {
      FirstMatchIsLeast(entries[1..], a, b);
      assert forall e | e in entries :: e == entries[0] || e in entries[1..];
    }
  }

  /** Both forms of the name are registered, and the capitalised one comes first in order. */
  predicate Shadowed(functions: Functions, fn: string, letters: Letters) {
    var up := FirstUpper(fn, letters);
    fn in functions && up in functions && Less(up, fn)
  }

  /** The entry that invoke picks is that of the function it runs, with as many parameters,
      exactly when the name is not shadowed; and there is an entry just when there is a
      function. */
  lemma EntryOfCalledFunction(functions: Functions, entries: seq<TransactionEntry>, fn: string, letters: Letters)
    requires Reflects(functions, entries)
    ensures var called := CalledName(functions, fn, letters);
            var entry := FirstMatch(entries, fn, FirstUpper(fn, letters));
            && (called.Some? <==> entry.Some?)
            && (called.Some? ==>
                  && (entry.value.name == called.value <==> !Shadowed(functions, fn, letters))
                  && entry.value.name in functions
                  && entry.value.parameters == functions[entry.value.name].arity)
  {
    var up := FirstUpper(fn, letters);
    FirstMatchIsLeast(entries, fn, up);
    LessIsTotal(fn, up);
    if fn in functions {
      var i :| 0 <= i < |entries| && entries[i].name == fn;
      assert entries[i] in entries;
    }
    if up in functions {
      var i :| 0 <= i < |entries| && entries[i].name == up;
      assert entries[i] in entries;
    }
  }

  // ----- Arguments -----

  datatype CallError = MetadataCount | TooFewArguments | Conversion(index: nat) | Raised

  /** A conversion of argument i of some function, by its position. */
  type Converter = (nat, string) -> Option<string>

  /** _format_args: the count of the metadata is checked first, then the number of arguments,
      then each of them is converted; further arguments are ignored. */
  method FormatArgs(f: ContractFunction, entry: Option<TransactionEntry>, params: seq<string>, convert: Converter)
    returns (r: Result<seq<string>, CallError>)
    ensures r == Formatted(f, entry, params, convert)
  {
    if entry.Some? && entry.value.parameters != f.arity {
      return Err(MetadataCount);
    }
    if |params| < f.arity {
      return Err(TooFewArguments);
    }
    var needed := params[..f.arity];
    var values: seq<string> := [];
    assert needed[0..] == needed;
    PrependNothing(ConvertFrom(0, needed, convert));
    for i := 0 to f.arity
      invariant ConvertFrom(0, needed, convert) == Prepend(values, ConvertFrom(i, needed[i..], convert))
    {
      var v := convert(i, needed[i]);
      if v.None? {
        return Err(Conversion(i));
      }
      PrependTwice(values, v.value, ConvertFrom(i + 1, needed[i + 1..], convert));
      values := values + [v.value];
    }
    assert values + [] == values;
    r := Ok(values);
  }

  lemma PrependNothing(r: Result<seq<string>, CallError>)
    ensures Prepend([], r) == r
  {
    if r.Ok? {
      assert [] + r.value == r.value;
    }
  }

  lemma PrependTwice(values: seq<string>, v: string, r: Result<seq<string>, CallError>)
    ensures Prepend(values, Prepend([v], r)) == Prepend(values + [v], r)
  {
    if r.Ok? {
      assert values + ([v] + r.value) == values + [v] + r.value;
    }
  }

  function Prepend(values: seq<string>, r: Result<seq<string>, CallError>): Result<seq<string>, CallError> {
    if r.Ok? then Ok(values + r.value) else r
  }

  function ConvertFrom(i: nat, params: seq<string>, convert: Converter): Result<seq<string>, CallError>
    decreases |params|
  {
    if params == [] then Ok([])
    else
      match convert(i, params[0])
      case None => Err(Conversion(i))
      case Some(v) => Prepend([v], ConvertFrom(i + 1, params[1..], convert))
  }

  function Formatted(f: ContractFunction, entry: Option<TransactionEntry>, params: seq<string>, convert: Converter)
    : Result<seq<string>, CallError>
  {
    if entry.Some? && entry.value.parameters != f.arity then Err(MetadataCount)
    else if |params| < f.arity then Err(TooFewArguments)
    else ConvertFrom(0, params[..f.arity], convert)
  }

  lemma {:induction false} ConvertNeverBlamesMetadata(i: nat, params: seq<string>, convert: Converter)
    ensures ConvertFrom(i, params, convert) != Err(MetadataCount)
    decreases |params|
  {
    if params == [] {
    } else {
      ConvertNeverBlamesMetadata(i + 1, params[1..], convert);
    }
  }

  lemma {:induction false} ConvertedExactly(i: nat, params: seq<string>, convert: Converter)
    ensures match ConvertFrom(i, params, convert)
            case Ok(values) =>
              |values| == |params| && forall k | 0 <= k < |params| :: convert(i + k, params[k]) == Some(values[k])
            case Err(e) =>
              && e.Conversion? && i <= e.index < i + |params| && convert(e.index, params[e.index - i]).None?
              && forall k | 0 <= k < e.index - i :: convert(i + k, params[k]).Some?
    decreases |params|
  {
    if params == [] {
    } else {
      ConvertedExactly(i + 1, params[1..], convert);
      assert forall k | 0 < k < |params| :: params[k] == params[1..][k - 1];
      match ConvertFrom(i + 1, params[1..], convert)
      case Ok(values) =>
        if convert(i, params[0]).Some? {
          var all := [convert(i, params[0]).value] + values;
          assert forall k | 0 < k < |params| :: convert(i + 1 + (k - 1), params[1..][k - 1]) == Some(all[k]);
        }
      case Err(e) =>
        if convert(i, params[0]).Some? {
          forall k | 0 <= k < e.index - i ensures convert(i + k, params[k]).Some? {
            if k > 0 {
              assert convert(i + 1 + (k - 1), params[1..][k - 1]).Some?;
            }
          }
        }
    }
  }

  /** Value k is the conversion of argument k; the first argument that does not convert is the
      error, unless a count is wrong. */
  lemma FormattedExactly(f: ContractFunction, entry: Option<TransactionEntry>, params: seq<string>, convert: Converter)
    ensures match Formatted(f, entry, params, convert)
            case Ok(values) =>
              && (entry.Some? ==> entry.value.parameters == f.arity) && f.arity == |values| <= |params|
              && (forall k | 0 <= k < f.arity :: convert(k, params[k]) == Some(values[k]))
            case Err(MetadataCount) => entry.Some? && entry.value.parameters != f.arity
            case Err(TooFewArguments) => (entry.Some? ==> entry.value.parameters == f.arity) && |params| < f.arity
            case Err(Conversion(k)) =>
              && (entry.Some? ==> entry.value.parameters == f.arity) && k < f.arity <= |params|
              && convert(k, params[k]).None? && forall n | 0 <= n < k :: convert(n, params[n]).Some?
            case Err(Raised) => false
  {
    if !(entry.Some? && entry.value.parameters != f.arity) && |params| >= f.arity {
      var needed := params[..f.arity];
      ConvertedExactly(0, needed, convert);
      assert forall k | 0 <= k < f.arity :: convert(0 + k, needed[k]) == convert(k, params[k]);
    }
  }

  /** With reflected metadata the count error comes up exactly when the name is shadowed by a
      function with another number of parameters; never if no two names of a contract differ
      only in the case of their first letter. */
  lemma CountErrorExactlyWhenShadowed(functions: Functions, entries: seq<TransactionEntry>, fn: string,
                                      letters: Letters,
                                      params: seq<string>, convert: Converter)
    requires Reflects(functions, entries) && CalledName(functions, fn, letters).Some?
    ensures var f := functions[CalledName(functions, fn, letters).value];
            var entry := FirstMatch(entries, fn, FirstUpper(fn, letters));
            Formatted(f, entry, params, convert) == Err(MetadataCount) <==>
            Shadowed(functions, fn, letters) && functions[FirstUpper(fn, letters)].arity != f.arity
  {
    EntryOfCalledFunction(functions, entries, fn, letters);
    var up := FirstUpper(fn, letters);
    var f := functions[CalledName(functions, fn, letters).value];
    FirstMatchIsLeast(entries, fn, up);
    if |params| >= f.arity {
      ConvertNeverBlamesMetadata(0, params[..f.arity], convert);
    }
  }

  // ----- Hooks -----

  datatype Step = Before | Function(name: string, values: seq<string>) | Unknown | After

  datatype Contract = Contract(functions: Functions, entries: seq<TransactionEntry>,
                               before: bool, unknown: bool, after: bool)

  datatype Response = Success | Failure

  /** What contract c runs for the name fn: the function registered under that spelling or else
      under the capitalised one, with its converted arguments; the unknown-transaction hook only
      when there is neither. */
  ghost predicate Serves(c: Contract, fn: string, params: seq<string>, letters: Letters, convert: Converter, s: Step) {
    var up := FirstUpper(fn, letters);
    match s
    case Function(n, values) =>
      && n in c.functions && (n == fn || (n == up && fn !in c.functions))
      && Formatted(c.functions[n], FirstMatch(c.entries, fn, up), params, convert) == Ok(values)
    case Unknown => c.unknown && fn !in c.functions && up !in c.functions
    case _ => false
  }

  /** All steps of a call: the hooks that the contract has around what it runs. */
  ghost predicate AllSteps(c: Contract, fn: string, params: seq<string>, letters: Letters, convert: Converter,
                           steps: seq<Step>)
  {
    exists s :: Serves(c, fn, params, letters, convert, s) && steps == Around(c, s)
  }

  function Around(c: Contract, s: Step): seq<Step> {
    (if c.before then [Before] else []) + [s] + (if c.after then [After] else [])
  }

  /** There is no such contract, no name, nothing to run, or the arguments do not fit. */
  ghost predicate Refused(contracts: map<string, Contract>, ns: string, fn: string, params: seq<string>,
                          letters: Letters,
                          convert: Converter)
  {
    ns !in contracts || fn == "" || forall s :: !Serves(contracts[ns], fn, params, letters, convert, s)
  }

  /** The steps ran in order until one failed. */
  ghost predicate RanUntilFailure(steps: seq<Step>, trace: seq<Step>, succeeds: Step -> bool) {
    && trace != [] && trace <= steps
    && (forall k | 0 <= k < |trace| - 1 :: succeeds(trace[k]))
    && (trace == steps || !succeeds(trace[|trace| - 1]))
  }

  lemma ServedStep(c: Contract, fn: string, params: seq<string>, letters: Letters, convert: Converter)
    ensures match CalledName(c.functions, fn, letters)
            case None => forall s :: Serves(c, fn, params, letters, convert, s) <==> s == Unknown && c.unknown
            case Some(n) =>
              var values := Formatted(c.functions[n], FirstMatch(c.entries, fn, FirstUpper(fn, letters)),
                                      params, convert);
              forall s :: Serves(c, fn, params, letters, convert, s) <==> values.Ok? && s == Function(n, values.value)
  {
  }

  lemma FirstStep(c: Contract, s: Step, succeeds: Step -> bool)
    requires c.before && !succeeds(Before)
    ensures RanUntilFailure(Around(c, s), [Before], succeeds)
  {
    assert [Before] + [s] + (if c.after then [After] else []) == Around(c, s);
  }

  lemma SecondStep(c: Contract, s: Step, succeeds: Step -> bool)
    requires c.before ==> succeeds(Before)
    ensures var trace := (if c.before then [Before] else []) + [s];
            && (!succeeds(s) || !c.after ==> RanUntilFailure(Around(c, s), trace, succeeds))
            && (!c.after ==> trace == Around(c, s))
  {
  }

  lemma LastStep(c: Contract, s: Step, succeeds: Step -> bool)
    requires (c.before ==> succeeds(Before)) && succeeds(s) && c.after
    ensures (if c.before then [Before] else []) + [s] + [After] == Around(c, s)
    ensures RanUntilFailure(Around(c, s), Around(c, s), succeeds)
  {
  }

  /** invoke: the steps that run, in order, and the response. Each step succeeds or fails. A call
      that is not refused runs its steps until one fails, and succeeds if none does; one that is
      refused runs the before hook at most. */
  method Invoke(contracts: map<string, Contract>, ns: string, fn: string, params: seq<string>, letters: Letters,
                convert: Converter, succeeds: Step -> bool)
    returns (trace: seq<Step>, r: Response)
    ensures Refused(contracts, ns, fn, params, letters, convert) ==>
              r.Failure? && trace == if ns in contracts && fn != "" && contracts[ns].before then [Before] else []
    ensures !Refused(contracts, ns, fn, params, letters, convert) ==>
              && (r.Success? <==> forall s | s in trace :: succeeds(s))
              && (exists steps ::
                    AllSteps(contracts[ns], fn, params, letters, convert, steps)
                    && RanUntilFailure(steps, trace, succeeds))
  {
    trace := [];
    if ns !in contracts || fn == "" {
      return [], Failure;
    }
    var c := contracts[ns];
    ServedStep(c, fn, params, letters, convert);
    if c.before {
      trace := [Before];
      if !succeeds(Before) {
        forall s | Serves(c, fn, params, letters, convert, s)
          ensures AllSteps(c, fn, params, letters, convert, Around(c, s))
        {
          FirstStep(c, s, succeeds);
        }
        return trace, Failure;
      }
    }
    var called := CalledName(c.functions, fn, letters);
    var step: Step;
    if called.None? {
      if !c.unknown {
        return trace, Failure;
      }
      step := Unknown;
    } else {
      var entry := FindEntry(c.entries, fn, letters);
      var values := FormatArgs(c.functions[called.value], entry, params, convert);
      if values.Err? {
        return trace, Failure;
      }
      step := Function(called.value, values.value);
    }
    assert AllSteps(c, fn, params, letters, convert, Around(c, step));
    SecondStep(c, step, succeeds);
    trace := trace + [step];
    if !succeeds(step) {
      return trace, Failure;
    }
    if c.after {
      LastStep(c, step, succeeds);
      trace := trace + [After];
      if !succeeds(After) {
        return trace, Failure;
      }
    }
    r := Success;
  }

  /** The hooks that a contract has stand first and last, and only those. */
  lemma HooksAround(c: Contract, fn: string, params: seq<string>, letters: Letters, convert: Converter,
                    steps: seq<Step>)
    requires AllSteps(c, fn, params, letters, convert, steps)
    ensures |steps| == 1 + (if c.before then 1 else 0) + (if c.after then 1 else 0)
    ensures (c.before ==> steps[0] == Before) && (c.after ==> steps[|steps| - 1] == After)
    ensures (Before in steps <==> c.before) && (After in steps <==> c.after)
    ensures Serves(c, fn, params, letters, convert, steps[if c.before then 1 else 0])
  {
    var s :| Serves(c, fn, params, letters, convert, s) && steps == Around(c, s);
    assert steps[if c.before then 1 else 0] == s;
  }

  /** After a success every step has run; a step that failed is the last of the trace. */
  lemma SuccessRanEverything(steps: seq<Step>, trace: seq<Step>, succeeds: Step -> bool)
    requires RanUntilFailure(steps, trace, succeeds)
    ensures (forall s | s in trace :: succeeds(s)) ==> trace == steps
    ensures forall k | 0 <= k < |trace| && !succeeds(trace[k]) :: k == |trace| - 1
  {
    assert trace[|trace| - 1] in trace;
  }
}
