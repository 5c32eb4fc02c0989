/** examples/ccaas/fabric-contract-api/asset-transfer-sbe: the chaincode on the contract API,
    with the argument conversion that the framework does before a transaction function runs. */
module SbeContract {
  import opened Wrappers
  import opened SbeAssets
  import Dispatch

  /** The Asset dataclass. */
  datatype AssetRecord = AssetRecord(id: string, value: int, owner: string, ownerOrg: string)

  function ToDoc(a: AssetRecord): Doc {
    map["id" := Str(a.id), "value" := Int(a.value), "owner" := Str(a.owner), "owner_org" := Str(a.ownerOrg)]
  }

  function Digits(n: nat): string {
    (if n < 10 then "" else Digits(n / 10)) + ["0123456789"[n % 10]]
  }

  /** str of a JSON value. */
  function AsString(j: Json): string {
    match j
    case Str(s) => s
    case Int(n) => if n < 0 then "-" + Digits(-n) else Digits(n)
  }

  /** int(x or 0) of a JSON value; None when int raises. */
  function AsInt(j: Json, parse: IntParser): Option<int> {
    match j
    case Str(s) => if s == "" then Some(0) else parse(s)
    case Int(n) => Some(n)
  }

  function StringField(d: Doc, name: string, default: string): string {
    if name in d then AsString(d[name]) else default
  }

  /** _read_asset on what is stored under key; the error is that of int. */
  function ReadRecord(key: string, d: Doc, parse: IntParser): Option<AssetRecord> {
    var value := if "value" in d then AsInt(d["value"], parse) else Some(0);
    if value.None? then None
    else Some(AssetRecord(StringField(d, "id", key), value.value,
                          StringField(d, "owner", ""), StringField(d, "owner_org", "")))
  }

  /** The int parameter converter: the empty string is zero. */
  function ConvertInt(text: string, parse: IntParser): Option<int> {
    if text == "" then Some(0) else parse(text)
  }

  /** The number of parameters of each transaction besides the context. */
  function Arity(fn: Fn): nat {
    match fn
    case CreateAsset => 3
    case ReadAsset => 1
    case UpdateAsset => 2
    case DeleteAsset => 1
    case TransferAsset => 3
    case AssetExists => 1
    case InitLedger => 0
  }

  predicate HasIntParameter(fn: Fn) {
    fn.CreateAsset? || fn.UpdateAsset?
  }

  /** call: too few arguments are an error, further ones are ignored; then the parameters are
      converted, and only then does the transaction look at the ledger. */
  function Transact(state: map<string, Doc>, fn: Fn, args: seq<string>, mspid: Option<string>, parse: IntParser)
    : (map<string, Doc>, Response)
  {
    if |args| < Arity(fn) then (state, Failure(WrongArguments))
    else if HasIntParameter(fn) && ConvertInt(args[1], parse).None? then (state, Failure(NotANumber(args[1])))
    else
      match fn
      case CreateAsset =>
        if args[0] in state then (state, Failure(AlreadyExists(args[0])))
        else
          var a := AssetRecord(args[0], ConvertInt(args[1], parse).value, args[2], ClientOrg(mspid));
          (state[a.id := ToDoc(a)], Success(Empty))
      case ReadAsset =>
        if args[0] !in state then (state, Failure(DoesNotExist(args[0])))
        else
          var a := ReadRecord(args[0], state[args[0]], parse);
          (state, if a.None? then Failure(StoredValueNotANumber) else Success(Record(ToDoc(a.value))))
      case UpdateAsset =>
        if args[0] !in state then (state, Failure(DoesNotExist(args[0])))
        else
          var a := ReadRecord(args[0], state[args[0]], parse);
          if a.None? then (state, Failure(StoredValueNotANumber))
          else (state[a.value.id := ToDoc(a.value.(value := ConvertInt(args[1], parse).value))], Success(Empty))
      case DeleteAsset =>
        if args[0] !in state then (state, Failure(DoesNotExist(args[0]))) else (state - {args[0]}, Success(Empty))
      case TransferAsset =>
        if args[0] !in state then (state, Failure(DoesNotExist(args[0])))
        else
          var a := ReadRecord(args[0], state[args[0]], parse);
          if a.None? then (state, Failure(StoredValueNotANumber))
          else (state[a.value.id := ToDoc(a.value.(owner := args[1], ownerOrg := args[2]))], Success(Empty))
      case AssetExists => (state, Success(Flag(args[0] in state)))
      case InitLedger =>
        (state["asset1" := ToDoc(AssetRecord("asset1", 100, "Tomoko", "Org1MSP"))]
              ["asset2" := ToDoc(AssetRecord("asset2", 200, "Brad", "Org1MSP"))], Success(Empty))
  }

  // ----- Which function a name runs -----

  const CONTRACT_NAME := "AssetTransferSBE"
  const SYSTEM_CONTRACT_NAME := "org.hyperledger.fabric"

  /** What registration finds on the contract, and on the system contract that is always there. */
  const FUNCTIONS: Dispatch.Functions :=
    RegisterAll({CreateAsset, ReadAsset, UpdateAsset, DeleteAsset, TransferAsset, AssetExists, InitLedger})
  const SYSTEM_FUNCTIONS: Dispatch.Functions := map["get_metadata" := Dispatch.ContractFunction(0)]

  function RegisterAll(fns: set<Fn>): (functions: Dispatch.Functions)
    ensures forall name :: name in functions <==> Named(name).Some? && Named(name).value in fns
    ensures forall name | name in functions :: functions[name].arity == Arity(Named(name).value)
  {
    map name | name in (set fn | fn in fns :: NameOf(fn)) :: Dispatch.ContractFunction(Arity(Named(name).value))
  }

  datatype Target = Transaction(fn: Fn) | GetMetadata

  /** The contract of this name in the chaincode; the sample's own is the default. */
  function Resolve(name: string, letters: Dispatch.Letters): Option<Target> {
    var (ns, fn) := Dispatch.Route(name, CONTRACT_NAME);
    if ns == CONTRACT_NAME && fn != "" then
      match Dispatch.CalledName(FUNCTIONS, fn, letters)
      case None => None
      case Some(called) => Some(Transaction(Named(called).value))
    else if ns == SYSTEM_CONTRACT_NAME && fn != "" then
      if Dispatch.CalledName(SYSTEM_FUNCTIONS, fn, letters).None? then None else Some(GetMetadata)
    else None
  }

  /** What the chaincode is given from outside: Python's treatment of letters and numbers, and
      the text of its metadata. */
  datatype Setting = Setting(letters: Dispatch.Letters, parse: IntParser, metadata: string)

  /** invoke, on the state of the ledger. A missing name counts as an empty one. */
  function Invoke(state: map<string, Doc>, call: Call, g: Setting): (map<string, Doc>, Response) {
    Serve(state, TargetOf(call, g.letters), call, g)
  }

  function TargetOf(call: Call, letters: Dispatch.Letters): Option<Target> {
    Resolve(if call.name.None? then "" else call.name.value, letters)
  }

  function Serve(state: map<string, Doc>, target: Option<Target>, call: Call, g: Setting)
    : (map<string, Doc>, Response)
  {
    match target
    case None => (state, Failure(NoSuchFunction))
    case Some(GetMetadata) => (state, Success(Text(g.metadata)))
    case Some(Transaction(fn)) => Transact(state, fn, call.args, call.mspid, g.parse)
  }

  /** The transactions as they run, against the ledger. */
  class Contract {
    const ledger: Ledger
    const setting: Setting

    constructor (ledger: Ledger, setting: Setting)
      ensures this.ledger == ledger && this.setting == setting
    {
      this.ledger := ledger;
      this.setting := setting;
    }

    method WriteAsset(a: AssetRecord)
      modifies ledger
      ensures ledger.state == old(ledger.state)[a.id := ToDoc(a)]
    {
      ledger.PutState(a.id, ToDoc(a));
    }

    /** A missing asset, an asset, or the error of a value that is no number. */
    method ReadStored(id: string) returns (found: bool, a: Option<AssetRecord>)
      ensures found <==> id in ledger.state
      ensures a == if found then ReadRecord(id, ledger.state[id], setting.parse) else None
    {
      var raw := ledger.GetState(id);
      found := raw.Some?;
      a := if found then ReadRecord(id, raw.value, setting.parse) else None;
    }

    method HandleInvoke(call: Call) returns (r: Response)
      modifies ledger
      ensures (ledger.state, r) == Invoke(old(ledger.state), call, setting)
    {
      var target := TargetOf(call, setting.letters);
      if target.None? {
        return Failure(NoSuchFunction);
      }
      if target.value.GetMetadata? {
        return Success(Text(setting.metadata));
      }
      r := Run(target.value.fn, call.args, call.mspid);
    }

    /** The framework's call of a transaction function, and the function. */
    method Run(fn: Fn, args: seq<string>, mspid: Option<string>) returns (r: Response)
      modifies ledger
      ensures (ledger.state, r) == Transact(old(ledger.state), fn, args, mspid, setting.parse)
    {
      if |args| < Arity(fn) {
        return Failure(WrongArguments);
      }
      var number := if HasIntParameter(fn) then ConvertInt(args[1], setting.parse) else Some(0);
      if number.None? {
        return Failure(NotANumber(args[1]));
      }
      match fn {
        case CreateAsset =>
          var existing := ledger.GetState(args[0]);
          if existing.Some? {
            return Failure(AlreadyExists(args[0]));
          }
          WriteAsset(AssetRecord(args[0], number.value, args[2], ClientOrg(mspid)));
          r := Success(Empty);
        case ReadAsset =>
          var found, a := ReadStored(args[0]);
          r := if !found then Failure(DoesNotExist(args[0]))
               else if a.None? then Failure(StoredValueNotANumber)
               else Success(Record(ToDoc(a.value)));
        case UpdateAsset =>
          r := Update(args[0], number.value);
        case DeleteAsset =>
          var existing := ledger.GetState(args[0]);
          if existing.None? {
            return Failure(DoesNotExist(args[0]));
          }
          ledger.DeleteState(args[0]);
          r := Success(Empty);
        case TransferAsset =>
          r := Transfer(args[0], args[1], args[2]);
        case AssetExists =>
          var existing := ledger.GetState(args[0]);
          r := Success(Flag(existing.Some?));
        case InitLedger =>
          WriteAsset(AssetRecord("asset1", 100, "Tomoko", "Org1MSP"));
          WriteAsset(AssetRecord("asset2", 200, "Brad", "Org1MSP"));
          r := Success(Empty);
      }
    }

    method Update(id: string, newValue: int) returns (r: Response)
      modifies ledger
      ensures Written(id, old(ledger.state), ledger.state, r, setting.parse, (a: AssetRecord) => a.(value := newValue))
    {
      var found, read := ReadStored(id);
      if !found {
        return Failure(DoesNotExist(id));
      }
      if read.None? {
        return Failure(StoredValueNotANumber);
      }
      var asset := read.value;
      asset := asset.(value := newValue);
      WriteAsset(asset);
      r := Success(Empty);
    }

    method Transfer(id: string, newOwner: string, newOwnerOrg: string) returns (r: Response)
      modifies ledger
      ensures Written(id, old(ledger.state), ledger.state, r, setting.parse,
                      (a: AssetRecord) => a.(owner := newOwner, ownerOrg := newOwnerOrg))
    {
      var found, read := ReadStored(id);
      if !found {
        return Failure(DoesNotExist(id));
      }
      if read.None? {
        return Failure(StoredValueNotANumber);
      }
      var asset := read.value;
      asset := asset.(owner := newOwner);
      asset := asset.(ownerOrg := newOwnerOrg);
      WriteAsset(asset);
      r := Success(Empty);
    }
  }

  /** The asset read under id was changed and written under the id it carries itself. */
  ghost predicate Written(id: string, before: map<string, Doc>, after: map<string, Doc>, r: Response, parse: IntParser,
                          change: AssetRecord -> AssetRecord) {
    if id !in before then after == before && r == Failure(DoesNotExist(id))
    else
      match ReadRecord(id, before[id], parse)
      case None => after == before && r == Failure(StoredValueNotANumber)
      case Some(a) => after == before[change(a).id := ToDoc(change(a))] && r == Success(Empty)
  }
}
