/** What the two asset-transfer-sbe chaincodes share: the ledger, the calls and, as the
    reference for both, a plain map from asset ids to assets. */
module SbeAssets {
  import opened Wrappers

  datatype Json = Str(s: string) | Int(n: int)

  /** A stored JSON object. */
  type Doc = map<string, Json>

  /** The world state of the chaincode; an absent key reads as empty bytes. */
  class Ledger {
    var state: map<string, Doc>

    constructor ()
      ensures state == map[]
    {
      state := map[];
    }

    method GetState(key: string) returns (doc: Option<Doc>)
      ensures doc == Lookup(state, key)
    {
      doc := if key in state then Some(state[key]) else None;
    }

    method PutState(key: string, doc: Doc)
      modifies this
      ensures state == old(state)[key := doc]
    {
      state := state[key := doc];
    }

    method DeleteState(key: string)
      modifies this
      ensures state == old(state) - {key}
    {
      state := state - {key};
    }
  }

  function Lookup(state: map<string, Doc>, key: string): Option<Doc> {
    if key in state then Some(state[key]) else None
  }

  datatype Fn = CreateAsset | ReadAsset | UpdateAsset | DeleteAsset | TransferAsset | AssetExists | InitLedger

  function NameOf(fn: Fn): string {
    match fn
    case CreateAsset => "CreateAsset"
    case ReadAsset => "ReadAsset"
    case UpdateAsset => "UpdateAsset"
    case DeleteAsset => "DeleteAsset"
    case TransferAsset => "TransferAsset"
    case AssetExists => "AssetExists"
    case InitLedger => "InitLedger"
  }

  /** The transaction with exactly this name. */
  function Named(name: string): (fn: Option<Fn>)
    ensures forall f :: fn == Some(f) <==> NameOf(f) == name
  {
    if name == "CreateAsset" then Some(CreateAsset)
    else if name == "ReadAsset" then Some(ReadAsset)
    else if name == "UpdateAsset" then Some(UpdateAsset)
    else if name == "DeleteAsset" then Some(DeleteAsset)
    else if name == "TransferAsset" then Some(TransferAsset)
    else if name == "AssetExists" then Some(AssetExists)
    else if name == "InitLedger" then Some(InitLedger)
    else None
  }

  /** A call: the name that the client gave, its further arguments and the msp id of its
      creator. There is no name when the stub cannot tell one: without any argument, or with
      one that does not decode. */
  datatype Call = Call(name: Option<string>, args: seq<string>, mspid: Option<string>)

  datatype Error =
    | NoSuchFunction
    | WrongArguments
    | NotANumber(text: string)
    | StoredValueNotANumber
    | AlreadyExists(id: string)
    | DoesNotExist(id: string)

  datatype Payload = Empty | Flag(b: bool) | Record(doc: Doc) | Text(s: string)

  /** NoResponse: an exception leaves invoke, and the peer gets no answer. */
  datatype Response = Success(payload: Payload) | Failure(error: Error) | NoResponse

  /** Python's int on a decimal string. */
  type IntParser = string -> Option<int>

  function ClientOrg(mspid: Option<string>): string {
    if mspid.Some? && mspid.value != "" then mspid.value else "Org1MSP"
  }

  // ----- The reference: a map from asset ids to assets -----

  datatype Asset = Asset(value: int, owner: string, org: string)

  type Assets = map<string, Asset>

  datatype Op =
    | Create(id: string, asset: Asset)
    | Read(id: string)
    | Update(id: string, value: int)
    | Delete(id: string)
    | Transfer(id: string, owner: string, org: string)
    | Exists(id: string)
    | Init
    | Describe

  datatype Reply =
    | Done
    | Found(id: string, asset: Asset)
    | Present(b: bool)
    | Described
    | Duplicate(id: string)
    | Missing(id: string)

  predicate Accepted(r: Reply) {
    !r.Duplicate? && !r.Missing?
  }

  function Apply(m: Assets, op: Op): (Assets, Reply) {
    match op
    case Create(id, asset) => if id in m then (m, Duplicate(id)) else (m[id := asset], Done)
    case Read(id) => (m, if id in m then Found(id, m[id]) else Missing(id))
    case Update(id, value) => if id in m then (m[id := m[id].(value := value)], Done) else (m, Missing(id))
    case Delete(id) => if id in m then (m - {id}, Done) else (m, Missing(id))
    case Transfer(id, owner, org) =>
      if id in m then (m[id := m[id].(owner := owner, org := org)], Done) else (m, Missing(id))
    case Exists(id) => (m, Present(id in m))
    case Describe => (m, Described)
    case Init =>
      (m["asset1" := Asset(100, "Tomoko", "Org1MSP")]["asset2" := Asset(200, "Brad", "Org1MSP")], Done)
  }
}
