/** examples/ccaas/fabric-shim/asset-transfer-sbe: the chaincode on the low-level shim. */
module SbeShim {
  import opened Wrappers
  import opened SbeAssets

  function NewDoc(id: string, value: int, owner: string, org: string): Doc {
    map["ID" := Str(id), "Value" := Int(value), "Owner" := Str(owner), "OwnerOrg" := Str(org)]
  }

  /** invoke, on the state of the ledger. The name is asked for before exceptions are caught. */
  function Invoke(state: map<string, Doc>, call: Call, parse: IntParser): (map<string, Doc>, Response) {
    if call.name.None? then (state, NoResponse)
    else
      match Named(call.name.value)
      case None => (state, Failure(NoSuchFunction))
      case Some(fn) => Transact(state, fn, call.args, call.mspid, parse)
  }

  /** The branch of one transaction. */
  function Transact(state: map<string, Doc>, fn: Fn, args: seq<string>, mspid: Option<string>, parse: IntParser)
    : (map<string, Doc>, Response)
  {
    match fn
    case CreateAsset =>
      if |args| != 3 then (state, Failure(WrongArguments))
      else if args[0] in state then (state, Failure(AlreadyExists(args[0])))
      else if parse(args[1]).None? then (state, Failure(NotANumber(args[1])))
      else (state[args[0] := NewDoc(args[0], parse(args[1]).value, args[2], ClientOrg(mspid))], Success(Empty))
    case ReadAsset =>
      if |args| != 1 then (state, Failure(WrongArguments))
      else if args[0] !in state then (state, Failure(DoesNotExist(args[0])))
      else (state, Success(Record(state[args[0]])))
    case UpdateAsset =>
      if |args| != 2 then (state, Failure(WrongArguments))
      else if args[0] !in state then (state, Failure(DoesNotExist(args[0])))
      else if parse(args[1]).None? then (state, Failure(NotANumber(args[1])))
      else (state[args[0] := state[args[0]]["Value" := Int(parse(args[1]).value)]], Success(Empty))
    case DeleteAsset =>
      if |args| != 1 then (state, Failure(WrongArguments))
      else if args[0] !in state then (state, Failure(DoesNotExist(args[0])))
      else (state - {args[0]}, Success(Empty))
    case TransferAsset =>
      if |args| != 3 then (state, Failure(WrongArguments))
      else if args[0] !in state then (state, Failure(DoesNotExist(args[0])))
      else (state[args[0] := state[args[0]]["Owner" := Str(args[1])]["OwnerOrg" := Str(args[2])]], Success(Empty))
    case AssetExists =>
      if |args| != 1 then (state, Failure(WrongArguments))
      else (state, Success(Flag(args[0] in state)))
    case InitLedger =>
      (state["asset1" := NewDoc("asset1", 100, "Tomoko", "Org1MSP")]
            ["asset2" := NewDoc("asset2", 200, "Brad", "Org1MSP")],
       Success(Empty))
  }

  /** The transactions as they run, against the ledger. */
  class Chaincode {
    const ledger: Ledger
    const parse: IntParser

    constructor (ledger: Ledger, parse: IntParser)
      ensures this.ledger == ledger && this.parse == parse
    {
      this.ledger := ledger;
      this.parse := parse;
    }

    method HandleInvoke(call: Call) returns (r: Response)
      modifies ledger
      ensures (ledger.state, r) == Invoke(old(ledger.state), call, parse)
    {
      if call.name.None? {
        return NoResponse;
      }
      var fn, args := call.name.value, call.args;
      if fn == "CreateAsset" {
        if |args| != 3 {
          return Failure(WrongArguments);
        }
        r := Create(args[0], args[1], args[2], call.mspid);
        return;
      }
      if fn == "ReadAsset" {
        if |args| != 1 {
          return Failure(WrongArguments);
        }
        r := Read(args[0]);
        return;
      }
      if fn == "UpdateAsset" {
        if |args| != 2 {
          return Failure(WrongArguments);
        }
        r := Update(args[0], args[1]);
        return;
      }
      if fn == "DeleteAsset" {
        if |args| != 1 {
          return Failure(WrongArguments);
        }
        r := Delete(args[0]);
        return;
      }
      if fn == "TransferAsset" {
        if |args| != 3 {
          return Failure(WrongArguments);
        }
        r := Transfer(args[0], args[1], args[2]);
        return;
      }
      if fn == "AssetExists" {
        if |args| != 1 {
          return Failure(WrongArguments);
        }
        var doc := ledger.GetState(args[0]);
        return Success(Flag(doc.Some?));
      }
      if fn == "InitLedger" {
        ledger.PutState("asset1", NewDoc("asset1", 100, "Tomoko", "Org1MSP"));
        ledger.PutState("asset2", NewDoc("asset2", 200, "Brad", "Org1MSP"));
        return Success(Empty);
      }
      r := Failure(NoSuchFunction);
    }

    method Read(id: string) returns (r: Response)
      ensures (ledger.state, r) == Transact(ledger.state, ReadAsset, [id], None, parse)
    {
      var doc := ledger.GetState(id);
      r := if doc.None? then Failure(DoesNotExist(id)) else Success(Record(doc.value));
    }

    method Delete(id: string) returns (r: Response)
      modifies ledger
      ensures (ledger.state, r) == Transact(old(ledger.state), DeleteAsset, [id], None, parse)
    {
      var doc := ledger.GetState(id);
      if doc.None? {
        return Failure(DoesNotExist(id));
      }
      ledger.DeleteState(id);
      r := Success(Empty);
    }

    method Create(id: string, value: string, owner: string, mspid: Option<string>) returns (r: Response)
      modifies ledger
      ensures (ledger.state, r) == Transact(old(ledger.state), CreateAsset, [id, value, owner], mspid, parse)
    {
      var existing := ledger.GetState(id);
      if existing.Some? {
        return Failure(AlreadyExists(id));
      }
      var number := parse(value);
      if number.None? {
        return Failure(NotANumber(value));
      }
      ledger.PutState(id, NewDoc(id, number.value, owner, ClientOrg(mspid)));
      r := Success(Empty);
    }

    method Update(id: string, newValue: string) returns (r: Response)
      modifies ledger
      ensures (ledger.state, r) == Transact(old(ledger.state), UpdateAsset, [id, newValue], None, parse)
    {
      var data := ledger.GetState(id);
      if data.None? {
        return Failure(DoesNotExist(id));
      }
      var asset := data.value;
      var number := parse(newValue);
      if number.None? {
        return Failure(NotANumber(newValue));
      }
      asset := asset["Value" := Int(number.value)];
      ledger.PutState(id, asset);
      r := Success(Empty);
    }

    method Transfer(id: string, newOwner: string, newOwnerOrg: string) returns (r: Response)
      modifies ledger
      ensures (ledger.state, r) == Transact(old(ledger.state), TransferAsset, [id, newOwner, newOwnerOrg], None, parse)
    {
      var data := ledger.GetState(id);
      if data.None? {
        return Failure(DoesNotExist(id));
      }
      var asset := data.value;
      asset := asset["Owner" := Str(newOwner)];
      asset := asset["OwnerOrg" := Str(newOwnerOrg)];
      ledger.PutState(id, asset);
      r := Success(Empty);
    }
  }
}
