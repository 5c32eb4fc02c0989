/** What single calls of the two asset-transfer-sbe versions store and return, field by field. */
module SbeDetails {
  import opened Wrappers
  import opened SbeAssets
  import SbeShim
  import SbeContract
  import Dispatch
  import SbeBisimulation

  // ----- A new asset -----

  /** The shim version creates an asset exactly when the name and the number of arguments are
      right, the number is one and the id is free; the asset belongs to the organisation of its
      creator, or else to Org1MSP. */
  lemma ShimCreates(state: map<string, Doc>, call: Call, parse: IntParser)
    requires call.name == Some("CreateAsset")
    ensures var (state', r) := SbeShim.Invoke(state, call, parse);
            if |call.args| == 3 && call.args[0] !in state && parse(call.args[1]).Some? then
              var id := call.args[0];
              && r == Success(Empty) && state'.Keys == state.Keys + {id}
              && (forall k | k in state :: state'[k] == state[k])
              && state'[id].Keys == {"ID", "Value", "Owner", "OwnerOrg"}
              && state'[id]["ID"] == Str(id) && state'[id]["Value"] == Int(parse(call.args[1]).value)
              && state'[id]["Owner"] == Str(call.args[2])
              && (call.mspid.Some? && call.mspid.value != "" ==> state'[id]["OwnerOrg"] == Str(call.mspid.value))
              && (call.mspid.None? || call.mspid.value == "" ==> state'[id]["OwnerOrg"] == Str("Org1MSP"))
            else r.Failure? && state' == state
  {
    assert Named("CreateAsset") == Some(CreateAsset) by {
      assert NameOf(CreateAsset) == "CreateAsset";
    }
  }

  lemma Served(state: map<string, Doc>, call: Call, fn: Fn, g: SbeContract.Setting)
    requires SbeContract.TargetOf(call, g.letters) == Some(SbeContract.Transaction(fn))
    ensures SbeContract.Invoke(state, call, g) == SbeContract.Transact(state, fn, call.args, call.mspid, g.parse)
  {
  }

  /** The number that a text stands for in the contract version. */
  predicate Means(text: string, n: int, parse: IntParser) {
    if text == "" then n == 0 else parse(text) == Some(n)
  }

  /** The new asset under id, in the fields of the contract version. */
  ghost predicate NewAsset(d: Doc, id: string, number: string, owner: string, mspid: Option<string>, parse: IntParser) {
    && d.Keys == {"id", "value", "owner", "owner_org"}
    && d["id"] == Str(id) && d["owner"] == Str(owner)
    && d["value"].Int? && Means(number, d["value"].n, parse)
    && (mspid.Some? && mspid.value != "" ==> d["owner_org"] == Str(mspid.value))
    && (mspid.None? || mspid.value == "" ==> d["owner_org"] == Str("Org1MSP"))
  }

  ghost predicate Created(state: map<string, Doc>, call: Call, parse: IntParser, result: (map<string, Doc>, Response)) {
    var (state', r) := result;
    if |call.args| >= 3 && call.args[0] !in state && (exists n :: Means(call.args[1], n, parse)) then
      && r == Success(Empty) && call.args[0] in state' && state' == state[call.args[0] := state'[call.args[0]]]
      && NewAsset(state'[call.args[0]], call.args[0], call.args[1], call.args[2], call.mspid, parse)
    else r.Failure? && state' == state
  }

  lemma StoredAssetIsNew(id: string, number: string, owner: string, mspid: Option<string>, parse: IntParser)
    requires SbeContract.ConvertInt(number, parse).Some?
    ensures NewAsset(SbeContract.ToDoc(SbeContract.AssetRecord(id, SbeContract.ConvertInt(number, parse).value, owner,
                                                               ClientOrg(mspid))),
                     id, number, owner, mspid, parse)
  {
  }

  lemma TransactCreates(state: map<string, Doc>, call: Call, parse: IntParser)
    ensures Created(state, call, parse, SbeContract.Transact(state, CreateAsset, call.args, call.mspid, parse))
  {
    if |call.args| >= 3 {
      var number := call.args[1];
      assert forall n :: Means(number, n, parse) <==> SbeContract.ConvertInt(number, parse) == Some(n);
      if SbeContract.ConvertInt(number, parse).Some? {
        assert Means(number, SbeContract.ConvertInt(number, parse).value, parse);
        StoredAssetIsNew(call.args[0], number, call.args[2], call.mspid, parse);
      }
    }
  }

  /** So does the contract version, under any of the names that it accepts; further arguments are
      ignored and an empty number is zero. */
  lemma ContractCreates(state: map<string, Doc>, call: Call, g: SbeContract.Setting)
    requires SbeContract.TargetOf(call, g.letters) == Some(SbeContract.Transaction(CreateAsset))
    ensures Created(state, call, g.parse, SbeContract.Invoke(state, call, g))
  {
    Served(state, call, CreateAsset, g);
    TransactCreates(state, call, g.parse);
  }

  // ----- A changed asset -----

  ghost predicate Updated(state: map<string, Doc>, args: seq<string>, parse: IntParser, state': map<string, Doc>) {
    && |args| >= 2 && args[0] in state && SbeContract.ReadRecord(args[0], state[args[0]], parse).Some?
    && (var a := SbeContract.ReadRecord(args[0], state[args[0]], parse).value;
        exists n :: Means(args[1], n, parse) && state' == state[a.id := ChangedValue(a, n)])
  }

  function ChangedValue(a: SbeContract.AssetRecord, n: int): Doc {
    map["id" := Str(a.id), "value" := Int(n), "owner" := Str(a.owner), "owner_org" := Str(a.ownerOrg)]
  }

  lemma TransactUpdates(state: map<string, Doc>, call: Call, parse: IntParser)
    requires SbeContract.Transact(state, UpdateAsset, call.args, call.mspid, parse).1.Success?
    ensures Updated(state, call.args, parse, SbeContract.Transact(state, UpdateAsset, call.args, call.mspid, parse).0)
  {
    var a := SbeContract.ReadRecord(call.args[0], state[call.args[0]], parse).value;
    var n := SbeContract.ConvertInt(call.args[1], parse).value;
    assert Means(call.args[1], n, parse);
    assert SbeContract.ToDoc(a.(value := n)) == ChangedValue(a, n);
  }

  /** The contract version stores the number that an update carries, under the id of the asset that
      it has read; nothing else changes. */
  lemma ContractUpdates(state: map<string, Doc>, call: Call, g: SbeContract.Setting)
    requires SbeContract.TargetOf(call, g.letters) == Some(SbeContract.Transaction(UpdateAsset))
    requires SbeContract.Invoke(state, call, g).1.Success?
    ensures Updated(state, call.args, g.parse, SbeContract.Invoke(state, call, g).0)
  {
    Served(state, call, UpdateAsset, g);
    TransactUpdates(state, call, g.parse);
  }

  ghost predicate Transferred(state: map<string, Doc>, args: seq<string>, parse: IntParser, state': map<string, Doc>) {
    && |args| >= 3 && args[0] in state && SbeContract.ReadRecord(args[0], state[args[0]], parse).Some?
    && (var a := SbeContract.ReadRecord(args[0], state[args[0]], parse).value;
        state' == state[a.id := map["id" := Str(a.id), "value" := Int(a.value),
                                    "owner" := Str(args[1]), "owner_org" := Str(args[2])]])
  }

  lemma TransactTransfers(state: map<string, Doc>, call: Call, parse: IntParser)
    requires SbeContract.Transact(state, TransferAsset, call.args, call.mspid, parse).1.Success?
    ensures Transferred(state, call.args, parse,
                        SbeContract.Transact(state, TransferAsset, call.args, call.mspid, parse).0)
  {
  }

  /** A transfer changes owner and organisation, likewise under the id of the asset. */
  lemma ContractTransfers(state: map<string, Doc>, call: Call, g: SbeContract.Setting)
    requires SbeContract.TargetOf(call, g.letters) == Some(SbeContract.Transaction(TransferAsset))
    requires SbeContract.Invoke(state, call, g).1.Success?
    ensures Transferred(state, call.args, g.parse, SbeContract.Invoke(state, call, g).0)
  {
    Served(state, call, TransferAsset, g);
    TransactTransfers(state, call, g.parse);
  }

  // ----- Errors -----

  /** The error of the shim version: the number of arguments, then the ledger, then the number. */
  lemma ShimFailsWith(state: map<string, Doc>, fn: Fn, args: seq<string>, mspid: Option<string>, parse: IntParser,
                      e: Error)
    requires SbeShim.Transact(state, fn, args, mspid, parse).1 == Failure(e)
    ensures SbeShim.Transact(state, fn, args, mspid, parse).0 == state
    ensures match e
            case WrongArguments => fn != InitLedger && |args| != SbeContract.Arity(fn)
            case AlreadyExists(id) => fn == CreateAsset && |args| == 3 && id == args[0] && id in state
            case DoesNotExist(id) =>
              && (fn == ReadAsset || fn == UpdateAsset || fn == DeleteAsset || fn == TransferAsset)
              && |args| == SbeContract.Arity(fn) && id == args[0] && id !in state
            case NotANumber(text) =>
              && (fn == CreateAsset || fn == UpdateAsset) && |args| == SbeContract.Arity(fn)
              && text == args[1] && parse(text).None? && (args[0] in state <==> fn == UpdateAsset)
            case _ => false
  {
  }

  /** The error of the contract version: the number of arguments, then the number, then the
      ledger. */
  lemma ContractFailsWith(state: map<string, Doc>, fn: Fn, args: seq<string>, mspid: Option<string>, parse: IntParser,
                          e: Error)
    requires SbeContract.Transact(state, fn, args, mspid, parse).1 == Failure(e)
    ensures SbeContract.Transact(state, fn, args, mspid, parse).0 == state
    ensures match e
            case WrongArguments => |args| < SbeContract.Arity(fn)
            case NotANumber(text) =>
              && (fn == CreateAsset || fn == UpdateAsset) && |args| >= SbeContract.Arity(fn)
              && text == args[1] && text != "" && parse(text).None?
            case AlreadyExists(id) =>
              && fn == CreateAsset && |args| >= 3 && id == args[0] && id in state
              && (args[1] == "" || parse(args[1]).Some?)
            case DoesNotExist(id) =>
              && fn != CreateAsset && fn != AssetExists && |args| >= SbeContract.Arity(fn) > 0
              && id == args[0] && id !in state && (fn == UpdateAsset ==> args[1] == "" || parse(args[1]).Some?)
            case StoredValueNotANumber =>
              && (fn == ReadAsset || fn == UpdateAsset || fn == TransferAsset) && |args| >= SbeContract.Arity(fn)
              && args[0] in state && SbeContract.ReadRecord(args[0], state[args[0]], parse).None?
            case _ => false
  {
  }

  // ----- Documents that other code has stored -----

  /** What the contract version reads of any document: missing fields count as the key, as zero and
      as empty texts, an empty or missing number as zero. */
  lemma ContractReadsAnything(key: string, d: Doc, parse: IntParser)
    ensures var r := SbeContract.ReadRecord(key, d, parse);
            && (r.None? <==> "value" in d && d["value"].Str? && d["value"].s != "" && parse(d["value"].s).None?)
            && (r.Some? ==>
                  && ("id" !in d ==> r.value.id == key)
                  && ("id" in d && d["id"].Str? ==> r.value.id == d["id"].s)
                  && ("owner" !in d ==> r.value.owner == "")
                  && ("owner" in d && d["owner"].Str? ==> r.value.owner == d["owner"].s)
                  && ("owner_org" !in d ==> r.value.ownerOrg == "")
                  && ("owner_org" in d && d["owner_org"].Str? ==> r.value.ownerOrg == d["owner_org"].s)
                  && ("value" !in d ==> r.value.value == 0)
                  && ("value" in d && d["value"].Int? ==> r.value.value == d["value"].n)
                  && ("value" in d && d["value"].Str? && d["value"].s == "" ==> r.value.value == 0)
                  && ("value" in d && d["value"].Str? && d["value"].s != "" ==>
                      Some(r.value.value) == parse(d["value"].s)))
  {
  }

  /** The number that a text of decimal digits denotes. */
  function Number(s: string): int {
    if s == "" then 0 else 10 * Number(s[..|s| - 1]) + (s[|s| - 1] as int - '0' as int)
  }

  predicate AllDigits(s: string) {
    forall i | 0 <= i < |s| :: '0' <= s[i] <= '9'
  }

  lemma OneMoreDigit(front: string, d: char)
    requires AllDigits(front) && '0' <= d <= '9'
    ensures AllDigits(front + [d]) && Number(front + [d]) == 10 * Number(front) + (d as int - '0' as int)
  {
    assert (front + [d])[..|front|] == front;
  }

  /** A number in place of a text is read as its decimal digits. */
  lemma {:induction false} DigitsDenote(n: nat)
    ensures SbeContract.Digits(n) != "" && AllDigits(SbeContract.Digits(n)) && Number(SbeContract.Digits(n)) == n
  {
    var d := "0123456789"[n % 10];
    assert '0' <= d <= '9' && d as int - '0' as int == n % 10;
    if n < 10 {
      OneMoreDigit("", d);
      assert SbeContract.Digits(n) == "" + [d];
    } else {
      DigitsDenote(n / 10);
      OneMoreDigit(SbeContract.Digits(n / 10), d);
    }
  }

  lemma TextOfNumber(n: int)
    ensures SbeContract.AsString(Int(n)) == (if n < 0 then "-" else "") + SbeContract.Digits(if n < 0 then -n else n)
  {
  }

  // ----- The system contract -----

  lemma MetadataRoute()
    ensures Dispatch.Route("org.hyperledger.fabric:get_metadata", SbeContract.CONTRACT_NAME)
            == ("org.hyperledger.fabric", "get_metadata")
  {
    var name, ns, fn := "org.hyperledger.fabric:get_metadata", "org.hyperledger.fabric", "get_metadata";
    assert name == ns + ":" + fn;
    assert ':' !in fn;
    Dispatch.RoutesToDefault(name, ns, fn);
    RouteDoesNotDepend(name, ns, SbeContract.CONTRACT_NAME);
  }

  lemma MetadataName(letters: Dispatch.Letters)
    ensures SbeContract.Resolve("org.hyperledger.fabric:get_metadata", letters) == Some(SbeContract.GetMetadata)
  {
    MetadataRoute();
  }

  /** The metadata of the chaincode comes with the name of the system contract in front, with any
      arguments, and changes nothing. */
  lemma MetadataCall(state: map<string, Doc>, args: seq<string>, mspid: Option<string>, g: SbeContract.Setting)
    ensures SbeContract.Invoke(state, Call(Some("org.hyperledger.fabric:get_metadata"), args, mspid), g)
            == (state, Success(Text(g.metadata)))
  {
    MetadataName(g.letters);
  }

  /** A name with a colon in it does not go to the default contract by default. */
  lemma RouteDoesNotDepend(name: string, a: string, b: string)
    requires ':' in name
    ensures Dispatch.Route(name, a) == Dispatch.Route(name, b)
  {
  }

  /** The name of the contract may stand in front. */
  lemma QualifiedNameRuns(fn: Fn, letters: Dispatch.Letters)
    ensures SbeContract.Resolve("AssetTransferSBE:" + NameOf(fn), letters) == Some(SbeContract.Transaction(fn))
  {
    var name := "AssetTransferSBE:" + NameOf(fn);
    assert name == "AssetTransferSBE" + ":" + NameOf(fn);
    SbeBisimulation.PlainName(fn);
    assert Named(NameOf(fn)) == Some(fn);
    assert SbeBisimulation.Spells(NameOf(fn), fn, letters);
    SbeBisimulation.NamesThatRun(name, fn, letters);
  }

  /** A name without its capital letter runs the transaction in the contract version. */
  lemma SmallLetterRuns(letters: Dispatch.Letters)
    requires letters.isUpper('C') && !letters.isUpper('c') && letters.upper('c') == "C"
    ensures SbeContract.Resolve("createAsset", letters) == Some(SbeContract.Transaction(CreateAsset))
    ensures Named("createAsset") == None
  {
    assert "createAsset" == ['c'] + "CreateAsset"[1..];
    Dispatch.CapitalForm("CreateAsset", 'c', letters);
    assert ':' !in "createAsset";
    assert NameOf(CreateAsset) == "CreateAsset";
    forall f ensures NameOf(f) != "createAsset" {
      assert NameOf(f)[0] != 'c';
    }
    assert "createAsset" !in SbeContract.FUNCTIONS && "CreateAsset" in SbeContract.FUNCTIONS;
  }
}
