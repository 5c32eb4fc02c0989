/** The two asset-transfer-sbe chaincodes compared, call by call and over whole runs. */
module SbeBisimulation {
  import opened Wrappers
  import opened SbeAssets
  import SbeShim
  import SbeContract
  import Dispatch
  import Strings

  // ----- Ledgers that represent a map of assets -----

  function ShimDoc(id: string, a: Asset): Doc {
    SbeShim.NewDoc(id, a.value, a.owner, a.org)
  }

  function ContractDoc(id: string, a: Asset): Doc {
    SbeContract.ToDoc(SbeContract.AssetRecord(id, a.value, a.owner, a.org))
  }

  /** Each asset under its own id, in the field names of the shim version. */
  function ShimLedger(m: Assets): map<string, Doc> {
    map id | id in m :: ShimDoc(id, m[id])
  }

  function ContractLedger(m: Assets): map<string, Doc> {
    map id | id in m :: ContractDoc(id, m[id])
  }

  /** ID, Value, Owner, OwnerOrg become id, value, owner, owner_org. */
  function Renamed(d: Doc): Doc
    requires d.Keys == {"ID", "Value", "Owner", "OwnerOrg"}
  {
    map["id" := d["ID"], "value" := d["Value"], "owner" := d["Owner"], "owner_org" := d["OwnerOrg"]]
  }

  ghost predicate SameLedger(shim: map<string, Doc>, contract: map<string, Doc>) {
    && shim.Keys == contract.Keys
    && (forall k | k in shim :: shim[k].Keys == {"ID", "Value", "Owner", "OwnerOrg"} && contract[k] == Renamed(shim[k]))
  }

  /** Both succeed with the same payload up to the renaming, or both answer with a failure. */
  ghost predicate SameOutcome(shim: Response, contract: Response) {
    match (shim, contract)
    case (Success(Record(d)), Success(Record(e))) => d.Keys == {"ID", "Value", "Owner", "OwnerOrg"} && e == Renamed(d)
    case (Success(p), Success(p')) => p == p'
    case (Failure(_), Failure(_)) => true
    case _ => false
  }

  lemma SameAssetsSameLedger(m: Assets)
    ensures SameLedger(ShimLedger(m), ContractLedger(m))
  {
    forall id | id in m
      ensures ShimLedger(m)[id].Keys == {"ID", "Value", "Owner", "OwnerOrg"}
      ensures ContractLedger(m)[id] == Renamed(ShimLedger(m)[id])
    {
      RenamedDoc(id, m[id]);
    }
  }

  lemma RenamedDoc(id: string, a: Asset)
    ensures ShimDoc(id, a).Keys == {"ID", "Value", "Owner", "OwnerOrg"}
    ensures ContractDoc(id, a) == Renamed(ShimDoc(id, a))
  {
  }

  // ----- What a call means to each version -----

  /** The operation that the arguments denote, given how a number is read. */
  function Meaning(fn: Fn, args: seq<string>, mspid: Option<string>, number: string -> Option<int>): Option<Op>
    requires |args| >= SbeContract.Arity(fn)
  {
    match fn
    case CreateAsset =>
      var n := number(args[1]);
      if n.None? then None else Some(Create(args[0], Asset(n.value, args[2], ClientOrg(mspid))))
    case ReadAsset => Some(Read(args[0]))
    case UpdateAsset => var n := number(args[1]); if n.None? then None else Some(Update(args[0], n.value))
    case DeleteAsset => Some(Delete(args[0]))
    case TransferAsset => Some(Transfer(args[0], args[1], args[2]))
    case AssetExists => Some(Exists(args[0]))
    case InitLedger => Some(Init)
  }

  /** The shim version wants the exact name and the exact number of arguments, except that it
      does not count those of InitLedger. */
  function ShimMeaning(call: Call, parse: IntParser): Option<Op> {
    if call.name.None? then None
    else
      match Named(call.name.value)
      case None => None
      case Some(fn) => ShimTransaction(fn, call, parse)
  }

  function ShimTransaction(fn: Fn, call: Call, parse: IntParser): Option<Op> {
    if |call.args| != SbeContract.Arity(fn) && fn != InitLedger then None else Meaning(fn, call.args, call.mspid, parse)
  }

  /** The contract version resolves the name, ignores further arguments and reads the empty
      string as zero. */
  function ContractMeaning(call: Call, g: SbeContract.Setting): Option<Op> {
    TargetMeaning(SbeContract.TargetOf(call, g.letters), call, g.parse)
  }

  function TargetMeaning(target: Option<SbeContract.Target>, call: Call, parse: IntParser): Option<Op> {
    match target
    case None => None
    case Some(GetMetadata) => Some(Describe)
    case Some(Transaction(fn)) => ContractTransaction(fn, call, parse)
  }

  function ContractTransaction(fn: Fn, call: Call, parse: IntParser): Option<Op> {
    if |call.args| < SbeContract.Arity(fn) then None
    else Meaning(fn, call.args, call.mspid, s => SbeContract.ConvertInt(s, parse))
  }

  function Answer(reply: Reply, doc: (string, Asset) -> Doc, metadata: string): Response {
    match reply
    case Done => Success(Empty)
    case Found(id, asset) => Success(Record(doc(id, asset)))
    case Present(b) => Success(Flag(b))
    case Described => Success(Text(metadata))
    case Duplicate(id) => Failure(AlreadyExists(id))
    case Missing(id) => Failure(DoesNotExist(id))
  }

  lemma ShimWrites(m: Assets, id: string, a: Asset)
    ensures ShimLedger(m)[id := ShimDoc(id, a)] == ShimLedger(m[id := a])
    ensures ShimLedger(m) - {id} == ShimLedger(m - {id})
  {
  }

  lemma ContractWrites(m: Assets, id: string, a: Asset)
    ensures ContractLedger(m)[id := ContractDoc(id, a)] == ContractLedger(m[id := a])
    ensures ContractLedger(m) - {id} == ContractLedger(m - {id})
  {
  }

  /** Reading back a stored asset yields it, with the id it is stored under. */
  lemma ContractReads(id: string, a: Asset, parse: IntParser)
    ensures SbeContract.ReadRecord(id, ContractDoc(id, a), parse) ==
            Some(SbeContract.AssetRecord(id, a.value, a.owner, a.org))
  {
  }

  /** Changing fields of a stored object in place, as the shim version does. */
  lemma ShimEdits(id: string, a: Asset, value: int, owner: string, org: string)
    ensures ShimDoc(id, a)["Value" := Int(value)] == ShimDoc(id, a.(value := value))
    ensures ShimDoc(id, a)["Owner" := Str(owner)]["OwnerOrg" := Str(org)] == ShimDoc(id, a.(owner := owner, org := org))
  {
  }

  /** What comes of an operation on the assets m, or of a call without meaning, which does not
      succeed and changes nothing. */
  ghost predicate ShimPerforms(m: Assets, op: Option<Op>, result: (map<string, Doc>, Response)) {
    match op
    case None => result.0 == ShimLedger(m) && !result.1.Success?
    case Some(op) => result.0 == ShimLedger(Apply(m, op).0) && result.1 == Answer(Apply(m, op).1, ShimDoc, "")
  }

  ghost predicate ContractPerforms(m: Assets, op: Option<Op>, result: (map<string, Doc>, Response), metadata: string) {
    match op
    case None => result.0 == ContractLedger(m) && result.1.Failure?
    case Some(op) =>
      result.0 == ContractLedger(Apply(m, op).0) && result.1 == Answer(Apply(m, op).1, ContractDoc, metadata)
  }

  /** The shim version refines the map of assets. */
  lemma ShimRefinesMap(m: Assets, call: Call, parse: IntParser)
    ensures ShimPerforms(m, ShimMeaning(call, parse), SbeShim.Invoke(ShimLedger(m), call, parse))
    ensures SbeShim.Invoke(ShimLedger(m), call, parse).1.NoResponse? <==> call.name.None?
    ensures ShimMeaning(call, parse) != Some(Describe)
  {
    if call.name.Some? && Named(call.name.value).Some? {
      ShimTransactionRefinesMap(m, Named(call.name.value).value, call, parse);
    }
  }

  lemma ShimTransactionRefinesMap(m: Assets, fn: Fn, call: Call, parse: IntParser)
    ensures var r := SbeShim.Transact(ShimLedger(m), fn, call.args, call.mspid, parse);
            ShimPerforms(m, ShimTransaction(fn, call, parse), r) && !r.1.NoResponse?
    ensures ShimTransaction(fn, call, parse) != Some(Describe)
  {
    var op := ShimTransaction(fn, call, parse);
    if op.Some? {
      match fn
      case CreateAsset => ShimWrites(m, op.value.id, op.value.asset);
      case UpdateAsset => ShimUpdates(m, op.value.id, op.value.value);
      case DeleteAsset => ShimWrites(m, op.value.id, Asset(0, "", ""));
      case TransferAsset => ShimTransfers(m, op.value.id, op.value.owner, op.value.org);
      case InitLedger => ShimSeeds(m);
      case _ =>
    }
  }

  lemma ShimUpdates(m: Assets, id: string, value: int)
    ensures id in m ==>
              ShimLedger(m)[id := ShimLedger(m)[id]["Value" := Int(value)]] == ShimLedger(Apply(m, Update(id, value)).0)
  {
    if id in m {
      ShimEdits(id, m[id], value, "", "");
      ShimWrites(m, id, m[id].(value := value));
    }
  }

  lemma ShimTransfers(m: Assets, id: string, owner: string, org: string)
    ensures id in m ==>
              ShimLedger(m)[id := ShimLedger(m)[id]["Owner" := Str(owner)]["OwnerOrg" := Str(org)]]
              == ShimLedger(Apply(m, Transfer(id, owner, org)).0)
  {
    if id in m {
      ShimEdits(id, m[id], 0, owner, org);
      ShimWrites(m, id, m[id].(owner := owner, org := org));
    }
  }

  lemma ShimSeeds(m: Assets)
    ensures ShimLedger(m)["asset1" := SbeShim.NewDoc("asset1", 100, "Tomoko", "Org1MSP")]
                         ["asset2" := SbeShim.NewDoc("asset2", 200, "Brad", "Org1MSP")] == ShimLedger(Apply(m, Init).0)
  {
    ShimWrites(m, "asset1", Asset(100, "Tomoko", "Org1MSP"));
    ShimWrites(m["asset1" := Asset(100, "Tomoko", "Org1MSP")], "asset2", Asset(200, "Brad", "Org1MSP"));
  }

  /** So does the contract version. */
  lemma ContractRefinesMap(m: Assets, call: Call, g: SbeContract.Setting)
    ensures ContractPerforms(m, ContractMeaning(call, g), SbeContract.Invoke(ContractLedger(m), call, g), g.metadata)
  {
    TargetRefinesMap(m, SbeContract.TargetOf(call, g.letters), call, g);
  }

  lemma TargetRefinesMap(m: Assets, target: Option<SbeContract.Target>, call: Call, g: SbeContract.Setting)
    ensures ContractPerforms(m, TargetMeaning(target, call, g.parse),
                             SbeContract.Serve(ContractLedger(m), target, call, g), g.metadata)
  {
    if target.Some? && target.value.Transaction? {
      ContractTransactionRefinesMap(m, target.value.fn, call, g);
    }
  }

  lemma ContractTransactionRefinesMap(m: Assets, fn: Fn, call: Call, g: SbeContract.Setting)
    ensures ContractPerforms(m, ContractTransaction(fn, call, g.parse),
                             SbeContract.Transact(ContractLedger(m), fn, call.args, call.mspid, g.parse), g.metadata)
  {
    if fn == ReadAsset || fn == UpdateAsset || fn == TransferAsset {
      ContractReadingRefinesMap(m, fn, call, g);
    } else {
      ContractOtherRefinesMap(m, fn, call, g);
    }
  }

  /** The transactions that read an asset, and those of them that write it back. */
  lemma ContractReadingRefinesMap(m: Assets, fn: Fn, call: Call, g: SbeContract.Setting)
    requires fn == ReadAsset || fn == UpdateAsset || fn == TransferAsset
    ensures ContractPerforms(m, ContractTransaction(fn, call, g.parse),
                             SbeContract.Transact(ContractLedger(m), fn, call.args, call.mspid, g.parse), g.metadata)
  {
    var op := ContractTransaction(fn, call, g.parse);
    if op.Some? && op.value.id in m {
      var id := op.value.id;
      ContractReads(id, m[id], g.parse);
      match fn
      case UpdateAsset => ContractWrites(m, id, m[id].(value := op.value.value));
      case TransferAsset => ContractWrites(m, id, m[id].(owner := op.value.owner, org := op.value.org));
      case _ =>
    }
  }

  lemma ContractOtherRefinesMap(m: Assets, fn: Fn, call: Call, g: SbeContract.Setting)
    requires fn == CreateAsset || fn == DeleteAsset || fn == AssetExists || fn == InitLedger
    ensures ContractPerforms(m, ContractTransaction(fn, call, g.parse),
                             SbeContract.Transact(ContractLedger(m), fn, call.args, call.mspid, g.parse), g.metadata)
  {
    var op := ContractTransaction(fn, call, g.parse);
    if op.Some? {
      match fn
      case CreateAsset => ContractWrites(m, op.value.id, op.value.asset);
      case DeleteAsset => ContractWrites(m, op.value.id, Asset(0, "", ""));
      case InitLedger => ContractSeeds(m);
      case _ =>
    }
  }

  lemma ContractSeeds(m: Assets)
    ensures ContractLedger(m)
              ["asset1" := SbeContract.ToDoc(SbeContract.AssetRecord("asset1", 100, "Tomoko", "Org1MSP"))]
                             ["asset2" := SbeContract.ToDoc(SbeContract.AssetRecord("asset2", 200, "Brad", "Org1MSP"))]
            == ContractLedger(Apply(m, Init).0)
  {
    ContractWrites(m, "asset1", Asset(100, "Tomoko", "Org1MSP"));
    ContractWrites(m["asset1" := Asset(100, "Tomoko", "Org1MSP")], "asset2", Asset(200, "Brad", "Org1MSP"));
  }

  // ----- Names -----

  /** One of the spellings of a transaction name: the name itself or, unless that is the name of
      another transaction, a form that the capitalisation of its first letter turns into it. */
  predicate Spells(form: string, fn: Fn, letters: Dispatch.Letters) {
    form == NameOf(fn) || (Named(form).None? && form != "" && Dispatch.FirstUpper(form, letters) == NameOf(fn))
  }

  lemma RegisteredNames(name: string)
    ensures name in SbeContract.FUNCTIONS <==> Named(name).Some?
    ensures Named(name).Some? ==> ':' !in name && name != ""
  {
    if fn :| Named(name) == Some(fn) {
      PlainName(fn);
      assert NameOf(fn) == name;
    }
  }

  lemma PlainName(fn: Fn)
    ensures ':' !in NameOf(fn) && NameOf(fn) != "" && 'A' <= NameOf(fn)[0] <= 'Z'
  {
  }

  lemma FormThatRuns(form: string, fn: Fn, letters: Dispatch.Letters)
    ensures var called := Dispatch.CalledName(SbeContract.FUNCTIONS, form, letters);
            form != "" && called.Some? && Named(called.value) == Some(fn) <==> Spells(form, fn, letters)
  {
    RegisteredNames(form);
    RegisteredNames(Dispatch.FirstUpper(form, letters));
  }

  /** The contract version runs a transaction exactly under its spellings, alone or after the
      name of the contract and a colon; the shim version only under its exact name. */
  lemma NamesThatRun(name: string, fn: Fn, letters: Dispatch.Letters)
    ensures SbeContract.Resolve(name, letters) == Some(SbeContract.Transaction(fn)) <==>
            exists form :: ':' !in form &&
              (name == form || name == SbeContract.CONTRACT_NAME + ":" + form) && Spells(form, fn, letters)
  {
    var default := SbeContract.CONTRACT_NAME;
    var (ns, form) := Dispatch.Route(name, default);
    FormThatRuns(form, fn, letters);
    Dispatch.RoutesToDefault(name, default, form);
    assert SbeContract.Resolve(name, letters) == Some(SbeContract.Transaction(fn)) <==>
           ns == default && Spells(form, fn, letters);
    forall other | ':' !in other && (name == other || name == default + ":" + other)
      ensures ns == default && form == other
    {
      Dispatch.RoutesToDefault(name, default, other);
    }
  }

  /** The check of the number of parameter descriptions, which SbeContract leaves out, never
      fails here: the names begin with capital letters, so none is shadowed. */
  lemma EntriesFit(entries: seq<Dispatch.TransactionEntry>, form: string, letters: Dispatch.Letters,
                   params: seq<string>,
                   convert: Dispatch.Converter)
    requires Dispatch.Reflects(SbeContract.FUNCTIONS, entries) && forall c | 'A' <= c <= 'Z' :: letters.isUpper(c)
    requires Dispatch.CalledName(SbeContract.FUNCTIONS, form, letters).Some?
    ensures var f := SbeContract.FUNCTIONS[Dispatch.CalledName(SbeContract.FUNCTIONS, form, letters).value];
            var entry := Dispatch.FirstMatch(entries, form, Dispatch.FirstUpper(form, letters));
            Dispatch.Formatted(f, entry, params, convert) != Err(Dispatch.MetadataCount)
  {
    Dispatch.CountErrorExactlyWhenShadowed(SbeContract.FUNCTIONS, entries, form, letters, params, convert);
    RegisteredNames(form);
    if fn :| Named(form) == Some(fn) {
      PlainName(fn);
    }
    if Dispatch.FirstUpper(form, letters) == form {
      Strings.LessIsTotal(form, form);
    }
  }

  // ----- One call -----

  /** The exact name, the exact number of arguments, and no empty string where a number is
      wanted. */
  predicate Strict(call: Call) {
    && call.name.Some? && Named(call.name.value).Some?
    && (var fn := Named(call.name.value).value;
        || fn == InitLedger
        || (|call.args| == SbeContract.Arity(fn) && (SbeContract.HasIntParameter(fn) ==> call.args[1] != "")))
  }

  /** A call that only the contract version lets pass: under another name, with too many
      arguments or with an empty number, where the assets allow the operation. */
  predicate OnlyContractAccepts(m: Assets, call: Call, g: SbeContract.Setting) {
    var op := ContractMeaning(call, g);
    !Strict(call) && op.Some? && Accepted(Apply(m, op.value).1)
  }

  /** The call has a name and is not one that, on these assets, only the contract version
      accepts. */
  predicate Fine(m: Assets, call: Call, g: SbeContract.Setting) {
    call.name.Some? && !OnlyContractAccepts(m, call, g)
  }

  lemma ExactNamesResolve(fn: Fn, letters: Dispatch.Letters)
    ensures SbeContract.Resolve(NameOf(fn), letters) == Some(SbeContract.Transaction(fn))
  {
    RegisteredNames(NameOf(fn));
    assert Named(NameOf(fn)) == Some(fn);
    assert Spells(NameOf(fn), fn, letters);
    NamesThatRun(NameOf(fn), fn, letters);
  }

  lemma SameTransaction(fn: Fn, call: Call, parse: IntParser)
    requires parse("") == None && call.name.Some? && Named(call.name.value) == Some(fn)
    ensures Strict(call) ==> ShimTransaction(fn, call, parse) == ContractTransaction(fn, call, parse)
    ensures !Strict(call) ==> ShimTransaction(fn, call, parse) == None
  {
  }

  lemma StrictCallsMeanTheSame(call: Call, g: SbeContract.Setting)
    requires g.parse("") == None
    ensures Strict(call) ==> ShimMeaning(call, g.parse) == ContractMeaning(call, g)
    ensures !Strict(call) ==> ShimMeaning(call, g.parse) == None
  {
    if call.name.Some? && Named(call.name.value).Some? {
      var fn := Named(call.name.value).value;
      SameTransaction(fn, call, g.parse);
      ExactNamesResolve(fn, g.letters);
      assert NameOf(fn) == call.name.value;
    }
  }

  lemma AnswersCorrespond(reply: Reply, metadata: string)
    ensures !reply.Described? ==> SameOutcome(Answer(reply, ShimDoc, ""), Answer(reply, ContractDoc, metadata))
    ensures Answer(reply, ContractDoc, metadata).Failure? <==> !Accepted(reply)
    ensures !Answer(reply, ContractDoc, metadata).NoResponse?
  {
    if reply.Found? {
      RenamedDoc(reply.id, reply.asset);
    }
  }

  ghost predicate Agree(shim: (map<string, Doc>, Response), contract: (map<string, Doc>, Response)) {
    SameOutcome(shim.1, contract.1) && SameLedger(shim.0, contract.0)
  }

  lemma SameReplyAgrees(m: Assets, reply: Reply, metadata: string)
    requires !reply.Described?
    ensures Agree((ShimLedger(m), Answer(reply, ShimDoc, "")),
                  (ContractLedger(m), Answer(reply, ContractDoc, metadata)))
  {
    SameAssetsSameLedger(m);
    AnswersCorrespond(reply, metadata);
  }

  lemma SameMeaningAgrees(m: Assets, op: Option<Op>, shim: (map<string, Doc>, Response),
                          contract: (map<string, Doc>, Response),
                          metadata: string)
    requires op != Some(Describe) && !shim.1.NoResponse?
    requires ShimPerforms(m, op, shim) && ContractPerforms(m, op, contract, metadata)
    ensures Agree(shim, contract)
  {
    if op.None? {
      SameAssetsSameLedger(m);
    } else {
      assert !Apply(m, op.value).1.Described?;
      SameReplyAgrees(Apply(m, op.value).0, Apply(m, op.value).1, metadata);
    }
  }

  /** The shim version refuses a call that the contract version takes for an operation. */
  lemma RefusedOperation(m: Assets, reply: Reply, m': Assets, shim: Response, metadata: string)
    requires !shim.Success? && (!Accepted(reply) ==> m' == m)
    ensures Agree((ShimLedger(m), shim), (ContractLedger(m'), Answer(reply, ContractDoc, metadata)))
            <==> shim.Failure? && !Accepted(reply)
  {
    SameAssetsSameLedger(m);
    AnswersCorrespond(reply, metadata);
  }

  lemma RefusedByShim(m: Assets, op: Option<Op>, shim: (map<string, Doc>, Response),
                      contract: (map<string, Doc>, Response),
                      metadata: string)
    requires ShimPerforms(m, None, shim) && ContractPerforms(m, op, contract, metadata)
    ensures Agree(shim, contract) <==> shim.1.Failure? && (op.None? || !Accepted(Apply(m, op.value).1))
  {
    if op.None? {
      SameAssetsSameLedger(m);
    } else {
      RefusedChangesNothing(m, op);
      RefusedOperation(m, Apply(m, op.value).1, Apply(m, op.value).0, shim.1, metadata);
    }
  }

  /** On corresponding ledgers the two versions agree on a call, in outcome, payload and ledger,
      exactly when the call is fine: it has a name, and is not one that only the contract version
      accepts. */
  lemma VersionsAgreeExactlyWhen(m: Assets, call: Call, g: SbeContract.Setting)
    requires g.parse("") == None
    ensures Agree(SbeShim.Invoke(ShimLedger(m), call, g.parse), SbeContract.Invoke(ContractLedger(m), call, g))
            <==> Fine(m, call, g)
  {
    StrictCallsMeanTheSame(call, g);
    ShimRefinesMap(m, call, g.parse);
    ContractRefinesMap(m, call, g);
    var shim := SbeShim.Invoke(ShimLedger(m), call, g.parse);
    var contract := SbeContract.Invoke(ContractLedger(m), call, g);
    if Strict(call) {
      SameMeaningAgrees(m, ContractMeaning(call, g), shim, contract, g.metadata);
    } else {
      RefusedByShim(m, ContractMeaning(call, g), shim, contract, g.metadata);
    }
  }

  // ----- Whole runs from the empty ledger -----

  function ShimRun(calls: seq<Call>, parse: IntParser): (r: (map<string, Doc>, seq<Response>))
    ensures |r.1| == |calls|
  {
    if calls == [] then (map[], [])
    else
      var (state, answers) := ShimRun(calls[..|calls| - 1], parse);
      var (state', answer) := SbeShim.Invoke(state, calls[|calls| - 1], parse);
      (state', answers + [answer])
  }

  function ContractRun(calls: seq<Call>, g: SbeContract.Setting): (r: (map<string, Doc>, seq<Response>))
    ensures |r.1| == |calls|
  {
    if calls == [] then (map[], [])
    else
      var (state, answers) := ContractRun(calls[..|calls| - 1], g);
      var (state', answer) := SbeContract.Invoke(state, calls[|calls| - 1], g);
      (state', answers + [answer])
  }

  /** The run of the reference: a plain map, and the replies of its operations. */
  function MapRun(calls: seq<Call>, g: SbeContract.Setting): (r: (Assets, seq<Option<Reply>>))
    ensures |r.1| == |calls|
  {
    if calls == [] then (map[], [])
    else
      var (m, replies) := MapRun(calls[..|calls| - 1], g);
      match ContractMeaning(calls[|calls| - 1], g)
      case None => (m, replies + [None])
      case Some(op) =>
        var (m', reply) := Apply(m, op);
        (m', replies + [Some(reply)])
  }

  /** Every run of the contract version, whatever the calls, is a run of the plain map: call by
      call the same replies, and in the end each asset under its own id. */
  lemma {:induction false} ContractRunRefinesMap(calls: seq<Call>, g: SbeContract.Setting)
    ensures var (state, answers) := ContractRun(calls, g);
            var (m, replies) := MapRun(calls, g);
            && state == ContractLedger(m)
            && (forall i | 0 <= i < |calls| ::
                  match replies[i]
                  case None => answers[i].Failure?
                  case Some(reply) => answers[i] == Answer(reply, ContractDoc, g.metadata))
  {
    if calls == [] {
      assert ContractLedger(map[]) == map[];
    } else {
      var before := calls[..|calls| - 1];
      ContractRunRefinesMap(before, g);
      ContractRefinesMap(MapRun(before, g).0, calls[|calls| - 1], g);
    }
  }

  /** So the asset stored under a key always carries that key as its id. */
  lemma StoredUnderItsId(calls: seq<Call>, g: SbeContract.Setting)
    ensures var state := ContractRun(calls, g).0;
            forall k | k in state :: "id" in state[k] && state[k]["id"] == Str(k)
  {
    ContractRunRefinesMap(calls, g);
  }

  /** Were an asset stored under a key that is not its id, an update of that key would write
      another one. */
  lemma MisplacedAssetIsWrittenElsewhere(key: string, id: string, a: Asset, value: string, parse: IntParser)
    requires key != id && parse(value).Some? && value != ""
    ensures var state := map[key := ContractDoc(id, a)];
            var (state', r) := SbeContract.Transact(state, UpdateAsset, [key, value], None, parse);
            r == Success(Empty) && id in state' && state'[key] == state[key]
  {
    ContractReads(id, a, parse);
  }

  /** The versions agree on every call of the run, each on the ledger that the calls before have
      left in its own version. */
  ghost predicate RunsAgree(calls: seq<Call>, g: SbeContract.Setting) {
    calls != [] ==>
      var before, call := calls[..|calls| - 1], calls[|calls| - 1];
      && RunsAgree(before, g)
      && Agree(SbeShim.Invoke(ShimRun(before, g.parse).0, call, g.parse),
               SbeContract.Invoke(ContractRun(before, g).0, call, g))
  }

  /** Every call of the run is fine on the assets it finds. */
  ghost predicate Unproblematic(calls: seq<Call>, g: SbeContract.Setting) {
    calls != [] ==>
      var before, call := calls[..|calls| - 1], calls[|calls| - 1];
      Unproblematic(before, g) && Fine(MapRun(before, g).0, call, g)
  }

  /** In a run without problematic calls the ledger of the shim version, too, represents the
      assets. */
  lemma {:induction false} ShimRunFollowsMap(calls: seq<Call>, g: SbeContract.Setting)
    requires g.parse("") == None && Unproblematic(calls, g)
    ensures ShimRun(calls, g.parse).0 == ShimLedger(MapRun(calls, g).0)
  {
    if calls == [] {
      assert ShimLedger(map[]) == map[];
    } else {
      var before, call := calls[..|calls| - 1], calls[|calls| - 1];
      ShimRunFollowsMap(before, g);
      StrictCallsMeanTheSame(call, g);
      ShimRefinesMap(MapRun(before, g).0, call, g.parse);
      RefusedChangesNothing(MapRun(before, g).0, ContractMeaning(call, g));
    }
  }

  lemma RefusedChangesNothing(m: Assets, op: Option<Op>)
    ensures op.Some? && !Accepted(Apply(m, op.value).1) ==> Apply(m, op.value).0 == m
  {
  }

  /** Over a whole run the two versions agree on every call if and only if no call is
      problematic. */
  lemma {:induction false} RunsAgreeExactlyWhen(calls: seq<Call>, g: SbeContract.Setting)
    requires g.parse("") == None
    ensures RunsAgree(calls, g) <==> Unproblematic(calls, g)
  {
    if calls == [] {
    } else {
      var before, call := calls[..|calls| - 1], calls[|calls| - 1];
      RunsAgreeExactlyWhen(before, g);
      if Unproblematic(before, g) {
        ShimRunFollowsMap(before, g);
        ContractRunRefinesMap(before, g);
        VersionsAgreeExactlyWhen(MapRun(before, g).0, call, g);
      }
    }
  }

  /** Bisimulation: over every run without problematic calls, in particular over every run of
      strict calls, both versions succeed and fail on the same calls, with corresponding
      payloads, and end with corresponding ledgers. */
  lemma {:induction false} Bisimulation(calls: seq<Call>, g: SbeContract.Setting)
    requires g.parse("") == None && Unproblematic(calls, g)
    ensures var (s1, r1) := ShimRun(calls, g.parse);
            var (s2, r2) := ContractRun(calls, g);
            && s1 == ShimLedger(MapRun(calls, g).0)
            && SameLedger(s1, s2)
            && (forall i | 0 <= i < |calls| :: SameOutcome(r1[i], r2[i]))
  {
    ShimRunFollowsMap(calls, g);
    ContractRunRefinesMap(calls, g);
    SameAssetsSameLedger(MapRun(calls, g).0);
    if calls == [] {
    } else {
      var before := calls[..|calls| - 1];
      Bisimulation(before, g);
      ContractRunRefinesMap(before, g);
      VersionsAgreeExactlyWhen(MapRun(before, g).0, calls[|calls| - 1], g);
    }
  }

  lemma {:induction false} StrictIsUnproblematic(calls: seq<Call>, g: SbeContract.Setting)
    requires forall c | c in calls :: Strict(c)
    ensures Unproblematic(calls, g)
  {
    if calls == [] {
    } else {
      assert calls[|calls| - 1] in calls;
      StrictIsUnproblematic(calls[..|calls| - 1], g);
    }
  }
}
