/** The metadata records of metadata/metadata.py and their dictionary form. The compiled
    schemas, which are never written out, are not part of the records. */
module Metadata {
  import opened Wrappers

  datatype Json =
    | JBool(b: bool)
    | JStr(s: string)
    | JList(items: seq<Json>)
    | JObj(fields: Dict)

  type Dict = map<string, Json>

  datatype Contact = Contact(name: string, url: string, email: string)
  datatype License = License(name: string, url: string)
  datatype Info = Info(description: string, title: string, contact: Option<Contact>, license: Option<License>,
                       version: string, termsOfService: string)
  datatype Parameter = Parameter(description: string, name: string, schema: Option<Dict>)
  datatype Transaction = Transaction(name: string, tag: seq<string>, parameters: seq<Parameter>, result: Option<Dict>)
  datatype Contract = Contract(info: Option<Info>, name: string, transactions: seq<Transaction>, default: bool)
  datatype Chaincode = Chaincode(info: Option<Info>, contracts: map<string, Contract>, components: Dict)

  // ----- Reading a dictionary; absent and falsy values fall back to the default -----

  function GetString(d: Dict, key: string): string {
    if key in d && d[key].JStr? then d[key].s else ""
  }

  function GetList(d: Dict, key: string): seq<Json> {
    if key in d && d[key].JList? then d[key].items else []
  }

  function GetDict(d: Dict, key: string): Dict {
    if key in d && d[key].JObj? then d[key].fields else map[]
  }

  /** A value that may be missing; an empty dictionary counts as a value. */
  function GetOptional(d: Dict, key: string): Option<Dict> {
    if key in d && d[key].JObj? then Some(d[key].fields) else None
  }

  function Put(d: Dict, wanted: bool, key: string, value: Json): Dict {
    if wanted then d[key := value] else d
  }

  // ----- Contacts, licences, info blocks -----

  function ContactToDict(c: Contact): Dict {
    var d := Put(map[], c.name != "", "name", JStr(c.name));
    var d1 := Put(d, c.url != "", "url", JStr(c.url));
    Put(d1, c.email != "", "email", JStr(c.email))
  }

  function ContactFromDict(d: Dict): Contact {
    Contact(GetString(d, "name"), GetString(d, "url"), GetString(d, "email"))
  }

  function LicenseToDict(l: License): Dict {
    var d := Put(map[], l.name != "", "name", JStr(l.name));
    Put(d, l.url != "", "url", JStr(l.url))
  }

  function LicenseFromDict(d: Dict): License {
    License(GetString(d, "name"), GetString(d, "url"))
  }

  /** The first entries of an info block. */
  function InfoHead(i: Info): Dict {
    var d := Put(map[], i.description != "", "description", JStr(i.description));
    var d1 := Put(d, i.title != "", "title", JStr(i.title));
    if i.contact.None? then d1 else d1["contact" := JObj(ContactToDict(i.contact.value))]
  }

  function InfoToDict(i: Info): Dict {
    var d := InfoHead(i);
    var d1 := if i.license.None? then d else d["license" := JObj(LicenseToDict(i.license.value))];
    var d2 := Put(d1, i.version != "", "version", JStr(i.version));
    Put(d2, i.termsOfService != "", "termsOfService", JStr(i.termsOfService))
  }

  /** A contact or licence is read only from a non-empty dictionary. */
  function InfoFromDict(d: Dict): Info {
    var contact, license := GetDict(d, "contact"), GetDict(d, "license");
    Info(GetString(d, "description"), GetString(d, "title"),
         if contact != map[] then Some(ContactFromDict(contact)) else None,
         if license != map[] then Some(LicenseFromDict(license)) else None,
         GetString(d, "version"), GetString(d, "termsOfService"))
  }

  /** An info block, too, is read only from a non-empty dictionary. */
  function OptionalInfo(d: Dict): Option<Info> {
    var info := GetDict(d, "info");
    if info != map[] then Some(InfoFromDict(info)) else None
  }

  // ----- Parameters, transactions, contracts -----

  function ParameterToDict(p: Parameter): Dict {
    var d := Put(map["name" := JStr(p.name)], p.description != "", "description", JStr(p.description));
    if p.schema.Some? then d["schema" := JObj(p.schema.value)] else d
  }

  function ParameterFromDict(d: Dict): Parameter {
    Parameter(GetString(d, "description"), GetString(d, "name"), GetOptional(d, "schema"))
  }

  function DictOf(j: Json): Dict {
    if j.JObj? then j.fields else map[]
  }

  function StringOf(j: Json): string {
    if j.JStr? then j.s else ""
  }

  function Strings(ss: seq<string>): Json {
    JList(seq(|ss|, i requires 0 <= i < |ss| => JStr(ss[i])))
  }

  function ParameterList(ps: seq<Parameter>): Json {
    JList(seq(|ps|, i requires 0 <= i < |ps| => JObj(ParameterToDict(ps[i]))))
  }

  function TransactionToDict(t: Transaction): Dict {
    var d := Put(map["name" := JStr(t.name)], t.tag != [], "tag", Strings(t.tag));
    var d1 := Put(d, t.parameters != [], "parameters", ParameterList(t.parameters));
    if t.result.Some? then d1["returns" := JObj(t.result.value)] else d1
  }

  function TransactionFromDict(d: Dict): Transaction {
    var tag, parameters := GetList(d, "tag"), GetList(d, "parameters");
    Transaction(GetString(d, "name"),
                seq(|tag|, i requires 0 <= i < |tag| => StringOf(tag[i])),
                seq(|parameters|, i requires 0 <= i < |parameters| => ParameterFromDict(DictOf(parameters[i]))),
                GetOptional(d, "returns"))
  }

  function TransactionList(ts: seq<Transaction>): Json {
    JList(seq(|ts|, i requires 0 <= i < |ts| => JObj(TransactionToDict(ts[i]))))
  }

  function ContractToDict(c: Contract): Dict {
    var d: Dict := map[
      "name" := JStr(c.name),
      "transactions" := TransactionList(c.transactions),
      "default" := JBool(c.default)];
    if c.info.Some? then d["info" := JObj(InfoToDict(c.info.value))] else d
  }

  function ContractFromDict(d: Dict): Contract {
    var transactions := GetList(d, "transactions");
    Contract(OptionalInfo(d), GetString(d, "name"),
             seq(|transactions|, i requires 0 <= i < |transactions| => TransactionFromDict(DictOf(transactions[i]))),
             "default" in d && d["default"] == JBool(true))
  }

  // ----- The whole tree -----

  function ContractDicts(contracts: map<string, Contract>): Dict {
    map k | k in contracts :: JObj(ContractToDict(contracts[k]))
  }

  function TopDict(m: Chaincode): Dict {
    var d: Dict := map["contracts" := JObj(ContractDicts(m.contracts))];
    if m.info.Some? then d["info" := JObj(InfoToDict(m.info.value))] else d
  }

  function ToDict(m: Chaincode): Dict {
    var d := TopDict(m);
    if m.components != map[] then d["components" := JObj(map["schemas" := JObj(m.components)])] else d
  }

  function FromDict(d: Dict): Chaincode {
    var contracts := GetDict(d, "contracts");
    Chaincode(OptionalInfo(d),
              map k | k in contracts :: ContractFromDict(DictOf(contracts[k])),
              GetDict(GetDict(d, "components"), "schemas"))
  }

  /** Writing the metadata out and reading it back. */
  function Normalise(m: Chaincode): Chaincode {
    FromDict(ToDict(m))
  }

  // ----- What normalisation does -----

  predicate EmptyContact(c: Contact) {
    c == Contact("", "", "")
  }

  predicate EmptyLicense(l: License) {
    l == License("", "")
  }

  predicate EmptyInfo(i: Info) {
    i == Info("", "", None, None, "", "")
  }

  predicate EmptyParts(i: Info) {
    || (i.contact.Some? && EmptyContact(i.contact.value))
    || (i.license.Some? && EmptyLicense(i.license.value))
  }

  /** The same block without an empty contact or licence. */
  function Trim(i: Info): Info {
    i.(contact := if i.contact.Some? && EmptyContact(i.contact.value) then None else i.contact,
       license := if i.license.Some? && EmptyLicense(i.license.value) then None else i.license)
  }

  function TrimOptional(info: Option<Info>): Option<Info> {
    if info.None? || EmptyInfo(info.value) then None else Some(Trim(info.value))
  }

  lemma ContactRoundTrip(c: Contact)
    ensures ContactFromDict(ContactToDict(c)) == c
    ensures ContactToDict(c) == map[] <==> EmptyContact(c)
  {
    var d := ContactToDict(c);
    assert c.name != "" ==> "name" in d;
    assert c.url != "" ==> "url" in d;
    assert c.email != "" ==> "email" in d;
  }

  lemma LicenseRoundTrip(l: License)
    ensures LicenseFromDict(LicenseToDict(l)) == l
    ensures LicenseToDict(l) == map[] <==> EmptyLicense(l)
  {
    var d := LicenseToDict(l);
    assert l.name != "" ==> "name" in d;
    assert l.url != "" ==> "url" in d;
  }

  function At(d: Dict, key: string): Option<Json> {
    if key in d then Some(d[key]) else None
  }

  /** What one step of a to_dict method leaves under each key. */
  lemma AfterPut(d: Dict, wanted: bool, key: string, value: Json)
    requires key !in d
    ensures var d' := Put(d, wanted, key, value);
            && (forall k :: At(d', k) == if k != key then At(d, k) else if wanted then Some(value) else None)
            && (d' == map[] <==> d == map[] && !wanted)
  {
    if wanted {
      assert key in Put(d, wanted, key, value);
    }
  }

  /** The entries of InfoHead, for the value that it puts. */
  lemma HeadSteps(i: Info, contact: Json)
    requires i.contact.Some? ==> contact == JObj(ContactToDict(i.contact.value))
    ensures var d := InfoHead(i);
            && At(d, "description") == (if i.description != "" then Some(JStr(i.description)) else None)
            && At(d, "title") == (if i.title != "" then Some(JStr(i.title)) else None)
            && At(d, "contact") == (if i.contact.Some? then Some(contact) else None)
            && At(d, "license") == None && At(d, "version") == None && At(d, "termsOfService") == None
            && (d == map[] <==> i.description == "" && i.title == "" && i.contact.None?)
  {
    var d0 := Put(map[], i.description != "", "description", JStr(i.description));
    var d1 := Put(d0, i.title != "", "title", JStr(i.title));
    AfterPut(map[], i.description != "", "description", JStr(i.description));
    assert At(d0, "title") == None;
    AfterPut(d0, i.title != "", "title", JStr(i.title));
    assert At(d1, "contact") == None;
    AfterPut(d1, i.contact.Some?, "contact", contact);
    assert InfoHead(i) == Put(d1, i.contact.Some?, "contact", contact);
  }

  /** The steps of InfoToDict after the first entries. */
  lemma TailSteps(i: Info, license: Json, d: Dict)
    requires i.license.Some? ==> license == JObj(LicenseToDict(i.license.value))
    requires d == InfoHead(i) && At(d, "license") == None && At(d, "version") == None && At(d, "termsOfService") == None
    ensures var d' := InfoToDict(i);
            && At(d', "license") == (if i.license.Some? then Some(license) else None)
            && At(d', "version") == (if i.version != "" then Some(JStr(i.version)) else None)
            && At(d', "termsOfService") == (if i.termsOfService != "" then Some(JStr(i.termsOfService)) else None)
            && (forall k | k !in {"license", "version", "termsOfService"} :: At(d', k) == At(d, k))
            && (d' == map[] <==> d == map[] && i.license.None? && i.version == "" && i.termsOfService == "")
  {
    var d1 := Put(d, i.license.Some?, "license", license);
    var d2 := Put(d1, i.version != "", "version", JStr(i.version));
    AfterPut(d, i.license.Some?, "license", license);
    assert At(d1, "version") == None;
    AfterPut(d1, i.version != "", "version", JStr(i.version));
    assert At(d2, "termsOfService") == None;
    AfterPut(d2, i.termsOfService != "", "termsOfService", JStr(i.termsOfService));
    assert InfoToDict(i) == Put(d2, i.termsOfService != "", "termsOfService", JStr(i.termsOfService));
  }

  lemma InfoLookups(i: Info)
    ensures var d := InfoToDict(i);
            && GetString(d, "description") == i.description && GetString(d, "title") == i.title
            && GetString(d, "version") == i.version && GetString(d, "termsOfService") == i.termsOfService
            && GetDict(d, "contact") == (if i.contact.Some? then ContactToDict(i.contact.value) else map[])
            && GetDict(d, "license") == (if i.license.Some? then LicenseToDict(i.license.value) else map[])
            && (d == map[] <==> EmptyInfo(i))
  {
    var contact := if i.contact.Some? then JObj(ContactToDict(i.contact.value)) else JObj(map[]);
    var license := if i.license.Some? then JObj(LicenseToDict(i.license.value)) else JObj(map[]);
    HeadSteps(i, contact);
    TailSteps(i, license, InfoHead(i));
  }

  lemma InfoRoundTrip(i: Info)
    ensures InfoFromDict(InfoToDict(i)) == Trim(i)
    ensures InfoToDict(i) == map[] <==> EmptyInfo(i)
  {
    if i.contact.Some? {
      ContactRoundTrip(i.contact.value);
    }
    if i.license.Some? {
      LicenseRoundTrip(i.license.value);
    }
    InfoLookups(i);
  }

  lemma ParameterRoundTrip(p: Parameter)
    ensures ParameterFromDict(ParameterToDict(p)) == p
  {
  }

  lemma TransactionRoundTrip(t: Transaction)
    ensures TransactionFromDict(TransactionToDict(t)) == t
  {
    forall p | p in t.parameters ensures ParameterFromDict(ParameterToDict(p)) == p {
      ParameterRoundTrip(p);
    }
  }

  lemma ContractRoundTrip(c: Contract)
    ensures ContractFromDict(ContractToDict(c)) == c.(info := TrimOptional(c.info))
  {
    if c.info.Some? {
      InfoRoundTrip(c.info.value);
    }
    forall t | t in c.transactions ensures TransactionFromDict(TransactionToDict(t)) == t {
      TransactionRoundTrip(t);
    }
  }

  function TrimContract(c: Contract): Contract {
    c.(info := TrimOptional(c.info))
  }

  function TrimAll(m: Chaincode): Chaincode {
    Chaincode(TrimOptional(m.info), map k | k in m.contracts :: TrimContract(m.contracts[k]), m.components)
  }

  lemma TreeLookups(m: Chaincode)
    ensures var d := ToDict(m);
            && GetDict(d, "contracts") == ContractDicts(m.contracts)
            && GetDict(d, "info") == (if m.info.Some? then InfoToDict(m.info.value) else map[])
            && GetDict(GetDict(d, "components"), "schemas") == m.components
  {
  }

  /** Writing out and reading back changes nothing but the info blocks: an empty one is
      dropped, and otherwise an empty contact or licence is. */
  lemma NormaliseTrims(m: Chaincode)
    ensures Normalise(m) == TrimAll(m)
  {
    TreeLookups(m);
    if m.info.Some? {
      InfoRoundTrip(m.info.value);
    }
    forall k | k in m.contracts
      ensures ContractFromDict(ContractToDict(m.contracts[k])) == TrimContract(m.contracts[k])
    {
      ContractRoundTrip(m.contracts[k]);
    }
    assert Normalise(m).contracts == TrimAll(m).contracts;
  }

  // ----- What the dictionaries hold -----

  /** An entry that is left out when it is empty. */
  function NonEmpty(s: string): Option<Json> {
    if s != "" then Some(JStr(s)) else None
  }

  lemma ContactEntries(c: Contact)
    ensures var d := ContactToDict(c);
            && d.Keys <= {"name", "url", "email"}
            && At(d, "name") == NonEmpty(c.name) && At(d, "url") == NonEmpty(c.url)
            && At(d, "email") == NonEmpty(c.email)
  {
  }

  lemma LicenseEntries(l: License)
    ensures var d := LicenseToDict(l);
            d.Keys <= {"name", "url"} && At(d, "name") == NonEmpty(l.name) && At(d, "url") == NonEmpty(l.url)
  {
  }

  /** An info block is written under these keys and no others, empty texts and missing blocks left
      out. */
  lemma InfoEntries(i: Info)
    ensures var d := InfoToDict(i);
            && At(d, "description") == NonEmpty(i.description) && At(d, "title") == NonEmpty(i.title)
            && At(d, "version") == NonEmpty(i.version) && At(d, "termsOfService") == NonEmpty(i.termsOfService)
            && At(d, "contact") == (if i.contact.Some? then Some(JObj(ContactToDict(i.contact.value))) else None)
            && At(d, "license") == (if i.license.Some? then Some(JObj(LicenseToDict(i.license.value))) else None)
            && d.Keys <= {"description", "title", "contact", "license", "version", "termsOfService"}
  {
    var contact := if i.contact.Some? then JObj(ContactToDict(i.contact.value)) else JObj(map[]);
    var license := if i.license.Some? then JObj(LicenseToDict(i.license.value)) else JObj(map[]);
    HeadSteps(i, contact);
    TailSteps(i, license, InfoHead(i));
    assert InfoHead(i).Keys <= {"description", "title", "contact"};
    assert forall k | k in InfoToDict(i) :: At(InfoToDict(i), k) != None;
  }

  lemma ParameterEntries(p: Parameter)
    ensures var d := ParameterToDict(p);
            && At(d, "name") == Some(JStr(p.name)) && At(d, "description") == NonEmpty(p.description)
            && At(d, "schema") == (if p.schema.Some? then Some(JObj(p.schema.value)) else None)
            && d.Keys <= {"name", "description", "schema"}
  {
  }

  lemma TransactionEntries(t: Transaction)
    ensures var d := TransactionToDict(t);
            && At(d, "name") == Some(JStr(t.name))
            && At(d, "returns") == (if t.result.Some? then Some(JObj(t.result.value)) else None)
            && d.Keys <= {"name", "tag", "parameters", "returns"}
            && ("tag" in d <==> t.tag != []) && ("parameters" in d <==> t.parameters != [])
            && (t.tag != [] ==> d["tag"].JList? && |d["tag"].items| == |t.tag|
                                && forall i | 0 <= i < |t.tag| :: d["tag"].items[i] == JStr(t.tag[i]))
            && (t.parameters != [] ==>
                  && d["parameters"].JList? && |d["parameters"].items| == |t.parameters|
                  && forall i | 0 <= i < |t.parameters| ::
                       d["parameters"].items[i] == JObj(ParameterToDict(t.parameters[i])))
  {
  }

  lemma ContractEntries(c: Contract)
    ensures var d := ContractToDict(c);
            && At(d, "name") == Some(JStr(c.name)) && At(d, "default") == Some(JBool(c.default))
            && At(d, "info") == (if c.info.Some? then Some(JObj(InfoToDict(c.info.value))) else None)
            && d.Keys <= {"name", "transactions", "default", "info"}
            && "transactions" in d && d["transactions"].JList? && |d["transactions"].items| == |c.transactions|
            && forall i | 0 <= i < |c.transactions| ::
                 d["transactions"].items[i] == JObj(TransactionToDict(c.transactions[i]))
  {
  }

  lemma ChaincodeEntries(m: Chaincode)
    ensures var d := ToDict(m);
            && d.Keys <= {"info", "contracts", "components"}
            && At(d, "info") == (if m.info.Some? then Some(JObj(InfoToDict(m.info.value))) else None)
            && At(d, "components") == (if m.components == map[] then None
                                       else Some(JObj(map["schemas" := JObj(m.components)])))
            && "contracts" in d && d["contracts"].JObj? && d["contracts"].fields.Keys == m.contracts.Keys
            && forall k | k in m.contracts :: d["contracts"].fields[k] == JObj(ContractToDict(m.contracts[k]))
  {
  }

  /** What is read where nothing is written. */
  lemma NothingWritten()
    ensures ContactFromDict(map[]) == Contact("", "", "") && LicenseFromDict(map[]) == License("", "")
    ensures InfoFromDict(map[]) == Info("", "", None, None, "", "")
    ensures ParameterFromDict(map[]) == Parameter("", "", None)
    ensures TransactionFromDict(map[]) == Transaction("", [], [], None)
    ensures ContractFromDict(map[]) == Contract(None, "", [], false)
    ensures FromDict(map[]) == Chaincode(None, map[], map[])
  {
  }

  // ----- The to_dict methods as they run: a local dictionary, filled entry by entry -----

  method WriteContact(c: Contact) returns (d: Dict)
    ensures d == ContactToDict(c)
    ensures ContactFromDict(d) == c && (d == map[] <==> EmptyContact(c))
  {
    d := map[];
    if c.name != "" {
      d := d["name" := JStr(c.name)];
    }
    if c.url != "" {
      d := d["url" := JStr(c.url)];
    }
    if c.email != "" {
      d := d["email" := JStr(c.email)];
    }
    ContactRoundTrip(c);
  }

  method WriteLicense(l: License) returns (d: Dict)
    ensures d == LicenseToDict(l)
    ensures LicenseFromDict(d) == l && (d == map[] <==> EmptyLicense(l))
  {
    d := map[];
    if l.name != "" {
      d := d["name" := JStr(l.name)];
    }
    if l.url != "" {
      d := d["url" := JStr(l.url)];
    }
    LicenseRoundTrip(l);
  }

  /** What is written reads back as the block without an empty contact or licence. */
  method WriteInfo(i: Info) returns (d: Dict)
    ensures d == InfoToDict(i)
    ensures InfoFromDict(d) == Trim(i) && (d == map[] <==> EmptyInfo(i))
  {
    d := map[];
    if i.description != "" {
      d := d["description" := JStr(i.description)];
    }
    if i.title != "" {
      d := d["title" := JStr(i.title)];
    }
    if i.contact.Some? {
      var contact := WriteContact(i.contact.value);
      d := d["contact" := JObj(contact)];
    }
    if i.license.Some? {
      var license := WriteLicense(i.license.value);
      d := d["license" := JObj(license)];
    }
    if i.version != "" {
      d := d["version" := JStr(i.version)];
    }
    if i.termsOfService != "" {
      d := d["termsOfService" := JStr(i.termsOfService)];
    }
    InfoRoundTrip(i);
  }

  method WriteParameter(p: Parameter) returns (d: Dict)
    ensures d == ParameterToDict(p)
    ensures ParameterFromDict(d) == p
  {
    d := map["name" := JStr(p.name)];
    if p.description != "" {
      d := d["description" := JStr(p.description)];
    }
    if p.schema.Some? {
      d := d["schema" := JObj(p.schema.value)];
    }
    ParameterRoundTrip(p);
  }

  method WriteTransaction(t: Transaction) returns (d: Dict)
    ensures d == TransactionToDict(t)
    ensures TransactionFromDict(d) == t
  {
    d := map["name" := JStr(t.name)];
    if t.tag != [] {
      d := d["tag" := Strings(t.tag)];
    }
    if t.parameters != [] {
      d := d["parameters" := ParameterList(t.parameters)];
    }
    if t.result.Some? {
      d := d["returns" := JObj(t.result.value)];
    }
    TransactionRoundTrip(t);
  }

  method WriteContract(c: Contract) returns (d: Dict)
    ensures d == ContractToDict(c)
    ensures ContractFromDict(d) == TrimContract(c)
  {
    d := map[
      "name" := JStr(c.name),
      "transactions" := TransactionList(c.transactions),
      "default" := JBool(c.default)];
    if c.info.Some? {
      var info := WriteInfo(c.info.value);
      d := d["info" := JObj(info)];
    }
    ContractRoundTrip(c);
  }

  method WriteChaincode(m: Chaincode) returns (d: Dict)
    ensures d == ToDict(m)
    ensures FromDict(d) == TrimAll(m)
  {
    d := map["contracts" := JObj(map[])];
    if m.info.Some? {
      var info := WriteInfo(m.info.value);
      d := d["info" := JObj(info)];
    }
    d := d["contracts" := JObj(ContractDicts(m.contracts))];
    assert d == TopDict(m);
    if m.components != map[] {
      d := d["components" := JObj(map["schemas" := JObj(m.components)])];
    }
    NormaliseTrims(m);
  }

  // ----- The normal form -----

  /** Some info block of the metadata satisfies p. */
  ghost predicate AnyInfo(m: Chaincode, p: Info -> bool) {
    || (m.info.Some? && p(m.info.value))
    || (exists k | k in m.contracts :: m.contracts[k].info.Some? && p(m.contracts[k].info.value))
  }

  /** An empty info block, or one with an empty contact or licence. */
  predicate HasEmpty(i: Info) {
    EmptyInfo(i) || EmptyParts(i)
  }

  /** An info block that holds nothing but an empty contact or an empty licence, or both. */
  predicate Hollow(i: Info) {
    !EmptyInfo(i) && EmptyInfo(Trim(i))
  }

  lemma TrimIsIdentityExactlyWhen(m: Chaincode)
    ensures TrimAll(m) == m <==>
            TrimOptional(m.info) == m.info &&
            forall k | k in m.contracts :: TrimContract(m.contracts[k]) == m.contracts[k]
  {
    if TrimAll(m) == m {
      forall k | k in m.contracts ensures TrimContract(m.contracts[k]) == m.contracts[k] {
        assert TrimAll(m).contracts[k] == TrimContract(m.contracts[k]);
      }
    } else if TrimOptional(m.info) == m.info {
      assert TrimAll(m).contracts != m.contracts;
    }
  }

  lemma TrimIsIdentityExactlyWithoutEmpty(m: Chaincode)
    ensures TrimAll(m) == m <==> !AnyInfo(m, HasEmpty)
  {
    TrimIsIdentityExactlyWhen(m);
  }

  lemma TrimTwiceIsStable(m: Chaincode)
    ensures TrimAll(TrimAll(TrimAll(m))) == TrimAll(TrimAll(m))
  {
    TrimIsIdentityExactlyWhen(TrimAll(TrimAll(m)));
  }

  lemma TrimOnceIsStableExactlyWhen(m: Chaincode)
    ensures TrimAll(TrimAll(m)) == TrimAll(m) <==> !AnyInfo(m, Hollow)
  {
    TrimIsIdentityExactlyWhen(TrimAll(m));
    assert forall k | k in m.contracts :: TrimAll(m).contracts[k] == TrimContract(m.contracts[k]);
  }

  /** Normalisation is the identity exactly on metadata without empty info, contact and licence
      blocks. */
  lemma UnchangedExactlyWhenNothingEmpty(m: Chaincode)
    ensures Normalise(m) == m <==> !AnyInfo(m, HasEmpty)
  {
    NormaliseTrims(m);
    TrimIsIdentityExactlyWithoutEmpty(m);
  }

  /** Twice is enough: after two rounds nothing changes any more. */
  lemma StableAfterTwo(m: Chaincode)
    ensures Normalise(Normalise(Normalise(m))) == Normalise(Normalise(m))
  {
    NormaliseTrims(m);
    NormaliseTrims(TrimAll(m));
    NormaliseTrims(TrimAll(TrimAll(m)));
    TrimTwiceIsStable(m);
  }

  /** Once is enough exactly when no info block is hollow: such a block loses its contact and
      licence in the first round and, empty by then, is dropped in the second. */
  lemma StableAfterOneExactlyWhen(m: Chaincode)
    ensures Normalise(Normalise(m)) == Normalise(m) <==> !AnyInfo(m, Hollow)
  {
    NormaliseTrims(m);
    NormaliseTrims(TrimAll(m));
    TrimOnceIsStableExactlyWhen(m);
  }

  /** What registration makes of the info block of a contract or of the chaincode. */
  function FillInfo(info: Option<Info>, title: string): Info {
    var i := if info.Some? then info.value else Info("", "", None, None, "", "");
    i.(version := if i.version == "" then "latest" else i.version, title := if i.title == "" then title else i.title)
  }

  /** The reflected metadata, from the info blocks that contracts and chaincode declare. */
  function Reflected(m: Chaincode): Chaincode {
    Chaincode(if m.info.None? then None else Some(FillInfo(m.info, "undefined")),
              map k | k in m.contracts :: m.contracts[k].(name := k, info := Some(FillInfo(m.contracts[k].info, k))),
              m.components)
  }

  /** Reflection keeps everything that is declared; it only fills in a missing title, with the name
      of the contract, and a missing version. */
  lemma ReflectionKeepsDeclarations(m: Chaincode, k: string)
    requires k in m.contracts
    ensures var c, r := m.contracts[k], Reflected(m);
            var declared := if c.info.Some? then c.info.value else Info("", "", None, None, "", "");
            && r.contracts.Keys == m.contracts.Keys && r.components == m.components
            && r.contracts[k].name == k && r.contracts[k].info.Some?
            && r.contracts[k].transactions == c.transactions && r.contracts[k].default == c.default
            && (var i := r.contracts[k].info.value;
                && i.description == declared.description && i.contact == declared.contact
                && i.license == declared.license && i.termsOfService == declared.termsOfService
                && (declared.title != "" ==> i.title == declared.title) && (declared.title == "" ==> i.title == k)
                && (declared.version != "" ==> i.version == declared.version)
                && (declared.version == "" ==> i.version == "latest"))
    ensures var r := Reflected(m).info;
            && (m.info.None? ==> r.None?)
            && (m.info.Some? ==>
                  && r.Some?
                  && (m.info.value.title != "" && m.info.value.version != "" ==> r == m.info)
                  && (m.info.value.title == "" ==> r.value.title == "undefined")
                  && (m.info.value.version == "" ==> r.value.version == "latest"))
  {
  }

  lemma FilledIsNotHollow(info: Option<Info>, title: string)
    ensures !Hollow(FillInfo(info, title))
  {
  }

  /** Registration fills in versions, so reflected metadata is in normal form after one round,
      whatever the contracts declare. */
  lemma ReflectedIsStable(m: Chaincode)
    ensures Normalise(Normalise(Reflected(m))) == Normalise(Reflected(m))
  {
    var r := Reflected(m);
    FilledIsNotHollow(m.info, "undefined");
    forall k | k in r.contracts ensures !Hollow(r.contracts[k].info.value) {
      FilledIsNotHollow(m.contracts[k].info, k);
    }
    assert !AnyInfo(r, Hollow);
    StableAfterOneExactlyWhen(r);
  }
}
