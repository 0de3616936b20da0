/**
 The Subscription Master (registry) contract wrapper: the on-chain metadata cell
 the registry is deployed with, its opcode table and the body of its `init`
 message.

 The metadata follows the on-chain content layout of TEP-64 (TON Token Data
 Standard, "Content representation"): a leading 0 byte, then a dictionary keyed by
 the SHA-256 of the field name whose values are a 0 byte ("snake data") followed by
 a reference to a chain of cells holding the text.
 */
module SubscriptionMaster {
  import opened Ton

  // ---------------------------------------------------------------------------
  // Snake strings

  /** Characters stored inline per snake cell: 127 * 8 = 1016 bits, below a cell's 1023. */
  const SnakeChunk: nat := 127

  /** The text stored inline by the string fields of a cell, in order. */
  function InlineText(fields: seq<Field>): string {
    if fields == [] then ""
    else (if fields[0].StrTail? then fields[0].text else "") + InlineText(fields[1..])
  }

  /** Reads a snake chain back: the inline text of each cell, following the first reference. */
  function SnakeText(c: Cell): string {
    InlineText(c.fields) + if c.refs == [] then "" else SnakeText(c.refs[0])
  }

  /** The cells of a snake chain, from `c` along first references. */
  function Chain(c: Cell): (cs: seq<Cell>)
    ensures |cs| >= 1 && cs[0] == c
  {
    [c] + if c.refs == [] then [] else Chain(c.refs[0])
  }

  /** One link of a snake chain: a single inline string that fits a cell, at most one reference. */
  predicate IsSnakeCell(c: Cell) {
    |c.fields| == 1 && c.fields[0].StrTail? && |c.fields[0].text| <= SnakeChunk && |c.refs| <= 1
  }

  /** max(1, ceil(n / 127)): the number of cells a string of length n needs. */
  function SnakeCellCount(n: nat): nat {
    if n == 0 then 1 else (n + SnakeChunk - 1) / SnakeChunk
  }

  /** `toSnakeFormat`: 127 characters inline, the rest in a chain behind one reference. */
  function ToSnakeFormat(s: string): (c: Cell)
    ensures SnakeText(c) == s
    decreases |s|
  {
    if |s| > SnakeChunk then
      var rest := ToSnakeFormat(s[SnakeChunk..]);
      assert InlineText([StrTail(s[..SnakeChunk])]) == s[..SnakeChunk] + InlineText([]);
      assert s == s[..SnakeChunk] + s[SnakeChunk..];
      Cell([StrTail(s[..SnakeChunk])], [rest])
    else
      assert InlineText([StrTail(s)]) == s + InlineText([]);
      Cell([StrTail(s)], [])
  }

  /** The first cell: a short string is one cell without references, a long one starts with a full chunk. */
  lemma SnakeHead(s: string)
    ensures |s| <= SnakeChunk ==> ToSnakeFormat(s) == Cell([StrTail(s)], [])
    ensures |s| > SnakeChunk ==>
      ToSnakeFormat(s).fields == [StrTail(s[..SnakeChunk])] &&
      |ToSnakeFormat(s).refs| == 1 &&
      SnakeText(ToSnakeFormat(s).refs[0]) == s[SnakeChunk..]
  {
  }

  /** Every cell of the chain is a snake cell, the chain has max(1, ceil(|s|/127)) cells and only the last has no reference. */
  lemma {:induction false} SnakeChainShape(s: string)
    ensures |Chain(ToSnakeFormat(s))| == SnakeCellCount(|s|)
    ensures forall i :: 0 <= i < |Chain(ToSnakeFormat(s))| ==>
      IsSnakeCell(Chain(ToSnakeFormat(s))[i]) &&
      (Chain(ToSnakeFormat(s))[i].refs == [] <==> i == |Chain(ToSnakeFormat(s))| - 1)
    decreases |s|
  {
    var c := ToSnakeFormat(s);
    if |s| > SnakeChunk {
      var tail := s[SnakeChunk..];
      SnakeChainShape(tail);
      assert c.refs == [ToSnakeFormat(tail)];
      var rest := Chain(ToSnakeFormat(tail));
      assert Chain(c) == [c] + rest;
      forall i | 0 <= i < |Chain(c)|
        ensures IsSnakeCell(Chain(c)[i]) && (Chain(c)[i].refs == [] <==> i == |Chain(c)| - 1)
      {
        if i > 0 {
          assert Chain(c)[i] == rest[i - 1];
        }
      }
    } else {
      assert Chain(c) == [c];
    }
  }

  /**
   A chain as `toSnakeFormat` lays it out: every cell a snake cell, and every cell
   with a reference full (127 characters) and followed by more text.
   */
  predicate CanonicalSnake(c: Cell) {
    IsSnakeCell(c) &&
    (c.refs != [] ==>
      |c.fields[0].text| == SnakeChunk && SnakeText(c.refs[0]) != "" && CanonicalSnake(c.refs[0]))
  }

  /** `toSnakeFormat` lays its chains out canonically. */
  lemma {:induction false} SnakeCanonical(s: string)
    ensures CanonicalSnake(ToSnakeFormat(s))
    decreases |s|
  {
    if |s| > SnakeChunk {
      SnakeCanonical(s[SnakeChunk..]);
    }
  }

  /** Among canonical chains, `toSnakeFormat(s)` is the one and only chain that reads back as `s`. */
  lemma {:induction false} SnakeExact(c: Cell, s: string)
    requires CanonicalSnake(c)
    ensures SnakeText(c) == s <==> c == ToSnakeFormat(s)
  {
    if SnakeText(c) == s {
      var t := c.fields[0].text;
      assert c.fields == [StrTail(t)];
      assert InlineText(c.fields) == t + InlineText([]);
      if c.refs == [] {
        assert s == t;
      } else {
        var r := c.refs[0];
        assert c.refs == [r];
        SnakeExact(r, SnakeText(r));
        assert s == t + SnakeText(r) && |s| > SnakeChunk;
        assert s[..SnakeChunk] == t && s[SnakeChunk..] == SnakeText(r);
      }
    }
  }

  // ---------------------------------------------------------------------------
  // Metadata cell

  datatype Metadata = Metadata(name: Option<string>, description: Option<string>)

  datatype SubscriptionMasterConfig = SubscriptionMasterConfig(metadata: Metadata)

  /** JavaScript truthiness of an optional string: present and not empty. */
  predicate Present(field: Option<string>) {
    field.Some? && field.value != ""
  }

  /** A dictionary value: the 8-bit snake prefix 0, then a reference to the snake chain of `s`. */
  function SnakeContent(s: string): (c: Cell)
    ensures c.fields == [Uint(0, 8)] && |c.refs| == 1
    ensures SnakeText(c.refs[0]) == s
  {
    Cell([Uint(0, 8)], [ToSnakeFormat(s)])
  }

  /** The keys the metadata dictionary must hold: the hash of each present field name. */
  function MetadataKeys(m: Metadata, p: Primitives): set<Hash> {
    (if Present(m.name) then {p.sha256("name")} else {}) +
    (if Present(m.description) then {p.sha256("description")} else {})
  }

  /**
   Reads the layout of a data cell: no inline fields and one reference to a cell
   holding the 8-bit on-chain flag 0 and the dictionary.
   */
  function ContentDict(data: Cell): (r: Option<map<Hash, Cell>>)
    ensures r.Some? ==> data == Cell([], [Cell([Uint(0, 8), Dict(r.value)], [])])
  {
    if data.fields == [] && |data.refs| == 1 && data.refs[0].refs == [] &&
       |data.refs[0].fields| == 2 && data.refs[0].fields[0] == Uint(0, 8) &&
       data.refs[0].fields[1].Dict?
    then
      assert data.refs == [data.refs[0]];
      assert data.refs[0].fields == [Uint(0, 8), data.refs[0].fields[1]];
      Some(data.refs[0].fields[1].entries)
    else None
  }

  /** Looks up one content field under `key` and reads its snake chain back. */
  function ReadContentField(data: Cell, key: Hash): Option<string> {
    var d :- ContentDict(data);
    if key in d && d[key].fields == [Uint(0, 8)] && |d[key].refs| == 1
    then Some(SnakeText(d[key].refs[0]))
    else None
  }

  /**
   What the source requires of the registry's data cell for `config`: the content
   layout, exactly the keys of the present fields, and each key mapped to its
   field's snake content.  The description is stored last, so it wins when the two
   names share a hash.
   */
  predicate IsMasterData(data: Cell, config: SubscriptionMasterConfig, p: Primitives) {
    var m := config.metadata;
    ContentDict(data).Some? &&
    ContentDict(data).value.Keys == MetadataKeys(m, p) &&
    (Present(m.description) ==>
      ContentDict(data).value[p.sha256("description")] == SnakeContent(m.description.value)) &&
    (Present(m.name) && !(Present(m.description) && p.sha256("name") == p.sha256("description")) ==>
      ContentDict(data).value[p.sha256("name")] == SnakeContent(m.name.value))
  }

  /** `subscriptionMasterConfigToCell`: fills the metadata dictionary, then wraps it. */
  method SubscriptionMasterConfigToCell(config: SubscriptionMasterConfig, p: Primitives)
    returns (data: Cell)
    ensures IsMasterData(data, config, p)
  {
    var metadata: map<Hash, Cell> := map[];
    if Present(config.metadata.name) {
      metadata := metadata[p.sha256("name") := SnakeContent(config.metadata.name.value)];
    }
    if Present(config.metadata.description) {
      metadata := metadata[p.sha256("description") := SnakeContent(config.metadata.description.value)];
    }
    data := Cell([], [Cell([Uint(0, 8), Dict(metadata)], [])]);
  }

  /** The data cell is determined by the configuration: two cells meeting the description are equal. */
  lemma MasterDataUnique(a: Cell, b: Cell, config: SubscriptionMasterConfig, p: Primitives)
    requires IsMasterData(a, config, p) && IsMasterData(b, config, p)
    ensures a == b
  {
    var da, db := ContentDict(a).value, ContentDict(b).value;
    forall k | k in da
      ensures da[k] == db[k]
    {
    }
    assert da == db;
  }

  /**
   Reading the data cell back as TEP-64 content gives each present field exactly,
   an absent or empty field is missing, and no other key reads as anything.
   */
  lemma MetadataReadBack(data: Cell, config: SubscriptionMasterConfig, p: Primitives, key: Hash)
    requires IsMasterData(data, config, p)
    requires p.sha256("name") != p.sha256("description")
    ensures ReadContentField(data, p.sha256("name")) ==
      if Present(config.metadata.name) then Some(config.metadata.name.value) else None
    ensures ReadContentField(data, p.sha256("description")) ==
      if Present(config.metadata.description) then Some(config.metadata.description.value) else None
    ensures key != p.sha256("name") && key != p.sha256("description") ==>
      ReadContentField(data, key) == None
  {
  }

  /** What `createFromConfig` returns: the code, a data cell for `config`, and the derived address. */
  predicate IsMasterContract(master: Contract, config: SubscriptionMasterConfig, code: Cell,
                             p: Primitives, workchain: int)
  {
    master.init.Some? && master.init.value.code == code &&
    IsMasterData(master.init.value.data, config, p) &&
    master.address == p.contractAddress(workchain, master.init.value)
  }

  /** `SubscriptionMaster.createFromConfig`, workchain 0 unless given. */
  method CreateFromConfig(config: SubscriptionMasterConfig, code: Cell, p: Primitives, workchain: int := 0)
    returns (master: Contract)
    ensures IsMasterContract(master, config, code, p, workchain)
  {
    var data := SubscriptionMasterConfigToCell(config, p);
    var init := StateInit(code, data);
    master := Contract(p.contractAddress(workchain, init), Some(init));
  }

  /** The registry's address and deployment state are a function of its inputs. */
  lemma CreateFromConfigDeterministic(a: Contract, b: Contract, config: SubscriptionMasterConfig,
                                      code: Cell, p: Primitives, workchain: int)
    requires IsMasterContract(a, config, code, p, workchain)
    requires IsMasterContract(b, config, code, p, workchain)
    ensures a == b
  {
    MasterDataUnique(a.init.value.data, b.init.value.data, config, p);
  }

  // ---------------------------------------------------------------------------
  // Opcodes

  datatype Operation = OpInit | OpSubscribe | OpConfigure | OpChangeManager | OpUpdateSubscriptionAuthority

  /** The `Opcodes` table: each 32-bit tag with its top bit masked off. */
  function Opcode(op: Operation): (code: nat)
    ensures code < 0x8000_0000
  {
    match op
    case OpInit => MaskOpcode(0x29c1_02d1)
    case OpSubscribe => MaskOpcode(0x5fcc_3d14)
    case OpConfigure => MaskOpcode(0x9e90_e363)
    case OpChangeManager => MaskOpcode(0x6780_b0d9)
    case OpUpdateSubscriptionAuthority => MaskOpcode(0x9443_04c1)
  }

  /** Masking keeps three tags as written and clears the top bit of the other two; all five differ. */
  lemma OpcodeTable()
    ensures Opcode(OpInit) == 0x29c1_02d1
    ensures Opcode(OpSubscribe) == 0x5fcc_3d14
    ensures Opcode(OpChangeManager) == 0x6780_b0d9
    ensures Opcode(OpConfigure) == 0x9e90_e363 - 0x8000_0000
    ensures Opcode(OpUpdateSubscriptionAuthority) == 0x9443_04c1 - 0x8000_0000
    ensures forall a, b :: Opcode(a) == Opcode(b) ==> a == b
  {
  }

  // ---------------------------------------------------------------------------
  // Deploy message

  /** `Init`: the registry's manager, fees, fee period and the Subscription contract code. */
  datatype Init = Init(manager: Address, subscriptionFee: int, periodicFee: int, feePeriod: int,
                       subscriptionCode: Cell)

  /** The builder refuses a query id outside 64 bits, a coin amount outside [0, 2^120) and a period outside 32 bits. */
  predicate ValidInit(queryId: int, init: Init) {
    0 <= queryId < U64 && 0 <= init.subscriptionFee < CoinsLimit && 0 <= init.periodicFee < CoinsLimit &&
    0 <= init.feePeriod < U32
  }

  /** An `init` message as the registry reads it. */
  datatype InitMessage = InitMessage(queryId: nat, manager: Address, subscriptionFee: nat,
                                     periodicFee: nat, feePeriod: nat, subscriptionCode: Cell)

  /** Reads an `init` body: opcode:32, query id:64, address, two coin amounts, period:32, one reference. */
  function ParseInitBody(body: Cell): Option<InitMessage> {
    if |body.fields| != 6 || |body.refs| != 1 then None
    else
      var op :- LoadUint(body.fields[0], 32);
      if op != Opcode(OpInit) then None
      else
        var queryId :- LoadUint(body.fields[1], 64);
        var manager :- LoadAddress(body.fields[2]);
        var subscriptionFee :- LoadCoins(body.fields[3]);
        var periodicFee :- LoadCoins(body.fields[4]);
        var feePeriod :- LoadUint(body.fields[5], 32);
        Some(InitMessage(queryId, manager, subscriptionFee, periodicFee, feePeriod, body.refs[0]))
  }

  /** The body `sendDeploy` builds: it reads back as exactly the given query id and `Init`. */
  function DeployBody(queryId: int, init: Init): (body: Cell)
    requires ValidInit(queryId, init)
    ensures ParseInitBody(body) == Some(InitMessage(queryId, init.manager, init.subscriptionFee,
                                                    init.periodicFee, init.feePeriod, init.subscriptionCode))
  {
    Pow2Widths();
    Cell([Uint(Opcode(OpInit), 32), Uint(queryId, 64), Addr(init.manager),
          Coins(init.subscriptionFee), Coins(init.periodicFee), Uint(init.feePeriod, 32)],
         [init.subscriptionCode])
  }

  /** The reader accepts the deploy body and no other cell for the same message. */
  lemma DeployBodyExact(body: Cell, queryId: int, init: Init)
    requires ValidInit(queryId, init)
    ensures ParseInitBody(body) == Some(InitMessage(queryId, init.manager, init.subscriptionFee,
                                                    init.periodicFee, init.feePeriod, init.subscriptionCode))
            <==> body == DeployBody(queryId, init)
  {
    Pow2Widths();
  }

  /** `sendDeploy`: the attached value as given, gas paid separately, the `init` body. */
  function SendDeploy(queryId: int, value: int, init: Init): (msg: Message)
    requires ValidInit(queryId, init)
    ensures msg.value == value && msg.sendMode == PayGasSeparately
    ensures ParseInitBody(msg.body) == Some(InitMessage(queryId, init.manager, init.subscriptionFee,
                                                        init.periodicFee, init.feePeriod, init.subscriptionCode))
  {
    Message(value, PayGasSeparately, DeployBody(queryId, init))
  }
}
