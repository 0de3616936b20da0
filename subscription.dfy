/**
 The per-user Subscription contract wrapper: its initial data cell, its deterministic
 address, its `init` opcode and the bodies of its deploy and `init` messages.
 */
module Subscription {
  import opened Ton
  import SubscriptionMaster

  /** `assembleSubscriptionInitData`: the master address, then the owner address. */
  function AssembleSubscriptionInitData(master: Address, owner: Address): (data: Cell)
    ensures ParseInitData(data) == Some((master, owner))
  {
    Cell([Addr(master), Addr(owner)], [])
  }

  /** Reads an initial data cell: two addresses, master first, and no references. */
  function ParseInitData(data: Cell): Option<(Address, Address)> {
    if |data.fields| != 2 || data.refs != [] then None
    else
      var master :- LoadAddress(data.fields[0]);
      var owner :- LoadAddress(data.fields[1]);
      Some((master, owner))
  }

  /** The reader accepts the assembled cell and no other cell for the same pair. */
  lemma InitDataExact(data: Cell, master: Address, owner: Address)
    ensures ParseInitData(data) == Some((master, owner)) <==>
            data == AssembleSubscriptionInitData(master, owner)
  {
    if ParseInitData(data) == Some((master, owner)) {
      assert data.fields == [Addr(master), Addr(owner)];
    }
  }

  /** `Opcodes.init` of this wrapper. */
  const InitOpcode: nat := MaskOpcode(0x29c1_02d1)

  /** The `init` tag has its top bit clear and is the registry's `init` tag. */
  lemma InitOpcodeAgrees()
    ensures InitOpcode < 0x8000_0000
    ensures InitOpcode == SubscriptionMaster.Opcode(SubscriptionMaster.OpInit)
  {
  }

  /**
   `Subscription.createFromConfig`, workchain 0 unless given: the code, the
   assembled data for (master, owner), and the address derived from both.
   */
  function CreateFromConfig(master: Address, owner: Address, code: Cell, p: Primitives,
                            workchain: int := 0): (s: Contract)
    ensures s.init.Some? && s.init.value.code == code
    ensures ParseInitData(s.init.value.data) == Some((master, owner))
    ensures s.address == p.contractAddress(workchain, s.init.value)
  {
    var init := StateInit(code, AssembleSubscriptionInitData(master, owner));
    Contract(p.contractAddress(workchain, init), Some(init))
  }

  /**
   Content-addressed deployment: as long as the address function does not collide
   on the two deployments, two different (master, owner) pairs with the same code
   and workchain give two different addresses; equal pairs give equal ones.
   */
  lemma AddressSeparatesOwners(master1: Address, owner1: Address, master2: Address, owner2: Address,
                               code: Cell, p: Primitives, workchain: int)
    requires p.contractAddress(workchain, StateInit(code, AssembleSubscriptionInitData(master1, owner1))) ==
             p.contractAddress(workchain, StateInit(code, AssembleSubscriptionInitData(master2, owner2)))
             ==> AssembleSubscriptionInitData(master1, owner1) == AssembleSubscriptionInitData(master2, owner2)
    ensures CreateFromConfig(master1, owner1, code, p, workchain).address ==
            CreateFromConfig(master2, owner2, code, p, workchain).address
            <==> master1 == master2 && owner1 == owner2
  {
    var d1 := AssembleSubscriptionInitData(master1, owner1);
    var d2 := AssembleSubscriptionInitData(master2, owner2);
    if d1 == d2 {
      assert ParseInitData(d1) == ParseInitData(d2);
    }
  }

  // ---------------------------------------------------------------------------
  // Deploy and init messages

  /** `Init`: the content of an `init` message; the query id is optional. */
  datatype Init = Init(queryId: Option<int>, manager: Address, activationFee: int, fee: int, period: int)

  /** The builder refuses a query id outside 64 bits, a coin amount outside [0, 2^120) and a period outside 32 bits. */
  predicate ValidInit(content: Init) {
    (content.queryId.Some? ==> 0 <= content.queryId.value < U64) &&
    0 <= content.activationFee < CoinsLimit && 0 <= content.fee < CoinsLimit && 0 <= content.period < U32
  }

  /** An `init` message as the subscription reads it. */
  datatype InitMessage = InitMessage(queryId: nat, manager: Address, activationFee: nat, fee: nat, period: nat)

  /** Reads an `init` body: opcode:32, query id:64, address, two coin amounts, period:32, no references. */
  function ParseInitBody(body: Cell): Option<InitMessage> {
    if |body.fields| != 6 || body.refs != [] then None
    else
      var op :- LoadUint(body.fields[0], 32);
      if op != InitOpcode then None
      else
        var queryId :- LoadUint(body.fields[1], 64);
        var manager :- LoadAddress(body.fields[2]);
        var activationFee :- LoadCoins(body.fields[3]);
        var fee :- LoadCoins(body.fields[4]);
        var period :- LoadUint(body.fields[5], 32);
        Some(InitMessage(queryId, manager, activationFee, fee, period))
  }

  /** The message an `Init` stands for: a missing query id is 0. */
  function Intended(content: Init): InitMessage
    requires ValidInit(content)
  {
    InitMessage(content.queryId.GetOr(0), content.manager, content.activationFee, content.fee, content.period)
  }

  /** The body `sendInit` builds: it reads back as exactly the given content, query id 0 when absent. */
  function InitBody(content: Init): (body: Cell)
    requires ValidInit(content)
    ensures ParseInitBody(body) == Some(Intended(content))
  {
    Pow2Widths();
    Cell([Uint(InitOpcode, 32), Uint(content.queryId.GetOr(0), 64), Addr(content.manager),
          Coins(content.activationFee), Coins(content.fee), Uint(content.period, 32)], [])
  }

  /** The reader accepts the `init` body and no other cell for the same message. */
  lemma InitBodyExact(body: Cell, content: Init)
    requires ValidInit(content)
    ensures ParseInitBody(body) == Some(Intended(content)) <==> body == InitBody(content)
  {
    Pow2Widths();
  }

  /** `sendInit`: the attached value as given, gas paid separately, the `init` body. */
  function SendInit(value: int, content: Init): (msg: Message)
    requires ValidInit(content)
    ensures msg.value == value && msg.sendMode == PayGasSeparately
    ensures ParseInitBody(msg.body) == Some(Intended(content))
  {
    Message(value, PayGasSeparately, InitBody(content))
  }

  /**
   `sendDeploy`: with an `Init`, exactly the message `sendInit` sends; without one,
   the same value with an empty body, which no `init` reader accepts.
   */
  function SendDeploy(value: int, init: Option<Init>): (msg: Message)
    requires init.Some? ==> ValidInit(init.value)
    ensures init.Some? ==> msg == SendInit(value, init.value)
    ensures init.None? ==> msg.value == value && msg.sendMode == PayGasSeparately &&
                           msg.body.fields == [] && msg.body.refs == []
    ensures ParseInitBody(msg.body).Some? <==> init.Some?
  {
    if init.Some? then SendInit(value, init.value)
    else Message(value, PayGasSeparately, EmptyCell)
  }
}
