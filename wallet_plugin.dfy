/**
 The signed external message a v4 wallet accepts to install a plugin (here, to
 activate a subscription): the signing payload is built field by field, hashed,
 signed, and the signature is put in front of it.
 */
module WalletPlugin {
  import opened Ton

  /** Wallet v4 action tag: install plugin. */
  const InstallPlugin: nat := 2

  /** Stored instead of an expiry time in a wallet's first message (seqno 0). */
  const NoExpiry: nat := 0xFFFF_FFFF

  /** Seconds added to the current time when no timeout is given. */
  const DefaultTimeout: nat := 60

  /** `InstallPluginParams`; `value`, `queryId` and `timeout` are optional. */
  datatype InstallPluginParams = InstallPluginParams(
    seqno: int,
    walletId: int,
    pluginAddress: Address,
    value: Option<int>,
    queryId: Option<int>,
    secretKey: seq<byte>,
    timeout: Option<int>)

  /** JavaScript truthiness of the optional timeout: present and not 0. */
  predicate TimeoutGiven(args: InstallPluginParams) {
    args.timeout.Some? && args.timeout.value != 0
  }

  /**
   What the builder accepts: every stored integer non-negative and within its
   width, including the expiry time actually stored, and a value in [0, 2^120).
   */
  predicate ValidParams(args: InstallPluginParams, nowMs: nat) {
    0 <= args.walletId < U32 && 0 <= args.seqno < U32 &&
    (args.seqno != 0 && TimeoutGiven(args) ==> 0 <= args.timeout.value < U32) &&
    (args.seqno != 0 && !TimeoutGiven(args) ==> nowMs / 1000 + DefaultTimeout < U32) &&
    (args.value.Some? ==> 0 <= args.value.value < CoinsLimit) &&
    (args.queryId.Some? ==> 0 <= args.queryId.value < U64)
  }

  /**
   The 32-bit expiry field: the no-expiry sentinel in a wallet's first message;
   otherwise the given timeout, unless it is missing or 0 (`timeout || ...`), in
   which case the current time in whole seconds plus the default.
   */
  function ExpiryField(args: InstallPluginParams, nowMs: nat): int {
    if args.seqno == 0 then NoExpiry
    else if TimeoutGiven(args) then args.timeout.value
    else nowMs / 1000 + DefaultTimeout
  }

  /** The fields that are signed: walletId:32, expiry:32, seqno:32, action:8, plugin, value, queryId:64. */
  function SigningPayload(args: InstallPluginParams, nowMs: nat): (payload: seq<Field>)
    requires ValidParams(args, nowMs)
    ensures |payload| == 7
  {
    [Uint(args.walletId, 32), Uint(ExpiryField(args, nowMs), 32), Uint(args.seqno, 32),
     Uint(InstallPlugin, 8), Addr(args.pluginAddress), Coins(args.value.GetOr(0)),
     Uint(args.queryId.GetOr(0), 64)]
  }

  /** The first part of `createWalletInstallPlugin`: the signing message, written field by field. */
  method BuildSigningMessage(args: InstallPluginParams, nowMs: nat) returns (signingMessage: Builder)
    requires ValidParams(args, nowMs)
    ensures signingMessage.fields == SigningPayload(args, nowMs) && signingMessage.refs == []
  {
    Pow2Widths();
    signingMessage := new Builder();
    signingMessage.StoreUint(args.walletId, 32);
    if args.seqno == 0 {
      signingMessage.StoreUint(NoExpiry, 32);
    } else {
      signingMessage.StoreUint(if TimeoutGiven(args) then args.timeout.value else nowMs / 1000 + DefaultTimeout, 32);
    }
    signingMessage.StoreUint(args.seqno, 32);
    signingMessage.StoreUint(InstallPlugin, 8);
    signingMessage.StoreAddress(args.pluginAddress);
    signingMessage.StoreCoins(args.value.GetOr(0));
    signingMessage.StoreUint(args.queryId.GetOr(0), 64);
  }

  /**
   `createWalletInstallPlugin`, with the clock reading `nowMs` (milliseconds) as a
   parameter: the signature of the hash of the payload cell, followed by exactly
   the payload fields, so the signature covers precisely the fields after it.
   */
  method CreateWalletInstallPlugin(args: InstallPluginParams, nowMs: nat, p: Primitives)
    returns (msg: Cell)
    requires ValidParams(args, nowMs)
    ensures msg.refs == [] && |msg.fields| == 8
    ensures msg.fields[1..] == SigningPayload(args, nowMs)
    ensures msg.fields[0] == Bytes(p.sign(p.cellHash(Cell(msg.fields[1..], [])), args.secretKey))
  {
    var signingMessage := BuildSigningMessage(args, nowMs);
    var signature := p.sign(p.cellHash(signingMessage.EndCell()), args.secretKey);
    var result := new Builder();
    result.StoreBuffer(signature);
    result.StoreBuilder(signingMessage);
    msg := result.EndCell();
    assert msg.fields == [Bytes(signature)] + SigningPayload(args, nowMs);
  }

  /**
   The expiry rule: a first message (seqno 0) never expires whatever timeout is
   given; later ones store a given non-zero timeout, and otherwise now + 60 s, so
   an explicit timeout of 0 is replaced too.
   */
  lemma ExpiryRule(args: InstallPluginParams, nowMs: nat)
    requires ValidParams(args, nowMs)
    ensures args.seqno == 0 ==> SigningPayload(args, nowMs)[1] == Uint(0xFFFF_FFFF, 32)
    ensures args.seqno != 0 && TimeoutGiven(args) ==>
      SigningPayload(args, nowMs)[1] == Uint(args.timeout.value, 32)
    ensures args.seqno != 0 && args.timeout.GetOr(0) == 0 ==>
      SigningPayload(args, nowMs)[1] == Uint(nowMs / 1000 + 60, 32)
  {
  }

  /**
   The payload layout: wallet id, expiry and seqno as 32-bit fields, the
   install-plugin action tag as 8 bits, the plugin address, the value in coins
   (0 when absent) and the query id in 64 bits (0 when absent).
   */
  lemma PayloadLayout(args: InstallPluginParams, nowMs: nat)
    requires ValidParams(args, nowMs)
    ensures SigningPayload(args, nowMs)[0] == Uint(args.walletId, 32)
    ensures SigningPayload(args, nowMs)[1].Uint? && SigningPayload(args, nowMs)[1].width == 32
    ensures SigningPayload(args, nowMs)[2] == Uint(args.seqno, 32)
    ensures SigningPayload(args, nowMs)[3] == Uint(2, 8)
    ensures SigningPayload(args, nowMs)[4] == Addr(args.pluginAddress)
    ensures SigningPayload(args, nowMs)[5] == Coins(if args.value.Some? then args.value.value else 0)
    ensures SigningPayload(args, nowMs)[6] == Uint(if args.queryId.Some? then args.queryId.value else 0, 64)
  {
  }
}
