# walletv4-subscription-contracts, modelled in Dafny

This project models the off-chain toolkit for two TON smart contracts. The
first is a subscription registry, the Subscription Master. The second is a
per-user Subscription account, which is activated by installing it as a plugin
of the user's v4 wallet. The model covers the parts of the toolkit that
compute something, leaving out the parts that only talk to the network:

- `ton.dfy` (module `Ton`): the ton-core and ton-crypto vocabulary the wrappers
  use.
  - A cell is an ordered list of typed fields plus its child references.
  - An in-place `Builder` class stands for `beginCell()`.
  - Readers (`LoadUint`, `LoadCoins`, `LoadAddress`) say how a receiver loads a
    field back.
  - `MaskOpcode` models the `& 0x7fffffff` masking of opcodes.
  - The hash, signing and address-derivation functions are the fields of a
    `Primitives` record, passed to every operation that needs them.
- `subscription_master.dfy` (module `SubscriptionMaster`): the registry
  wrapper. It covers:
  - the snake-string encoder `toSnakeFormat`;
  - the TEP-64 style metadata data cell built by `subscriptionMasterConfigToCell`;
  - `createFromConfig`;
  - the `Opcodes` table;
  - the body sent by `sendDeploy`.
- `subscription.dfy` (module `Subscription`): the per-user wrapper. It covers
  the initial data cell, `createFromConfig` with its content-addressed address,
  the `init` opcode, and the `sendInit` and `sendDeploy` bodies.
- `wallet_plugin.dfy` (module `WalletPlugin`): `createWalletInstallPlugin` from
  the Subscription test suite. It builds the wallet-v4 install-plugin signing
  payload field by field, choosing the expiry by the seqno and timeout rule,
  and prepends the signature of its hash.
- `wallet_info.dfy` (module `WalletInfo`): `bigintToUint8Array`, the conversion
  of a public key read as an integer into 32 big-endian bytes. It is a digit
  loop over a fixed array followed by an in-place reverse.

Three layouts have an exact reader: the two `init` message bodies, read by
`ParseInitBody` (one per wrapper), and the subscription's initial data, read by
`ParseInitData`. For each of them the lemmas prove two things:

- the reader returns exactly what was written;
- the reader accepts no other cell for the same content.

Snake strings are read back by `SnakeText`. It accepts many chains for one
string, so exactness is proved over the canonical chains, in which every cell
with a reference holds exactly 127 characters. `ToSnakeFormat` produces only
canonical chains, and among them its chain is the only one reading back as the
string. The metadata cell is read back field by field by `ReadContentField`.
For it, the model proves the round trip (`MetadataReadBack`) and that the
cell is determined by the configuration (`MasterDataUnique`). The signing
payload of `createWalletInstallPlugin` has no reader. Its layout and its
signature are stated directly on the message.

The integer conversion is specified by the digit sequence `LittleEndianDigits`.
It is proved to denote the number modulo 2^256, and to be the only 32-byte
string that does.

The wrapper always writes the on-chain content layout of TEP-64 (TON Token Data
Standard): flag 0, then a dictionary keyed only by the hashes of `name` and
`description`. TEP-64's off-chain form (flag 1) and a `url` field are never
produced. A field that is present but empty is dropped by JavaScript
truthiness, so `MetadataReadBack` reads it as absent.

## Model

| member | source | states |
|---|---|---|
| Ton.MaskOpcode | wrappers/SubscriptionMaster.ts:78-82 | the masked opcode is below 2^31; a tag below 2^31 is kept as written, and a larger one loses exactly 2^31 |
| SubscriptionMaster.ToSnakeFormat | wrappers/SubscriptionMaster.ts:31-41 | walking the snake chain and concatenating each cell's inline text gives back the string exactly |
| SubscriptionMaster.SnakeHead | wrappers/SubscriptionMaster.ts:33-38 | a string of at most 127 characters is one cell with no reference; a longer one is a cell with exactly its first 127 characters and one reference, which holds the rest |
| SubscriptionMaster.SnakeChainShape | wrappers/SubscriptionMaster.ts:33-38 | the chain has max(1, ceil(len/127)) cells; each holds one inline string of at most 127 characters and at most one reference; only the last cell has no reference |
| SubscriptionMaster.SnakeCanonical | wrappers/SubscriptionMaster.ts:31-41 | the chain is canonical: every cell is a snake cell, and every cell with a reference holds exactly 127 characters and is followed by non-empty text |
| SubscriptionMaster.SnakeExact | wrappers/SubscriptionMaster.ts:31-41 | a canonical chain reads back as a string exactly when it is the chain built for that string |
| SubscriptionMaster.SnakeContent | wrappers/SubscriptionMaster.ts:52-55 | a dictionary value is the 8-bit 0 followed by one reference whose snake chain reads back as the field's text |
| SubscriptionMaster.ContentDict | wrappers/SubscriptionMaster.ts:69-74 | a data cell is accepted only when it has no inline fields and one reference, and that reference holds the 8-bit 0 and then the dictionary |
| SubscriptionMaster.SubscriptionMasterConfigToCell | wrappers/SubscriptionMaster.ts:43-75 | the data cell has the content layout; the dictionary keys are exactly the hashes of the present, non-empty field names; each key maps to its field's snake content, the description winning a hash collision because it is stored last |
| SubscriptionMaster.MasterDataUnique | wrappers/SubscriptionMaster.ts:43-75 | the data cell is determined by the configuration |
| SubscriptionMaster.MetadataReadBack | wrappers/SubscriptionMaster.ts:44-67 | reading the cell back gives each present, non-empty field exactly; a missing or empty field reads as absent; no other key reads as anything |
| SubscriptionMaster.CreateFromConfig | wrappers/SubscriptionMaster.ts:92-96 | the wrapper holds the given code and the data cell for the configuration, at the address derived from both on the given workchain (0 by default) |
| SubscriptionMaster.CreateFromConfigDeterministic | wrappers/SubscriptionMaster.ts:92-96 | two results for the same inputs are equal |
| SubscriptionMaster.Opcode | wrappers/SubscriptionMaster.ts:77-83 | every opcode is below 2^31 |
| SubscriptionMaster.OpcodeTable | wrappers/SubscriptionMaster.ts:77-83 | `init`, `subscribe` and `change_manager` are unchanged by the mask; `configure` and `update_subscription_authority` lose their top bit; the five opcodes are distinct |
| SubscriptionMaster.DeployBody | wrappers/SubscriptionMaster.ts:102-110 | the deploy body reads back as the `init` opcode, the query id, the manager, both fees, the fee period and the subscription code; it requires a 64-bit query id, fees in [0, 2^120) and a 32-bit period |
| SubscriptionMaster.DeployBodyExact | wrappers/SubscriptionMaster.ts:102-110 | the reader yields that message for the deploy body and for no other cell |
| SubscriptionMaster.SendDeploy | wrappers/SubscriptionMaster.ts:98-112 | the deploy message carries the given value, pays gas separately and holds that body |
| Subscription.AssembleSubscriptionInitData | wrappers/Subscription.ts:13-18 | the initial data reads back as (master, owner), in that order |
| Subscription.InitDataExact | wrappers/Subscription.ts:13-18 | the only cell that reads back as (master, owner) is the one with the two addresses and no references |
| Subscription.InitOpcodeAgrees | wrappers/Subscription.ts:28-30 | the Subscription `init` opcode is below 2^31 and equals the Master's `init` opcode |
| Subscription.CreateFromConfig | wrappers/Subscription.ts:39-48 | the wrapper holds the given code and data reading back as (master, owner); its address is `contractAddress(workchain, init)`, with workchain 0 by default |
| Subscription.AddressSeparatesOwners | wrappers/Subscription.ts:39-48 | if the address function does not collide, two deployments share an address exactly when their (master, owner) pairs are equal |
| Subscription.InitBody | wrappers/Subscription.ts:66-73 | the `init` body reads back as the opcode, the query id (0 when absent), the manager, the activation fee, the fee and the period |
| Subscription.InitBodyExact | wrappers/Subscription.ts:66-73 | the reader yields that message for the `init` body and for no other cell |
| Subscription.SendInit | wrappers/Subscription.ts:62-75 | the `init` message carries the given value, pays gas separately and reads back as the content |
| Subscription.SendDeploy | wrappers/Subscription.ts:50-60 | with an `Init`, it sends exactly the `sendInit` message; without one, it sends the same value with an empty body; the body reads as an `init` message exactly when an `Init` was given |
| WalletPlugin.BuildSigningMessage | tests/Subscription.spec.ts:26-38 | the builder ends up holding exactly the seven payload fields, with no references |
| WalletPlugin.CreateWalletInstallPlugin | tests/Subscription.spec.ts:25-45 | the message is eight fields with no references: the payload fields follow the first field, which is the signature, under the secret key, of the hash of a cell holding exactly those fields |
| WalletPlugin.ExpiryRule | tests/Subscription.spec.ts:28-32 | seqno 0 stores 0xFFFFFFFF whatever the timeout; otherwise a given non-zero timeout is stored, and a missing or zero timeout is replaced by the current second plus 60 |
| WalletPlugin.PayloadLayout | tests/Subscription.spec.ts:26-38 | the field order is wallet id:32, expiry:32, seqno:32, action 2:8, plugin address, value in coins (0 when absent), query id:64 (0 when absent) |
| WalletInfo.ReverseInPlace | scripts/getWalletInfo.ts:15 | the array afterwards is the reverse of the array before |
| WalletInfo.StoreDigits | scripts/getWalletInfo.ts:8-14 | after the loop, the array holds the 32 lowest base-256 digits of a non-negative `num`, least significant first; it holds zeros when `num` is not positive; the loop keeps what is left of the number equal to `num` divided by 256 per turn |
| WalletInfo.DigitLoopValue | scripts/getWalletInfo.ts:10-14 | after i turns, num == (what is left) * 256^i + the little-endian value of the i digits stored |
| WalletInfo.BigintToUint8Array | scripts/getWalletInfo.ts:7-16 | the result is a fresh array of 32 bytes; for non-negative `num` it is the reversed digit string, and read big-endian it is `num` modulo 2^256; for `num` <= 0 it is all zeros |
| WalletInfo.DigitsReadBack | scripts/getWalletInfo.ts:9-15 | for `num` below 256^count, the bytes read big-endian give `num` exactly, and the last byte is `num % 256` |
| WalletInfo.DigitsUnique | scripts/getWalletInfo.ts:7-16 | the result is the only byte string of its length that denotes `num` modulo 256^count |
| WalletInfo.LittleEndianDigitsValue | scripts/getWalletInfo.ts:10-14 | the count lowest digits denote the number modulo 256^count |

## Left out

- Network I/O is not modelled: `provider.internal`, `run` in the scripts, and the sandbox blockchain. The send operations are modelled by the message they hand to the provider: value, send mode and body.
- The bit-level encodings are not modelled: `storeCoins` (VarUInteger 16), `storeAddress` (MsgAddressInt), `storeStringTail`, `Dictionary` serialisation and cell hashing. Fields are typed values, so the 1023-bit and 4-reference limits of a cell are not checked.
- `sha256_sync`, `Cell.hash`, `sign` and `contractAddress` are parameters (`Primitives`). Nothing proved depends on what they compute. Where a statement needs them not to collide, it says so in its `requires`: this applies to `MetadataReadBack` and `AddressSeparatesOwners`.
- MetadataReadBack: requires that "name" and "description" hash differently. Under a collision the description overwrites the name, and `IsMasterData` describes exactly that case.
- The clock: `Date.now()` in `createWalletInstallPlugin` is the `nowMs` parameter.
- Strings: `toSnakeFormat` slices by JavaScript string length, which counts UTF-16 code units. The model treats a string as a sequence of characters and counts characters. The bytes of a multi-byte character are not modelled.
- `createFromAddress` (both wrappers) is not modelled: it only stores the given address.
- Getters and methods that scripts and tests call but the wrappers do not define are not part of this model.
- tests/SubscriptionMaster.spec.ts is not part of this model.
- On-chain contract behaviour (activation, fee accounting, due dates) is not part of this model: its code is not in the repository.
- StoreDigits: the digit loop and the reverse of `bigintToUint8Array` are two methods, `StoreDigits` and `ReverseInPlace`. `BigintToUint8Array` calls them in that order, so the array written by the loop is the one reversed in place.
- Builder range checks: the library throws on a value that does not fit its width, and on a coin amount that is negative or 2^120 or more, the VarUInteger 16 limit. The model states these limits as `requires` (`ValidInit`, `ValidParams`, `Builder.StoreUint`, `Builder.StoreCoins`) and does not model the exception.
- Ton.Address: the workchain is an unbounded integer. `storeAddress` writes it as a signed 8-bit integer and throws outside [-128, 127]. That exception is not modelled, and no `requires` bounds the workchain.
