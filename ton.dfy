/**
 The parts of the TON libraries (ton-core, ton-crypto) that the wrappers build on,
 at the level of detail the wrappers need.

 A cell is modelled as the ordered list of typed fields that were stored into it
 together with its ordered child references; the bit-level encodings behind
 `storeCoins`, `storeAddress` and `storeDict` are not modelled.  The hash, signing
 and address-derivation functions are not modelled either: they are the fields of
 a `Primitives` record that every operation needing them takes as a parameter, so
 nothing proved here depends on what they compute.
 */
module Ton {

  type byte = x: int | 0 <= x < 256

  /** A 32-byte digest, as returned by `sha256_sync` and `Cell.hash`. */
  type Hash = s: seq<byte> | |s| == 32 witness seq(32, _ => 0)

  /** A 64-byte (512-bit) Ed25519 signature, as returned by `sign`. */
  type Signature = s: seq<byte> | |s| == 64 witness seq(64, _ => 0)

  datatype Option<+T> = None | Some(value: T) {

    predicate IsFailure() {
      None?
    }

    function PropagateFailure<U>(): Option<U>
      requires None?
    {
      None
    }

    function Extract(): T
      requires Some?
    {
      value
    }

    /** The `??` operator of the source: the value if present, otherwise `default`. */
    function GetOr(default: T): T {
      match this
      case Some(v) => v
      case None => default
    }
  }

  /** A standard account address: workchain id and 256-bit account hash. */
  datatype Address = Address(workchain: int, hash: Hash)

  /** One value stored into a cell, tagged with the builder call that stored it. */
  datatype Field =
    | Uint(value: nat, width: nat)          // storeUint(value, width)
    | Coins(amount: nat)                    // storeCoins(amount)
    | Addr(address: Address)                // storeAddress(address)
    | StrTail(text: string)                 // storeStringTail(text)
    | Bytes(data: seq<byte>)                // storeBuffer(data)
    | Dict(entries: map<Hash, Cell>)        // storeDict(dictionary with 32-byte keys, cell values)

  datatype Cell = Cell(fields: seq<Field>, refs: seq<Cell>)

  /** `beginCell().endCell()` */
  const EmptyCell := Cell([], [])

  /** The code and data cells a contract is deployed with. */
  datatype StateInit = StateInit(code: Cell, data: Cell)

  /** A contract wrapper object: its address and, when known, its deployment state. */
  datatype Contract = Contract(address: Address, init: Option<StateInit>)

  /** `SendMode.PAY_GAS_SEPARATELY` */
  const PayGasSeparately: nat := 1

  /** An internal message as a wrapper hands it to the provider: attached value, send mode, body. */
  datatype Message = Message(value: int, sendMode: nat, body: Cell)

  /**
   The library functions whose code is not part of this model: `sha256_sync`,
   `Cell.hash`, `sign` and `contractAddress`.
   */
  datatype Primitives = Primitives(
    sha256: string -> Hash,
    cellHash: Cell -> Hash,
    sign: (Hash, seq<byte>) -> Signature,
    contractAddress: (int, StateInit) -> Address)

  function Pow2(n: nat): (p: nat)
    ensures p >= 1
  {
    if n == 0 then 1 else if n < 8 then 2 * Pow2(n - 1) else 256 * Pow2(n - 8)
  }

  const U32: nat := 0x1_0000_0000
  const U64: nat := 0x1_0000_0000_0000_0000

  /**
   `storeCoins` writes a VarUInteger 16: a 4-bit byte count, then at most 15
   bytes, so an amount must be below 2^120.
   */
  const CoinsLimit: nat := 0x100_0000_0000_0000_0000_0000_0000_0000

  /** The three field widths the wrappers use. */
  lemma Pow2Widths()
    ensures Pow2(8) == 256 && Pow2(32) == U32 && Pow2(64) == U64
  {
  }

  /**
   Every opcode constant of the wrappers is written `raw & 0x7fffffff`: the
   top bit of the 32-bit tag is cleared, the other 31 bits are kept.
   */
  function MaskOpcode(raw: bv32): (op: nat)
    ensures op < 0x8000_0000
    ensures raw < 0x8000_0000 ==> op == raw as int
    ensures raw >= 0x8000_0000 ==> op == raw as int - 0x8000_0000
  {
    (raw & 0x7fff_ffff) as int
  }

  // Readers: how a receiving contract loads one field from a slice.

  function LoadUint(f: Field, width: nat): (r: Option<nat>)
    ensures r.Some? <==> f.Uint? && f.width == width && f.value < Pow2(width)
    ensures r.Some? ==> f == Uint(r.value, width)
  {
    if f.Uint? && f.width == width && f.value < Pow2(width) then Some(f.value) else None
  }

  function LoadCoins(f: Field): (r: Option<nat>)
    ensures r.Some? <==> f.Coins? && f.amount < CoinsLimit
    ensures r.Some? ==> f == Coins(r.value)
  {
    if f.Coins? && f.amount < CoinsLimit then Some(f.amount) else None
  }

  function LoadAddress(f: Field): (r: Option<Address>)
    ensures r.Some? <==> f.Addr?
    ensures r.Some? ==> f == Addr(r.value)
  {
    if f.Addr? then Some(f.address) else None
  }

  /** A cell builder (`beginCell()`), appended to in place. */
  class Builder {
    var fields: seq<Field>
    var refs: seq<Cell>

    constructor ()
      ensures fields == [] && refs == []
    {
      fields := [];
      refs := [];
    }

    /** The cell `endCell()` would produce now; the builder is left as it is. */
    function EndCell(): (c: Cell)
      reads this
      ensures c.fields == fields && c.refs == refs
    {
      Cell(fields, refs)
    }

    /** The library refuses a negative value or one that does not fit `width` bits. */
    method StoreUint(value: int, width: nat)
      requires 0 <= value < Pow2(width)
      modifies this
      ensures fields == old(fields) + [Uint(value, width)] && refs == old(refs)
    {
      fields := fields + [Uint(value, width)];
    }

    /** The library refuses a negative amount and one of 2^120 or more. */
    method StoreCoins(amount: int)
      requires 0 <= amount < CoinsLimit
      modifies this
      ensures fields == old(fields) + [Coins(amount)] && refs == old(refs)
    {
      fields := fields + [Coins(amount)];
    }

    method StoreAddress(address: Address)
      modifies this
      ensures fields == old(fields) + [Addr(address)] && refs == old(refs)
    {
      fields := fields + [Addr(address)];
    }

    method StoreBuffer(data: seq<byte>)
      modifies this
      ensures fields == old(fields) + [Bytes(data)] && refs == old(refs)
    {
      fields := fields + [Bytes(data)];
    }

    /** Appends the fields and references of `other` after those already stored. */
    method StoreBuilder(other: Builder)
      modifies this
      ensures fields == old(fields) + old(other.fields)
      ensures refs == old(refs) + old(other.refs)
    {
      fields, refs := fields + other.fields, refs + other.refs;
    }
  }
}
