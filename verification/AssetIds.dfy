/**
 Asset ids as numbers and as EVM addresses
 (tools/asset.py:267-274, tools/peaq_eth_utils.py:92-94).
 */
module AssetIds {
  import opened Common

  const TWO_32: nat := 0x1_0000_0000
  const LP_BIT: nat := 0x1000_0000_0000_0000
  const TOKEN_LIMIT: nat := 0x1000_0000
  const TWO_128: nat := 0x1_0000_0000_0000_0000_0000_0000_0000_0000
  const ERC20_ADDR_PREFIX: nat := 0xffffffff * TWO_128

  /** The dictionary handed in holds a token, a liquidity pair, or neither. */
  datatype AssetEnum = Token(id: nat) | LPToken(first: nat, second: nat) | Neither

  datatype AssetError = InvalidEnum

  /** convert_enum_to_asset_id: only the first part is masked to 32 bits. */
  function ConvertEnum(e: AssetEnum): Outcome<nat, AssetError>
  {
    match e
    case Token(id) => Ok(id)
    case LPToken(first, second) => Ok((first % TWO_32) * TWO_32 + second + LP_BIT)
    case Neither => Err(InvalidEnum)
  }

  /** Bit 60 marks a pair, whose parts are 32 bits apart; a token is its own id. */
  lemma IdMeaning(e: AssetEnum)
    ensures match e
            case Token(id) => ConvertEnum(e) == Ok(id)
            case LPToken(first, second) =>
              first < 4294967296 ==> ConvertEnum(e) == Ok(1152921504606846976 + 4294967296 * first + second)
            case Neither => ConvertEnum(e).Err?
    ensures EvmAddress(0) == 0xffffffff_00000000_00000000_00000000_00000000
  {
  }

  /** The enums the chain creates assets for. */
  predicate InRange(e: AssetEnum)
  {
    match e
    case Token(id) => id < TOKEN_LIMIT
    case LPToken(first, second) => first < TWO_32 && second < TWO_32
    case Neither => false
  }

  /** Reading an id back. */
  function ReadId(id: nat): AssetEnum
  {
    if id < TOKEN_LIMIT then Token(id)
    else if id < LP_BIT then Neither
    else LPToken((id - LP_BIT) / TWO_32, (id - LP_BIT) % TWO_32)
  }

  /** An id is read back to the enum it came from exactly when that is in range; so no two assets in range share one. */
  lemma IdReadBackIff(e: AssetEnum)
    requires ConvertEnum(e).Ok?
    ensures ReadId(ConvertEnum(e).value) == e <==> InRange(e)
    ensures InRange(e) ==> ConvertEnum(e).value < TWO_128
    ensures InRange(e) && e.LPToken? && e.first < TOKEN_LIMIT ==> ConvertEnum(e).value < 2 * LP_BIT
  {
  }

  /** Out of range they do: only the first part of a pair is masked, and a token can be any number. */
  lemma OutOfRangeCollides()
    ensures ConvertEnum(LPToken(0, TWO_32)) == ConvertEnum(LPToken(1, 0))
    ensures ConvertEnum(LPToken(TWO_32, 0)) == ConvertEnum(LPToken(0, 0)) == ConvertEnum(Token(LP_BIT))
  {
  }

  /** calculate_asset_to_evm_address before the checksum; an address has 160 bits. */
  function EvmAddress(id: nat): nat
  {
    ERC20_ADDR_PREFIX + id
  }

  predicate IsAssetAddress(address: nat)
  {
    address < TWO_32 * TWO_128 && address / TWO_128 == 0xffffffff
  }

  /** The address fits and keeps its prefix exactly when the id has at most 128 bits, and then it gives the id back. */
  lemma AddressKeepsPrefixIff(id: nat)
    ensures IsAssetAddress(EvmAddress(id)) <==> id < TWO_128
    ensures id < TWO_128 ==> EvmAddress(id) % TWO_128 == id
  {
    if id < TWO_128 {
      assert EvmAddress(id) == 0xffffffff * TWO_128 + id;
    }
  }

  /** From enum to address and back. */
  lemma AddressRoundTrip(e: AssetEnum)
    requires InRange(e)
    ensures var address := EvmAddress(ConvertEnum(e).value);
            IsAssetAddress(address) && ReadId(address % TWO_128) == e
  {
    IdReadBackIff(e);
    AddressKeepsPrefixIff(ConvertEnum(e).value);
  }
}
