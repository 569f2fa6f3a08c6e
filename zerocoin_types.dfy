/**
 * Value types shared by the consensus coin registry (zerocoin_v3.h):
 * the proof system's opaque values, the per-group and per-coin records,
 * the registry's five maps as one value, and the version-3 activation test.
 */
module ZerocoinTypes {

  datatype Option<T> = None | Some(value: T)

  /** A scalar of the proof system (a coin serial); only equality is used. */
  type Scalar(==)

  /** A group element of the proof system (a coin commitment); only equality is used. */
  type GroupElement(==)

  /** A 256-bit hash read as a number; 0 is the null hash `uint256()`. */
  type Uint256 = x: nat | x < 0x1_0000_0000_0000_0000_0000_0000_0000_0000_0000_0000_0000_0000_0000_0000_0000_0000

  /** PublicCoinV3: the commitment together with the denomination it carries. */
  datatype PublicCoin = PublicCoin(value: GroupElement, denomination: int)

  /** The (denomination, id) pair that names one anonymity-set group. */
  datatype GroupKey = GroupKey(denomination: int, id: int)

  /**
   * CoinGroupInfoV3: first and last block (as heights) holding a mint of the
   * group, and the number of coins minted into it.
   */
  datatype CoinGroupInfo = CoinGroupInfo(firstBlock: Option<int>, lastBlock: Option<int>, nCoins: int)

  /** The value the default constructor of CoinGroupInfoV3 builds. */
  const EmptyCoinGroup: CoinGroupInfo := CoinGroupInfo(None, None, 0)

  /** A group record as freshly constructed: no first block, no last block, no coins. */
  predicate IsFreshGroup(g: CoinGroupInfo)
  {
    g.firstBlock.None? && g.lastBlock.None? && g.nCoins == 0
  }

  /** CMintedCoinInfo: where a public coin was minted. */
  datatype MintedCoinInfo = MintedCoinInfo(denomination: int, id: int, nHeight: int)
  {
    function Key(): GroupKey
    {
      GroupKey(denomination, id)
    }
  }

  /** The five fields of CZerocoinStateV3 as one value. */
  datatype RegistryState = RegistryState(
    coinGroups: map<GroupKey, CoinGroupInfo>,
    mintedPubCoins: map<PublicCoin, MintedCoinInfo>,
    latestCoinIds: map<int, int>,
    usedCoinSerials: set<Scalar>,
    mempoolCoinSerials: map<Scalar, Uint256>)

  const EmptyRegistry: RegistryState := RegistryState(map[], map[], map[], {}, map[])

  /** One block of the block index, as GetCoinSetForSpend reads it. */
  datatype BlockIndexEntry = BlockIndexEntry(blockHash: Uint256, mintedPubCoins: map<GroupKey, seq<PublicCoin>>)

  /** The five version-3 denominations (CoinDenominationV3). */
  datatype DenominationV3 = ZqLovelace | ZqGoldwasser | ZqRackoff | ZqPedersen | ZqWilliamson

  /** The per-denomination switch ids of one network (ZC_V2_SWITCH_ID_1 … ZC_V2_SWITCH_ID_100). */
  datatype SwitchIds = SwitchIds(id1: int, id10: int, id25: int, id50: int, id100: int)

  /**
   * IsZerocoinTxV3: a coin id of a denomination belongs to version 3 once it
   * reaches that denomination's switch id on the selected network.
   */
  predicate IsZerocoinTxV3(testNet: bool, mainIds: SwitchIds, testIds: SwitchIds, denomination: DenominationV3, coinId: int)
  {
    var ids := if testNet then testIds else mainIds;
    (denomination == ZqLovelace && coinId >= ids.id1)
    || (denomination == ZqGoldwasser && coinId >= ids.id10)
    || (denomination == ZqRackoff && coinId >= ids.id25)
    || (denomination == ZqPedersen && coinId >= ids.id50)
    || (denomination == ZqWilliamson && coinId >= ids.id100)
  }

  /** The switch id that governs one denomination. */
  function SwitchId(ids: SwitchIds, denomination: DenominationV3): int
  {
    match denomination
    case ZqLovelace => ids.id1
    case ZqGoldwasser => ids.id10
    case ZqRackoff => ids.id25
    case ZqPedersen => ids.id50
    case ZqWilliamson => ids.id100
  }

  /** The activation test is a single threshold per denomination and network. */
  lemma IsZerocoinTxV3Threshold(testNet: bool, mainIds: SwitchIds, testIds: SwitchIds, denomination: DenominationV3, coinId: int)
    ensures IsZerocoinTxV3(testNet, mainIds, testIds, denomination, coinId)
            <==> coinId >= SwitchId(if testNet then testIds else mainIds, denomination)
  {
  }

  /** Once a coin id is version 3, every later id of the same denomination is too. */
  lemma IsZerocoinTxV3Monotone(testNet: bool, mainIds: SwitchIds, testIds: SwitchIds, denomination: DenominationV3, a: int, b: int)
    requires a <= b
    ensures IsZerocoinTxV3(testNet, mainIds, testIds, denomination, a)
            ==> IsZerocoinTxV3(testNet, mainIds, testIds, denomination, b)
  {
  }

  /** The default-constructed group record is fresh. */
  lemma EmptyCoinGroupIsFresh()
    ensures IsFreshGroup(EmptyCoinGroup)
  {
  }
}
