/**
 * The two classes of zerocoin_v3.h whose fields change in place: the
 * per-block record CZerocoinTxInfoV3 and the registry CZerocoinStateV3.
 * Every registry method is proved against the transition of the same name
 * in CoinRegistry, where the properties of those transitions are proved.
 */
module ZerocoinV3 {
  import opened ZerocoinTypes
  import CoinRegistry

  /** CZerocoinTxInfoV3: the zerocoin content of one block, filled while its transactions are checked. */
  class ZerocoinTxInfoV3 {
    /** Hashes of the zerocoin transactions seen so far. */
    var zcTransactions: set<Uint256>
    /** (denomination, public coin) for every mint, in block order. */
    var mints: seq<(int, PublicCoin)>
    /** Serial of every spend, mapped to its denomination. */
    var spentSerials: map<Scalar, int>
    var fHasSpendV1: bool
    var fHasSpendV2: bool
    /** Set once the block's information is final. */
    var fInfoIsComplete: bool

    /** A new record is empty and not complete. */
    constructor()
      ensures zcTransactions == {} && mints == [] && spentSerials == map[]
      ensures !fInfoIsComplete
    {
      zcTransactions := {};
      mints := [];
      spentSerials := map[];
      fInfoIsComplete := false;
    }

    /** Complete: finalise the record. */
    method Complete()
      modifies this
      ensures fInfoIsComplete
      ensures zcTransactions == old(zcTransactions) && mints == old(mints) && spentSerials == old(spentSerials)
      ensures fHasSpendV1 == old(fHasSpendV1) && fHasSpendV2 == old(fHasSpendV2)
    {
      fInfoIsComplete := true;
    }
  }

  /** CZerocoinStateV3: minted coins, their groups, and the serials claimed by the chain and the mempool. */
  class ZerocoinStateV3 {
    /** (denomination, id) to the group's first and last block and coin count. */
    var coinGroups: map<GroupKey, CoinGroupInfo>
    /** Every minted public coin, to its denomination, id and height. */
    var mintedPubCoins: map<PublicCoin, MintedCoinInfo>
    /** Denomination to the id of its newest group. */
    var latestCoinIds: map<int, int>
    /** Serials revealed by confirmed spends. */
    var usedCoinSerials: set<Scalar>
    /** Serials of mempool spends, to the spending transaction's hash. */
    var mempoolCoinSerials: map<Scalar, Uint256>

    /** The five fields as one value. */
    function State(): RegistryState
      reads this
    {
      RegistryState(coinGroups, mintedPubCoins, latestCoinIds, usedCoinSerials, mempoolCoinSerials)
    }

    /** A new registry is empty, hence consistent and free of double claims. */
    constructor()
      ensures State() == EmptyRegistry
      ensures CoinRegistry.Valid(State()) && CoinRegistry.NoDoubleClaim(State())
    {
      coinGroups := map[];
      mintedPubCoins := map[];
      latestCoinIds := map[];
      usedCoinSerials := {};
      mempoolCoinSerials := map[];
      CoinRegistry.EmptyRegistryValid();
    }

    /** AddMint: file the coin under its denomination's group at `height`; returns the id it got. */
    method AddMint(height: int, coin: PublicCoin, advance: bool) returns (id: int)
      modifies this
      ensures State() == CoinRegistry.AddMint(old(State()), height, coin, advance)
      ensures id == CoinRegistry.AssignedId(old(State()), coin.denomination, advance) && id >= 1
    {
      var d := coin.denomination;
      var latest := if d in latestCoinIds then latestCoinIds[d] else 0;
      id := if latest < 1 then 1 else if advance then latest + 1 else latest;
      var key := GroupKey(d, id);
      var g := if key in coinGroups then coinGroups[key] else EmptyCoinGroup;
      if g.firstBlock.None? {
        g := g.(firstBlock := Some(height));
      }
      g := g.(lastBlock := Some(height), nCoins := g.nCoins + 1);
      coinGroups := coinGroups[key := g];
      mintedPubCoins := mintedPubCoins[coin := MintedCoinInfo(d, id, height)];
      latestCoinIds := latestCoinIds[d := id];
    }

    /** AddSpend: mark the serial used. */
    method AddSpend(serial: Scalar)
      modifies this
      ensures State() == CoinRegistry.AddSpend(old(State()), serial)
    {
      usedCoinSerials := usedCoinSerials + {serial};
    }

    /**
     * AddBlock: apply the block's mints in order, mark its spent serials used
     * and drop them from the mempool.
     */
    method AddBlock(height: int, info: ZerocoinTxInfoV3, advance: seq<bool>)
      requires |advance| == |info.mints|
      modifies this
      ensures State() == CoinRegistry.AddBlock(old(State()), height, info.mints, info.spentSerials.Keys, advance)
    {
      var i := 0;
      while i < |info.mints|
        invariant 0 <= i <= |info.mints|
        invariant State() == CoinRegistry.AddMints(old(State()), height, info.mints[..i], advance[..i])
      {
        assert info.mints[..i + 1][..i] == info.mints[..i] && advance[..i + 1][..i] == advance[..i];
        var _ := AddMint(height, info.mints[i].1, advance[i]);
        i := i + 1;
      }
      assert info.mints[..i] == info.mints && advance[..i] == advance;
      usedCoinSerials := usedCoinSerials + info.spentSerials.Keys;
      mempoolCoinSerials := mempoolCoinSerials - info.spentSerials.Keys;
    }

    /** RemoveBlock: undo the block's mints, last mint first, and unmark its spent serials. */
    method RemoveBlock(info: ZerocoinTxInfoV3)
      modifies this
      ensures State() == CoinRegistry.RemoveBlock(old(State()), info.mints, info.spentSerials.Keys)
    {
      var i := |info.mints|;
      assert info.mints[..i] == info.mints;
      while i > 0
        invariant 0 <= i <= |info.mints|
        invariant CoinRegistry.RemoveMints(State(), info.mints[..i]) == CoinRegistry.RemoveMints(old(State()), info.mints)
      {
        assert info.mints[..i][..i - 1] == info.mints[..i - 1];
        RemoveMint(info.mints[i - 1].1);
        i := i - 1;
      }
      usedCoinSerials := usedCoinSerials - info.spentSerials.Keys;
    }

    /**
     * Undo one mint: forget the coin and take it out of its group; a group
     * left empty is dropped and its denomination's latest id steps back,
     * otherwise the group's last block rolls back to the highest block still
     * holding one of its coins.
     */
    method RemoveMint(coin: PublicCoin)
      modifies this
      ensures State() == CoinRegistry.RemoveMint(old(State()), coin)
    {
      if coin in mintedPubCoins {
        var info := mintedPubCoins[coin];
        var key := info.Key();
        var g := if key in coinGroups then coinGroups[key] else EmptyCoinGroup;
        mintedPubCoins := mintedPubCoins - {coin};
        if g.nCoins <= 1 {
          coinGroups := coinGroups - {key};
          if info.id > 1 {
            latestCoinIds := latestCoinIds[info.denomination := info.id - 1];
          } else {
            latestCoinIds := latestCoinIds - {info.denomination};
          }
        } else {
          var last := LastMintHeight(mintedPubCoins, key);
          coinGroups := coinGroups[key := g.(nCoins := g.nCoins - 1, lastBlock := last)];
        }
      }
    }

    /** GetCoinGroupInfo: the group's record when it exists; `result` is left as it was otherwise. */
    method GetCoinGroupInfo(denomination: int, id: int, result: CoinGroupInfo) returns (found: bool, result': CoinGroupInfo)
      ensures found <==> GroupKey(denomination, id) in coinGroups
      ensures found ==> result' == coinGroups[GroupKey(denomination, id)]
      ensures !found ==> result' == result
      ensures found ==> CoinRegistry.GetCoinGroupInfo(State(), denomination, id) == Some(result')
    {
      var key := GroupKey(denomination, id);
      found := key in coinGroups;
      result' := if found then coinGroups[key] else result;
    }

    /** IsUsedCoinSerial: a confirmed spend revealed the serial. */
    method IsUsedCoinSerial(serial: Scalar) returns (used: bool)
      ensures used <==> serial in usedCoinSerials
    {
      used := serial in usedCoinSerials;
    }

    /** HasCoin: the public coin was minted. */
    method HasCoin(coin: PublicCoin) returns (has: bool)
      ensures has <==> coin in mintedPubCoins
    {
      has := coin in mintedPubCoins;
    }

    /** GetMintedCoinHeightAndId: where the coin was minted, (-1, -1) when it never was. */
    method GetMintedCoinHeightAndId(coin: PublicCoin, denomination: int) returns (r: (int, int))
      ensures coin in mintedPubCoins ==> r == (mintedPubCoins[coin].nHeight, mintedPubCoins[coin].id)
      ensures coin !in mintedPubCoins ==> r == (-1, -1)
    {
      if coin in mintedPubCoins {
        var info := mintedPubCoins[coin];
        r := (info.nHeight, info.id);
      } else {
        r := (-1, -1);
      }
    }

    /**
     * GetCoinSetForSpend: walk the group from its last block down to its
     * first, collecting the coins of blocks at most `maxHeight`; the anchor
     * hash is that of the first such block met that minted into the group.
     */
    method GetCoinSetForSpend(chain: seq<BlockIndexEntry>, maxHeight: int, denomination: int, id: int)
      returns (count: int, blockHash: Option<Uint256>, coins: seq<PublicCoin>)
      requires CoinRegistry.ChainCovers(State(), chain)
      ensures count == |coins|
      ensures CoinRegistry.CoinSetResult(count, blockHash, coins)
              == CoinRegistry.GetCoinSetForSpend(State(), chain, maxHeight, denomination, id)
    {
      var key := GroupKey(denomination, id);
      count, blockHash, coins := 0, None, [];
      if key !in coinGroups {
        return;
      }
      count, blockHash, coins := WalkGroup(chain, coinGroups[key].firstBlock.value, coinGroups[key].lastBlock.value, maxHeight, key);
    }

    /** Reset: empty every map and set. */
    method Reset()
      modifies this
      ensures State() == CoinRegistry.Reset(old(State()))
    {
      coinGroups := map[];
      mintedPubCoins := map[];
      latestCoinIds := map[];
      usedCoinSerials := {};
      mempoolCoinSerials := map[];
    }

    /** CanAddSpendToMempool: neither the chain nor the mempool already claims the serial. */
    method CanAddSpendToMempool(serial: Scalar) returns (can: bool)
      ensures can <==> serial !in usedCoinSerials && serial !in mempoolCoinSerials
    {
      can := serial !in usedCoinSerials && serial !in mempoolCoinSerials;
    }

    /** AddSpendToMempool: claim the serial for `txHash` when it is free; report whether it was. */
    method AddSpendToMempool(serial: Scalar, txHash: Uint256) returns (added: bool)
      modifies this
      ensures (State(), added) == CoinRegistry.AddSpendToMempool(old(State()), serial, txHash)
    {
      added := CanAddSpendToMempool(serial);
      if added {
        mempoolCoinSerials := mempoolCoinSerials[serial := txHash];
      }
    }

    /** GetMempoolConflictingTxHash: the mempool transaction holding the serial, or the null hash. */
    method GetMempoolConflictingTxHash(serial: Scalar) returns (txHash: Uint256)
      ensures serial in mempoolCoinSerials ==> txHash == mempoolCoinSerials[serial]
      ensures serial !in mempoolCoinSerials ==> txHash == 0
    {
      txHash := if serial in mempoolCoinSerials then mempoolCoinSerials[serial] else 0;
    }

    /** RemoveSpendFromMempool: release the serial's mempool claim. */
    method RemoveSpendFromMempool(serial: Scalar)
      modifies this
      ensures State() == CoinRegistry.RemoveSpendFromMempool(old(State()), serial)
    {
      mempoolCoinSerials := mempoolCoinSerials - {serial};
    }
  }

  /** The highest block holding a coin of group `key`, None when the group has no coin left. */
  method LastMintHeight(minted: map<PublicCoin, MintedCoinInfo>, key: GroupKey) returns (last: Option<int>)
    ensures last == CoinRegistry.MaxHeight(CoinRegistry.Heights(minted, key))
  {
    last := None;
    var rest := minted.Keys;
    while rest != {}
      invariant rest <= minted.Keys
      invariant last == CoinRegistry.MaxHeight(CoinRegistry.HeightsAmong(minted, minted.Keys - rest, key))
      decreases rest
    {
      var c :| c in rest;
      HeightsAmongInsert(minted, minted.Keys - rest, c, key);
      if minted[c].Key() == key {
        var h := minted[c].nHeight;
        CoinRegistry.MaxHeightInsert(CoinRegistry.HeightsAmong(minted, minted.Keys - rest, key), h);
        if last.None? || last.value < h {
          last := Some(h);
        }
      }
      assert minted.Keys - (rest - {c}) == (minted.Keys - rest) + {c};
      rest := rest - {c};
    }
    assert minted.Keys - rest == minted.Keys;
  }

  /** Taking one more coin into account adds its height when it is in the group. */
  lemma HeightsAmongInsert(minted: map<PublicCoin, MintedCoinInfo>, keys: set<PublicCoin>, c: PublicCoin, key: GroupKey)
    requires c in minted
    ensures CoinRegistry.HeightsAmong(minted, keys + {c}, key)
            == CoinRegistry.HeightsAmong(minted, keys, key) + (if minted[c].Key() == key then {minted[c].nHeight} else {})
  {
  }

  /**
   * The walk of GetCoinSetForSpend over one group: from block `last` down to
   * block `first`, collecting the group's coins of blocks at most
   * `maxHeight` and taking the hash of the first such block that has any.
   */
  method WalkGroup(chain: seq<BlockIndexEntry>, first: int, last: int, maxHeight: int, key: GroupKey)
    returns (count: int, blockHash: Option<Uint256>, coins: seq<PublicCoin>)
    requires 0 <= first <= last < |chain|
    ensures count == |coins|
    ensures coins == CoinRegistry.CoinsDown(chain, first, last, maxHeight, key)
    ensures blockHash == AnchorHash(chain, CoinRegistry.AnchorHeight(chain, first, last, maxHeight, key))
  {
    count, blockHash, coins := 0, None, [];
    var h := last;
    while h >= first
      invariant first - 1 <= h <= last
      invariant count == |coins|
      invariant coins == CoinRegistry.CoinsDown(chain, h + 1, last, maxHeight, key)
      invariant blockHash == AnchorHash(chain, CoinRegistry.AnchorHeight(chain, h + 1, last, maxHeight, key))
    {
      CoinRegistry.CoinsDownEmpty(chain, h + 1, last, maxHeight, key);
      var minted := CoinRegistry.MintsAt(chain, h, key);
      if |minted| > 0 && h <= maxHeight {
        if count == 0 {
          blockHash := Some(chain[h].blockHash);
        }
        count := count + |minted|;
        coins := coins + minted;
      }
      h := h - 1;
    }
  }

  /** The hash of the anchor block, when there is one. */
  function AnchorHash(chain: seq<BlockIndexEntry>, anchor: Option<int>): Option<Uint256>
    requires anchor.Some? ==> 0 <= anchor.value < |chain|
  {
    if anchor.Some? then Some(chain[anchor.value].blockHash) else None
  }
}
