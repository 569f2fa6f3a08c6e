/**
 * The consensus coin registry (CZerocoinStateV3) as a value: every
 * transition of zerocoin_v3.h as a function on RegistryState, the invariant
 * that ties the group records to the minted coins, and the properties the
 * double-spend guard rests on: a connected block followed by its disconnect
 * restores the registry, and a serial never has two claimants.
 */
module CoinRegistry {
  import opened ZerocoinTypes

  // ---------------------------------------------------------------------------
  // Heights of the coins of one group
  // ---------------------------------------------------------------------------

  /** The coins of `keys` that `minted` places in group `key`. */
  ghost function CoinsAmong(minted: map<PublicCoin, MintedCoinInfo>, keys: set<PublicCoin>, key: GroupKey): set<PublicCoin>
  {
    set c | c in keys && c in minted && minted[c].Key() == key
  }

  /** The mint heights of the coins of `keys` that `minted` places in group `key`. */
  ghost function HeightsAmong(minted: map<PublicCoin, MintedCoinInfo>, keys: set<PublicCoin>, key: GroupKey): set<int>
  {
    set c | c in keys && c in minted && minted[c].Key() == key :: minted[c].nHeight
  }

  ghost function Coins(minted: map<PublicCoin, MintedCoinInfo>, key: GroupKey): set<PublicCoin>
  {
    CoinsAmong(minted, minted.Keys, key)
  }

  ghost function Heights(minted: map<PublicCoin, MintedCoinInfo>, key: GroupKey): set<int>
  {
    HeightsAmong(minted, minted.Keys, key)
  }

  /** A non-empty set of heights has a member. */
  lemma NonEmptyHasMember(s: set<int>)
    requires s != {}
    ensures exists y :: y in s
  {
    if forall y :: y !in s {
      assert false;
    }
  }

  /** The largest element of a set of heights, None for the empty set. */
  ghost function MaxHeight(s: set<int>): (r: Option<int>)
    ensures r.None? <==> s == {}
    ensures r.Some? ==> r.value in s && forall x :: x in s ==> x <= r.value
    decreases s
  {
    if s == {} then None
    else
      NonEmptyHasMember(s);
      var y :| y in s;
      var rest := MaxHeight(s - {y});
      assert forall x :: x in s ==> x == y || x in s - {y};
      Some(if rest.None? || rest.value < y then y else rest.value)
  }

  /** The smallest element of a set of heights, None for the empty set. */
  ghost function MinHeight(s: set<int>): (r: Option<int>)
    ensures r.None? <==> s == {}
    ensures r.Some? ==> r.value in s && forall x :: x in s ==> r.value <= x
    decreases s
  {
    if s == {} then None
    else
      NonEmptyHasMember(s);
      var y :| y in s;
      var rest := MinHeight(s - {y});
      assert forall x :: x in s ==> x == y || x in s - {y};
      Some(if rest.None? || y < rest.value then y else rest.value)
  }

  /** Adding one height to a set moves its maximum to the larger of the two. */
  lemma MaxHeightInsert(s: set<int>, h: int)
    ensures MaxHeight(s + {h}) == Some(if s == {} || MaxHeight(s).value < h then h else MaxHeight(s).value)
  {
    var r := MaxHeight(s + {h});
    var c := if s == {} || MaxHeight(s).value < h then h else MaxHeight(s).value;
    assert c in s + {h} && forall x :: x in s + {h} ==> x <= c;
    assert r.value <= c && c <= r.value;
  }

  /** Adding a height no lower than the set's members keeps its minimum. */
  lemma MinHeightInsertTop(s: set<int>, h: int)
    requires forall x :: x in s ==> x <= h
    ensures MinHeight(s + {h}) == if s == {} then Some(h) else MinHeight(s)
  {
    var r := MinHeight(s + {h});
    var c := if s == {} then h else MinHeight(s).value;
    assert c in s + {h} && forall x :: x in s + {h} ==> c <= x;
    assert r.value <= c && c <= r.value;
  }

  // ---------------------------------------------------------------------------
  // The registry invariant
  // ---------------------------------------------------------------------------

  /** What a group record must hold, given the coins minted into that group. */
  ghost function Summary(minted: map<PublicCoin, MintedCoinInfo>, key: GroupKey): CoinGroupInfo
  {
    CoinGroupInfo(MinHeight(Heights(minted, key)), MaxHeight(Heights(minted, key)), |Coins(minted, key)|)
  }

  /** Every minted coin lies in a recorded group. */
  ghost predicate CoinsInGroups(s: RegistryState)
  {
    forall c :: c in s.mintedPubCoins ==> s.mintedPubCoins[c].Key() in s.coinGroups
  }

  /** Every recorded group holds a coin and records its first and last height and its coin count. */
  ghost predicate GroupsSummarized(s: RegistryState)
  {
    forall key :: key in s.coinGroups ==>
      s.coinGroups[key] == Summary(s.mintedPubCoins, key) && s.coinGroups[key].nCoins >= 1
  }

  /** The ids of a denomination's groups run from 1 up to its latest id. */
  ghost predicate IdsUpToLatest(s: RegistryState)
  {
    forall key :: key in s.coinGroups ==>
      key.denomination in s.latestCoinIds && 1 <= key.id <= s.latestCoinIds[key.denomination]
  }

  /** The latest id of a denomination names a recorded group. */
  ghost predicate LatestRecorded(s: RegistryState)
  {
    forall d :: d in s.latestCoinIds ==> GroupKey(d, s.latestCoinIds[d]) in s.coinGroups
  }

  /** The registry is consistent: its group records and latest ids agree with its minted coins. */
  ghost predicate Valid(s: RegistryState)
  {
    CoinsInGroups(s) && GroupsSummarized(s) && IdsUpToLatest(s) && LatestRecorded(s)
  }

  /** No coin of the registry was minted above `height`. */
  ghost predicate MintedAtOrBelow(s: RegistryState, height: int)
  {
    forall c :: c in s.mintedPubCoins ==> s.mintedPubCoins[c].nHeight <= height
  }

  lemma EmptyRegistryValid()
    ensures Valid(EmptyRegistry)
  {
  }

  /** A recorded group of a consistent registry has a first block. */
  lemma RecordedGroupHasFirstBlock(s: RegistryState, key: GroupKey)
    requires GroupsSummarized(s) && key in s.coinGroups
    ensures s.coinGroups[key].firstBlock.Some?
  {
    assert Coins(s.mintedPubCoins, key) != {};
    var c :| c in Coins(s.mintedPubCoins, key);
    assert s.mintedPubCoins[c].nHeight in Heights(s.mintedPubCoins, key);
  }

  // ---------------------------------------------------------------------------
  // Mints
  // ---------------------------------------------------------------------------

  /** `latestCoinIds[d]`, which reads as 0 when the denomination has no entry. */
  function LatestId(s: RegistryState, d: int): int
  {
    if d in s.latestCoinIds then s.latestCoinIds[d] else 0
  }

  /**
   * The id AddMint gives a coin of denomination d: group 1 when the
   * denomination has no open group, otherwise the open group, or the next one
   * when the (external) group policy closes the open group.
   */
  function AssignedId(s: RegistryState, d: int, advance: bool): int
  {
    var latest := LatestId(s, d);
    if latest < 1 then 1 else if advance then latest + 1 else latest
  }

  /** The group AddMint puts a coin into. */
  function MintKey(s: RegistryState, coin: PublicCoin, advance: bool): GroupKey
  {
    GroupKey(coin.denomination, AssignedId(s, coin.denomination, advance))
  }

  /** The record of group `key` once a coin minted at `height` joins it. */
  function GroupAfterMint(s: RegistryState, key: GroupKey, height: int): CoinGroupInfo
  {
    var g := if key in s.coinGroups then s.coinGroups[key] else EmptyCoinGroup;
    CoinGroupInfo(if g.firstBlock.None? then Some(height) else g.firstBlock, Some(height), g.nCoins + 1)
  }

  /** AddMint: record the coin under its assigned group at `height`. */
  function AddMint(s: RegistryState, height: int, coin: PublicCoin, advance: bool): RegistryState
  {
    var key := MintKey(s, coin, advance);
    s.(coinGroups := s.coinGroups[key := GroupAfterMint(s, key, height)],
       mintedPubCoins := s.mintedPubCoins[coin := MintedCoinInfo(key.denomination, key.id, height)],
       latestCoinIds := s.latestCoinIds[key.denomination := key.id])
  }

  /**
   * Undo one mint: forget the coin and take it out of its group. A group
   * left without coins is dropped and its denomination's latest id steps
   * back; otherwise the group's last block becomes the highest block still
   * holding one of its coins.
   */
  ghost function RemoveMint(s: RegistryState, coin: PublicCoin): RegistryState
  {
    if coin !in s.mintedPubCoins then s
    else
      var info := s.mintedPubCoins[coin];
      var key := info.Key();
      var minted := s.mintedPubCoins - {coin};
      var g := if key in s.coinGroups then s.coinGroups[key] else EmptyCoinGroup;
      if g.nCoins <= 1 then
        s.(coinGroups := s.coinGroups - {key},
           mintedPubCoins := minted,
           latestCoinIds := if info.id > 1 then s.latestCoinIds[info.denomination := info.id - 1]
                            else s.latestCoinIds - {info.denomination})
      else
        s.(coinGroups := s.coinGroups[key := g.(nCoins := g.nCoins - 1, lastBlock := MaxHeight(Heights(minted, key)))],
           mintedPubCoins := minted)
  }

  /** The coins of a block's mints are distinct and none of them is in `minted`. */
  ghost predicate FreshCoins(minted: map<PublicCoin, MintedCoinInfo>, mints: seq<(int, PublicCoin)>)
  {
    && (forall i :: 0 <= i < |mints| ==> mints[i].1 !in minted)
    && (forall i, j :: 0 <= i < j < |mints| ==> mints[i].1 != mints[j].1)
  }

  /** The coins of a block record. */
  ghost function CoinSet(mints: seq<(int, PublicCoin)>): set<PublicCoin>
  {
    set i | 0 <= i < |mints| :: mints[i].1
  }

  /** AddMint for each mint of a block, in order. */
  function AddMints(s: RegistryState, height: int, mints: seq<(int, PublicCoin)>, advance: seq<bool>): RegistryState
    requires |advance| == |mints|
    decreases |mints|
  {
    if mints == [] then s
    else
      var n := |mints| - 1;
      AddMint(AddMints(s, height, mints[..n], advance[..n]), height, mints[n].1, advance[n])
  }

  /** RemoveMint for each mint of a block, last mint first. */
  ghost function RemoveMints(s: RegistryState, mints: seq<(int, PublicCoin)>): RegistryState
    decreases |mints|
  {
    if mints == [] then s
    else
      var n := |mints| - 1;
      RemoveMints(RemoveMint(s, mints[n].1), mints[..n])
  }

  // ---------------------------------------------------------------------------
  // Blocks
  // ---------------------------------------------------------------------------

  /**
   * AddBlock: apply the block's mints at `height`, mark its serials used and
   * drop those serials from the mempool map.
   */
  function AddBlock(s: RegistryState, height: int, mints: seq<(int, PublicCoin)>, serials: set<Scalar>, advance: seq<bool>): RegistryState
    requires |advance| == |mints|
  {
    var t := AddMints(s, height, mints, advance);
    t.(usedCoinSerials := t.usedCoinSerials + serials,
       mempoolCoinSerials := t.mempoolCoinSerials - serials)
  }

  /** RemoveBlock: undo the block's mints and unmark its serials. */
  ghost function RemoveBlock(s: RegistryState, mints: seq<(int, PublicCoin)>, serials: set<Scalar>): RegistryState
  {
    var t := RemoveMints(s, mints);
    t.(usedCoinSerials := t.usedCoinSerials - serials)
  }

  // ---------------------------------------------------------------------------
  // AddMint keeps the registry consistent
  // ---------------------------------------------------------------------------

  lemma CoinsAfterInsert(minted: map<PublicCoin, MintedCoinInfo>, coin: PublicCoin, info: MintedCoinInfo, key: GroupKey)
    requires coin !in minted
    ensures Coins(minted[coin := info], key) == Coins(minted, key) + (if info.Key() == key then {coin} else {})
    ensures Heights(minted[coin := info], key) == Heights(minted, key) + (if info.Key() == key then {info.nHeight} else {})
  {
    var m' := minted[coin := info];
    assert Coins(m', key) == Coins(minted, key) + (if info.Key() == key then {coin} else {});
    var lhs := Heights(m', key);
    var rhs := Heights(minted, key) + (if info.Key() == key then {info.nHeight} else {});
    forall x | x in lhs ensures x in rhs {
      var c :| c in m'.Keys && c in m' && m'[c].Key() == key && m'[c].nHeight == x;
      if c != coin {
        assert c in minted.Keys && c in minted && minted[c] == m'[c];
      }
    }
    forall x | x in rhs ensures x in lhs {
      if x in Heights(minted, key) {
        var c :| c in minted.Keys && c in minted && minted[c].Key() == key && minted[c].nHeight == x;
        assert c in m'.Keys && m'[c] == minted[c];
      } else {
        assert m'[coin] == info;
      }
    }
  }

  /** A group with no record holds no coin. */
  lemma UnrecordedGroupIsEmpty(s: RegistryState, key: GroupKey)
    requires CoinsInGroups(s) && key !in s.coinGroups
    ensures Coins(s.mintedPubCoins, key) == {} && Heights(s.mintedPubCoins, key) == {}
  {
    forall c | c in s.mintedPubCoins ensures s.mintedPubCoins[c].Key() != key {
    }
  }

  /** A recorded group of a consistent registry holds at least one height. */
  lemma RecordedGroupHasHeights(s: RegistryState, key: GroupKey)
    requires key in s.coinGroups && s.coinGroups[key] == Summary(s.mintedPubCoins, key) && s.coinGroups[key].nCoins >= 1
    ensures Heights(s.mintedPubCoins, key) != {}
  {
    assert Coins(s.mintedPubCoins, key) != {};
    var c :| c in Coins(s.mintedPubCoins, key);
    assert s.mintedPubCoins[c].nHeight in Heights(s.mintedPubCoins, key);
  }

  /** Every height of a registry minted at or below `height` is at most `height`. */
  lemma HeightsBelow(s: RegistryState, height: int, key: GroupKey)
    requires MintedAtOrBelow(s, height)
    ensures forall x :: x in Heights(s.mintedPubCoins, key) ==> x <= height
  {
    forall x | x in Heights(s.mintedPubCoins, key) ensures x <= height {
      var c :| c in s.mintedPubCoins.Keys && c in s.mintedPubCoins && s.mintedPubCoins[c].Key() == key && s.mintedPubCoins[c].nHeight == x;
    }
  }

  /** The record of the group a new coin joins, when that group already held coins. */
  lemma MintIntoRecordedGroup(s: RegistryState, height: int, coin: PublicCoin, info: MintedCoinInfo)
    requires MintedAtOrBelow(s, height) && coin !in s.mintedPubCoins
    requires info.Key() in s.coinGroups && info.nHeight == height
    requires s.coinGroups[info.Key()] == Summary(s.mintedPubCoins, info.Key()) && s.coinGroups[info.Key()].nCoins >= 1
    ensures GroupAfterMint(s, info.Key(), height) == Summary(s.mintedPubCoins[coin := info], info.Key())
  {
    var key := info.Key();
    var m' := s.mintedPubCoins[coin := info];
    var hs := Heights(s.mintedPubCoins, key);
    var g := s.coinGroups[key];
    CoinsAfterInsert(s.mintedPubCoins, coin, info, key);
    HeightsBelow(s, height, key);
    RecordedGroupHasHeights(s, key);
    MaxHeightInsert(hs, height);
    MinHeightInsertTop(hs, height);
    assert coin !in Coins(s.mintedPubCoins, key);
    assert |Coins(m', key)| == g.nCoins + 1;
    assert MinHeight(Heights(m', key)) == g.firstBlock;
    assert MaxHeight(Heights(m', key)) == Some(height);
  }

  /** The record of the group a new coin opens. */
  lemma MintIntoNewGroup(s: RegistryState, height: int, coin: PublicCoin, info: MintedCoinInfo)
    requires CoinsInGroups(s) && coin !in s.mintedPubCoins
    requires info.Key() !in s.coinGroups && info.nHeight == height
    ensures GroupAfterMint(s, info.Key(), height) == Summary(s.mintedPubCoins[coin := info], info.Key())
  {
    var key := info.Key();
    CoinsAfterInsert(s.mintedPubCoins, coin, info, key);
    UnrecordedGroupIsEmpty(s, key);
    MaxHeightInsert({}, height);
    MinHeightInsertTop({}, height);
  }

  /** A group a new coin does not join keeps its summary. */
  lemma MintBesideGroup(s: RegistryState, coin: PublicCoin, info: MintedCoinInfo, k: GroupKey)
    requires GroupsSummarized(s) && coin !in s.mintedPubCoins
    requires k in s.coinGroups && k != info.Key()
    ensures s.coinGroups[k] == Summary(s.mintedPubCoins[coin := info], k)
  {
    CoinsAfterInsert(s.mintedPubCoins, coin, info, k);
  }

  /** The groups of the registry after AddMint again summarize their coins. */
  lemma AddMintSummarizesGroup(s: RegistryState, height: int, coin: PublicCoin, advance: bool, k: GroupKey)
    requires Valid(s) && MintedAtOrBelow(s, height) && coin !in s.mintedPubCoins
    requires k in AddMint(s, height, coin, advance).coinGroups
    ensures AddMint(s, height, coin, advance).coinGroups[k] == Summary(AddMint(s, height, coin, advance).mintedPubCoins, k)
    ensures AddMint(s, height, coin, advance).coinGroups[k].nCoins >= 1
  {
    var key := MintKey(s, coin, advance);
    var info := MintedCoinInfo(key.denomination, key.id, height);
    assert info.Key() == key;
    if k != key {
      MintBesideGroup(s, coin, info, k);
    } else if key in s.coinGroups {
      assert s.coinGroups[key] == Summary(s.mintedPubCoins, key) && s.coinGroups[key].nCoins >= 1;
      MintIntoRecordedGroup(s, height, coin, info);
    } else {
      MintIntoNewGroup(s, height, coin, info);
    }
  }

  /** AddMint keeps the registry consistent when the coin is new and its block is the highest. */
  lemma AddMintValid(s: RegistryState, height: int, coin: PublicCoin, advance: bool)
    requires Valid(s) && MintedAtOrBelow(s, height) && coin !in s.mintedPubCoins
    ensures Valid(AddMint(s, height, coin, advance))
    ensures MintedAtOrBelow(AddMint(s, height, coin, advance), height)
  {
    AddMintGroupsSummarized(s, height, coin, advance);
    AddMintCoinsInGroups(s, height, coin, advance);
    AddMintKeepsIds(s, height, coin, advance);
  }

  lemma AddMintGroupsSummarized(s: RegistryState, height: int, coin: PublicCoin, advance: bool)
    requires Valid(s) && MintedAtOrBelow(s, height) && coin !in s.mintedPubCoins
    ensures GroupsSummarized(AddMint(s, height, coin, advance))
  {
    var t := AddMint(s, height, coin, advance);
    forall k | k in t.coinGroups
      ensures t.coinGroups[k] == Summary(t.mintedPubCoins, k) && t.coinGroups[k].nCoins >= 1
    {
      AddMintSummarizesGroup(s, height, coin, advance, k);
    }
  }

  /** AddMint places the new coin in a recorded group and mints it at `height`. */
  lemma AddMintCoinsInGroups(s: RegistryState, height: int, coin: PublicCoin, advance: bool)
    requires CoinsInGroups(s)
    ensures CoinsInGroups(AddMint(s, height, coin, advance))
    ensures MintedAtOrBelow(s, height) ==> MintedAtOrBelow(AddMint(s, height, coin, advance), height)
  {
  }

  /** AddMint keeps the ids of each denomination running up to its latest id. */
  lemma AddMintKeepsIds(s: RegistryState, height: int, coin: PublicCoin, advance: bool)
    requires IdsUpToLatest(s) && LatestRecorded(s)
    ensures IdsUpToLatest(AddMint(s, height, coin, advance)) && LatestRecorded(AddMint(s, height, coin, advance))
  {
  }

  // ---------------------------------------------------------------------------
  // Mint and block round trips
  // ---------------------------------------------------------------------------

  /** The group a coin joins existed already only if it is its denomination's latest group. */
  lemma MintKeyOfRecordedGroup(s: RegistryState, coin: PublicCoin, advance: bool)
    requires IdsUpToLatest(s) && LatestRecorded(s)
    ensures MintKey(s, coin, advance) in s.coinGroups
            ==> coin.denomination in s.latestCoinIds && MintKey(s, coin, advance).id == s.latestCoinIds[coin.denomination]
    ensures MintKey(s, coin, advance) !in s.coinGroups && MintKey(s, coin, advance).id == 1
            ==> coin.denomination !in s.latestCoinIds
    ensures MintKey(s, coin, advance) !in s.coinGroups && MintKey(s, coin, advance).id != 1
            ==> coin.denomination in s.latestCoinIds && MintKey(s, coin, advance).id == s.latestCoinIds[coin.denomination] + 1
  {
    var d := coin.denomination;
    if d in s.latestCoinIds {
      assert GroupKey(d, s.latestCoinIds[d]) in s.coinGroups;
    }
  }

  /** Removing a coin right after adding it restores the registry exactly. */
  lemma RemoveMintUndoesAddMint(s: RegistryState, height: int, coin: PublicCoin, advance: bool)
    requires Valid(s) && MintedAtOrBelow(s, height) && coin !in s.mintedPubCoins
    ensures RemoveMint(AddMint(s, height, coin, advance), coin) == s
  {
    MintKeyOfRecordedGroup(s, coin, advance);
    var key := MintKey(s, coin, advance);
    if key in s.coinGroups {
      RecordedGroupHasFirstBlock(s, key);
      assert s.coinGroups[key] == Summary(s.mintedPubCoins, key);
      UndoMintIntoRecordedGroup(s, height, coin, advance);
    } else {
      UndoMintIntoNewGroup(s, height, coin, advance);
    }
  }

  lemma UndoMintIntoRecordedGroup(s: RegistryState, height: int, coin: PublicCoin, advance: bool)
    requires coin !in s.mintedPubCoins
    requires MintKey(s, coin, advance) in s.coinGroups
    requires s.coinGroups[MintKey(s, coin, advance)].lastBlock == MaxHeight(Heights(s.mintedPubCoins, MintKey(s, coin, advance)))
    requires s.coinGroups[MintKey(s, coin, advance)].firstBlock.Some? && s.coinGroups[MintKey(s, coin, advance)].nCoins >= 1
    requires coin.denomination in s.latestCoinIds && MintKey(s, coin, advance).id == s.latestCoinIds[coin.denomination]
    ensures RemoveMint(AddMint(s, height, coin, advance), coin) == s
  {
    var t := AddMint(s, height, coin, advance);
    var key := MintKey(s, coin, advance);
    var g := s.coinGroups[key];
    assert t.mintedPubCoins[coin].Key() == key;
    assert t.mintedPubCoins - {coin} == s.mintedPubCoins;
    assert t.coinGroups[key] == g.(lastBlock := Some(height), nCoins := g.nCoins + 1);
    assert t.latestCoinIds == s.latestCoinIds;
    assert t.coinGroups[key := g] == s.coinGroups;
  }

  lemma UndoMintIntoNewGroup(s: RegistryState, height: int, coin: PublicCoin, advance: bool)
    requires coin !in s.mintedPubCoins
    requires MintKey(s, coin, advance) !in s.coinGroups
    requires MintKey(s, coin, advance).id == 1 ==> coin.denomination !in s.latestCoinIds
    requires MintKey(s, coin, advance).id != 1
             ==> coin.denomination in s.latestCoinIds && MintKey(s, coin, advance).id == s.latestCoinIds[coin.denomination] + 1
    ensures RemoveMint(AddMint(s, height, coin, advance), coin) == s
  {
    var t := AddMint(s, height, coin, advance);
    var key := MintKey(s, coin, advance);
    assert t.mintedPubCoins[coin].Key() == key;
    assert t.mintedPubCoins - {coin} == s.mintedPubCoins;
    assert t.coinGroups[key].nCoins == 1;
    var r := RemoveMint(t, coin);
    assert r.coinGroups == s.coinGroups;
    assert r.latestCoinIds == s.latestCoinIds;
  }

  /** AddMints changes neither the used serials nor the mempool map. */
  lemma {:induction false} AddMintsKeepsSerials(s: RegistryState, height: int, mints: seq<(int, PublicCoin)>, advance: seq<bool>)
    requires |advance| == |mints|
    ensures AddMints(s, height, mints, advance).usedCoinSerials == s.usedCoinSerials
    ensures AddMints(s, height, mints, advance).mempoolCoinSerials == s.mempoolCoinSerials
    decreases |mints|
  {
    if mints != [] {
      var n := |mints| - 1;
      AddMintsKeepsSerials(s, height, mints[..n], advance[..n]);
    }
  }

  /** The first n mints of a fresh block are fresh, and the next one is not among them. */
  lemma FreshPrefix(minted: map<PublicCoin, MintedCoinInfo>, mints: seq<(int, PublicCoin)>, n: nat)
    requires FreshCoins(minted, mints) && n < |mints|
    ensures FreshCoins(minted, mints[..n])
    ensures mints[n].1 !in minted && mints[n].1 !in CoinSet(mints[..n])
    ensures CoinSet(mints[..n + 1]) == CoinSet(mints[..n]) + {mints[n].1}
  {
    var p := mints[..n + 1];
    assert forall i :: 0 <= i < n + 1 ==> p[i] == mints[i];
    assert CoinSet(p) == CoinSet(mints[..n]) + {mints[n].1};
  }

  /** AddMints records exactly the block's coins on top of those already minted. */
  lemma {:induction false} AddMintsKeys(s: RegistryState, height: int, mints: seq<(int, PublicCoin)>, advance: seq<bool>)
    requires |advance| == |mints|
    ensures AddMints(s, height, mints, advance).mintedPubCoins.Keys == s.mintedPubCoins.Keys + CoinSet(mints)
    decreases |mints|
  {
    if mints == [] {
      assert CoinSet(mints) == {};
    } else {
      var n := |mints| - 1;
      AddMintsKeys(s, height, mints[..n], advance[..n]);
      assert mints[..n + 1] == mints;
      assert CoinSet(mints) == CoinSet(mints[..n]) + {mints[n].1} by {
        assert forall i :: 0 <= i < n ==> mints[..n][i] == mints[i];
      }
    }
  }

  /** A block's mints keep the registry consistent. */
  lemma {:induction false} AddMintsValid(s: RegistryState, height: int, mints: seq<(int, PublicCoin)>, advance: seq<bool>)
    requires |advance| == |mints|
    requires Valid(s) && MintedAtOrBelow(s, height) && FreshCoins(s.mintedPubCoins, mints)
    ensures Valid(AddMints(s, height, mints, advance))
    ensures MintedAtOrBelow(AddMints(s, height, mints, advance), height)
    decreases |mints|
  {
    if mints != [] {
      var n := |mints| - 1;
      var t := AddMints(s, height, mints[..n], advance[..n]);
      FreshPrefix(s.mintedPubCoins, mints, n);
      AddMintsKeys(s, height, mints[..n], advance[..n]);
      AddMintsValid(s, height, mints[..n], advance[..n]);
      AddMintValid(t, height, mints[n].1, advance[n]);
    }
  }

  /** Undoing a block's mints in reverse order restores the registry. */
  lemma {:induction false} RemoveMintsUndoesAddMints(s: RegistryState, height: int, mints: seq<(int, PublicCoin)>, advance: seq<bool>)
    requires |advance| == |mints|
    requires Valid(s) && MintedAtOrBelow(s, height) && FreshCoins(s.mintedPubCoins, mints)
    ensures RemoveMints(AddMints(s, height, mints, advance), mints) == s
    decreases |mints|
  {
    if mints != [] {
      var n := |mints| - 1;
      var t := AddMints(s, height, mints[..n], advance[..n]);
      FreshPrefix(s.mintedPubCoins, mints, n);
      AddMintsKeys(s, height, mints[..n], advance[..n]);
      AddMintsValid(s, height, mints[..n], advance[..n]);
      RemoveMintUndoesAddMint(t, height, mints[n].1, advance[n]);
      RemoveMintsUndoesAddMints(s, height, mints[..n], advance[..n]);
    }
  }

  /** RemoveMints acts on the three mint maps alone. */
  lemma {:induction false} RemoveMintsFields(s: RegistryState, u: RegistryState, mints: seq<(int, PublicCoin)>)
    requires u.coinGroups == s.coinGroups && u.mintedPubCoins == s.mintedPubCoins && u.latestCoinIds == s.latestCoinIds
    ensures RemoveMints(u, mints).coinGroups == RemoveMints(s, mints).coinGroups
    ensures RemoveMints(u, mints).mintedPubCoins == RemoveMints(s, mints).mintedPubCoins
    ensures RemoveMints(u, mints).latestCoinIds == RemoveMints(s, mints).latestCoinIds
    ensures RemoveMints(u, mints).usedCoinSerials == u.usedCoinSerials
    ensures RemoveMints(u, mints).mempoolCoinSerials == u.mempoolCoinSerials
    decreases |mints|
  {
    if mints != [] {
      var n := |mints| - 1;
      RemoveMintsFields(RemoveMint(s, mints[n].1), RemoveMint(u, mints[n].1), mints[..n]);
    }
  }

  /**
   * Connecting a block and then disconnecting it restores the groups, the
   * minted coins, the latest ids and the used serials; the mempool map keeps
   * its entries except the block's serials, which the connect removed.
   */
  lemma BlockRoundTrip(s: RegistryState, height: int, mints: seq<(int, PublicCoin)>, serials: set<Scalar>, advance: seq<bool>)
    requires |advance| == |mints|
    requires Valid(s) && MintedAtOrBelow(s, height) && FreshCoins(s.mintedPubCoins, mints)
    requires serials !! s.usedCoinSerials
    ensures RemoveBlock(AddBlock(s, height, mints, serials, advance), mints, serials)
            == s.(mempoolCoinSerials := s.mempoolCoinSerials - serials)
  {
    var t := AddMints(s, height, mints, advance);
    AddMintsValid(s, height, mints, advance);
    AddMintsKeepsSerials(s, height, mints, advance);
    var u := t.(usedCoinSerials := t.usedCoinSerials + serials, mempoolCoinSerials := t.mempoolCoinSerials - serials);
    RemoveMintsUndoesAddMints(s, height, mints, advance);
    RemoveMintsFields(t, u, mints);
  }

  /** AddBlock keeps the registry consistent. */
  lemma AddBlockValid(s: RegistryState, height: int, mints: seq<(int, PublicCoin)>, serials: set<Scalar>, advance: seq<bool>)
    requires |advance| == |mints|
    requires Valid(s) && MintedAtOrBelow(s, height) && FreshCoins(s.mintedPubCoins, mints)
    ensures Valid(AddBlock(s, height, mints, serials, advance))
    ensures MintedAtOrBelow(AddBlock(s, height, mints, serials, advance), height)
    ensures AddBlock(s, height, mints, serials, advance).mintedPubCoins.Keys == s.mintedPubCoins.Keys + CoinSet(mints)
    ensures AddBlock(s, height, mints, serials, advance).usedCoinSerials == s.usedCoinSerials + serials
    ensures AddBlock(s, height, mints, serials, advance).mempoolCoinSerials == s.mempoolCoinSerials - serials
  {
    var t := AddMints(s, height, mints, advance);
    AddMintsValid(s, height, mints, advance);
    AddMintsKeys(s, height, mints, advance);
    AddMintsKeepsSerials(s, height, mints, advance);
    SerialsOutsideInvariant(t, AddBlock(s, height, mints, serials, advance), height);
  }

  /** The invariant reads only the three mint maps, never the serial sets. */
  lemma SerialsOutsideInvariant(s: RegistryState, u: RegistryState, height: int)
    requires u.coinGroups == s.coinGroups && u.mintedPubCoins == s.mintedPubCoins && u.latestCoinIds == s.latestCoinIds
    ensures Valid(u) <==> Valid(s)
    ensures MintedAtOrBelow(u, height) <==> MintedAtOrBelow(s, height)
  {
  }

  // ---------------------------------------------------------------------------
  // Spends, queries and the mempool
  // ---------------------------------------------------------------------------

  /** AddSpend: mark a serial used. */
  function AddSpend(s: RegistryState, serial: Scalar): RegistryState
  {
    s.(usedCoinSerials := s.usedCoinSerials + {serial})
  }

  /** IsUsedCoinSerial: a confirmed spend has revealed the serial. */
  predicate IsUsedCoinSerial(s: RegistryState, serial: Scalar)
  {
    serial in s.usedCoinSerials
  }

  /** HasCoin: the public coin has been minted. */
  predicate HasCoin(s: RegistryState, coin: PublicCoin)
  {
    coin in s.mintedPubCoins
  }

  /** GetCoinGroupInfo: the record of group (denomination, id), when there is one. */
  function GetCoinGroupInfo(s: RegistryState, denomination: int, id: int): (r: Option<CoinGroupInfo>)
    ensures r.Some? <==> GroupKey(denomination, id) in s.coinGroups
    ensures r.Some? ==> r.value == s.coinGroups[GroupKey(denomination, id)]
  {
    var key := GroupKey(denomination, id);
    if key in s.coinGroups then Some(s.coinGroups[key]) else None
  }

  /** GetMintedCoinHeightAndId: (height, id) of a minted coin, (-1, -1) for an unknown one. */
  function GetMintedCoinHeightAndId(s: RegistryState, coin: PublicCoin): (int, int)
  {
    if coin in s.mintedPubCoins then (s.mintedPubCoins[coin].nHeight, s.mintedPubCoins[coin].id) else (-1, -1)
  }

  /** Reset: every map and set empty again. */
  function Reset(s: RegistryState): RegistryState
  {
    EmptyRegistry
  }

  /** CanAddSpendToMempool: the serial is claimed neither by the chain nor by the mempool. */
  predicate CanAddSpendToMempool(s: RegistryState, serial: Scalar)
  {
    serial !in s.usedCoinSerials && serial !in s.mempoolCoinSerials
  }

  /** AddSpendToMempool: claim the serial for `txHash` when nobody holds it; report whether it did. */
  function AddSpendToMempool(s: RegistryState, serial: Scalar, txHash: Uint256): (RegistryState, bool)
  {
    if CanAddSpendToMempool(s, serial) then (s.(mempoolCoinSerials := s.mempoolCoinSerials[serial := txHash]), true)
    else (s, false)
  }

  /** GetMempoolConflictingTxHash: the transaction holding the serial in the mempool, or the null hash. */
  function GetMempoolConflictingTxHash(s: RegistryState, serial: Scalar): Uint256
  {
    if serial in s.mempoolCoinSerials then s.mempoolCoinSerials[serial] else 0
  }

  /** RemoveSpendFromMempool: release the serial's mempool claim. */
  function RemoveSpendFromMempool(s: RegistryState, serial: Scalar): RegistryState
  {
    s.(mempoolCoinSerials := s.mempoolCoinSerials - {serial})
  }

  /** At most one claimant per serial: no serial is both confirmed used and held by a mempool spend. */
  ghost predicate NoDoubleClaim(s: RegistryState)
  {
    s.usedCoinSerials !! s.mempoolCoinSerials.Keys
  }

  /** After AddSpend the serial is used, and no other serial changed status. */
  lemma AddSpendMarksUsed(s: RegistryState, serial: Scalar, other: Scalar)
    requires other != serial
    ensures IsUsedCoinSerial(AddSpend(s, serial), serial)
    ensures IsUsedCoinSerial(AddSpend(s, serial), other) <==> IsUsedCoinSerial(s, other)
    ensures AddSpend(s, serial).mempoolCoinSerials == s.mempoolCoinSerials
  {
  }

  /** A spend enters the mempool exactly when it may, is then recorded, and otherwise changes nothing. */
  lemma AddSpendToMempoolSpec(s: RegistryState, serial: Scalar, txHash: Uint256)
    ensures AddSpendToMempool(s, serial, txHash).1 <==> serial !in s.usedCoinSerials && serial !in s.mempoolCoinSerials
    ensures AddSpendToMempool(s, serial, txHash).1
            ==> GetMempoolConflictingTxHash(AddSpendToMempool(s, serial, txHash).0, serial) == txHash
    ensures !AddSpendToMempool(s, serial, txHash).1 ==> AddSpendToMempool(s, serial, txHash).0 == s
    ensures AddSpendToMempool(s, serial, txHash).0.usedCoinSerials == s.usedCoinSerials
  {
  }

  /**
   * A second claim on a serial already held fails; once the holder is
   * removed from the mempool the serial is free again.
   */
  lemma MempoolClaimCycle(s: RegistryState, serial: Scalar, tx1: Uint256, tx2: Uint256)
    requires CanAddSpendToMempool(s, serial)
    ensures !AddSpendToMempool(AddSpendToMempool(s, serial, tx1).0, serial, tx2).1
    ensures CanAddSpendToMempool(RemoveSpendFromMempool(AddSpendToMempool(s, serial, tx1).0, serial), serial)
    ensures RemoveSpendFromMempool(AddSpendToMempool(s, serial, tx1).0, serial) == s
  {
    var t := AddSpendToMempool(s, serial, tx1).0;
    assert t.mempoolCoinSerials - {serial} == s.mempoolCoinSerials;
  }

  /** RemoveSpendFromMempool drops only the serial's own entry and leaves the used serials alone. */
  lemma RemoveSpendFromMempoolSpec(s: RegistryState, serial: Scalar, other: Scalar)
    requires other != serial
    ensures GetMempoolConflictingTxHash(RemoveSpendFromMempool(s, serial), serial) == 0
    ensures GetMempoolConflictingTxHash(RemoveSpendFromMempool(s, serial), other) == GetMempoolConflictingTxHash(s, other)
    ensures RemoveSpendFromMempool(s, serial).usedCoinSerials == s.usedCoinSerials
  {
  }

  /** Every mempool and block transition keeps a serial from having two claimants. */
  lemma NoDoubleClaimPreserved(s: RegistryState, serial: Scalar, txHash: Uint256, height: int,
                               mints: seq<(int, PublicCoin)>, serials: set<Scalar>, advance: seq<bool>)
    requires |advance| == |mints|
    requires NoDoubleClaim(s)
    ensures NoDoubleClaim(AddSpendToMempool(s, serial, txHash).0)
    ensures NoDoubleClaim(RemoveSpendFromMempool(s, serial))
    ensures NoDoubleClaim(AddBlock(s, height, mints, serials, advance))
    ensures NoDoubleClaim(RemoveBlock(s, mints, serials))
    ensures NoDoubleClaim(Reset(s))
  {
    AddMintsKeepsSerials(s, height, mints, advance);
    RemoveMintsFields(s, s, mints);
  }

  /** A bare AddSpend of a serial the mempool holds leaves it with two claimants. */
  lemma AddSpendCanDoubleClaim(s: RegistryState, serial: Scalar)
    requires serial in s.mempoolCoinSerials
    ensures !NoDoubleClaim(AddSpend(s, serial))
  {
    assert serial in AddSpend(s, serial).usedCoinSerials * AddSpend(s, serial).mempoolCoinSerials.Keys;
  }

  /** The lifecycle of one mint: recorded in its group, visible to HasCoin and to the height-and-id query. */
  lemma AddMintLifecycle(s: RegistryState, height: int, coin: PublicCoin, advance: bool)
    requires Valid(s) && coin !in s.mintedPubCoins
    ensures HasCoin(AddMint(s, height, coin, advance), coin)
    ensures GetMintedCoinHeightAndId(AddMint(s, height, coin, advance), coin) == (height, AssignedId(s, coin.denomination, advance))
    ensures AssignedId(s, coin.denomination, advance) >= 1
    ensures MintKey(s, coin, advance) in s.coinGroups
            ==> AddMint(s, height, coin, advance).coinGroups[MintKey(s, coin, advance)].nCoins
                == s.coinGroups[MintKey(s, coin, advance)].nCoins + 1
    ensures MintKey(s, coin, advance) !in s.coinGroups
            ==> AddMint(s, height, coin, advance).coinGroups[MintKey(s, coin, advance)] == CoinGroupInfo(Some(height), Some(height), 1)
    ensures LatestId(AddMint(s, height, coin, advance), coin.denomination) == AssignedId(s, coin.denomination, advance)
  {
  }

  // ---------------------------------------------------------------------------
  // A chain of blocks connected and disconnected
  // ---------------------------------------------------------------------------

  /** One connected block: its height, its mints, its spent serials and the id policy for each mint. */
  datatype ConnectedBlock = ConnectedBlock(height: int, mints: seq<(int, PublicCoin)>, serials: set<Scalar>, advance: seq<bool>)

  /** Every block carries one id-policy decision per mint. */
  predicate Shaped(blocks: seq<ConnectedBlock>)
  {
    forall i :: 0 <= i < |blocks| ==> |blocks[i].advance| == |blocks[i].mints|
  }

  /** AddBlock for each block, in chain order. */
  function ConnectAll(s: RegistryState, blocks: seq<ConnectedBlock>): RegistryState
    requires Shaped(blocks)
    decreases |blocks|
  {
    if blocks == [] then s
    else
      var n := |blocks| - 1;
      var b := blocks[n];
      AddBlock(ConnectAll(s, blocks[..n]), b.height, b.mints, b.serials, b.advance)
  }

  /** RemoveBlock for each block, tip first. */
  ghost function DisconnectAll(s: RegistryState, blocks: seq<ConnectedBlock>): RegistryState
    decreases |blocks|
  {
    if blocks == [] then s
    else
      var n := |blocks| - 1;
      DisconnectAll(RemoveBlock(s, blocks[n].mints, blocks[n].serials), blocks[..n])
  }

  /** The coins minted by a run of blocks. */
  ghost function ChainCoins(blocks: seq<ConnectedBlock>): set<PublicCoin>
    decreases |blocks|
  {
    if blocks == [] then {} else ChainCoins(blocks[..|blocks| - 1]) + CoinSet(blocks[|blocks| - 1].mints)
  }

  /** The serials spent by a run of blocks. */
  ghost function ChainSerials(blocks: seq<ConnectedBlock>): set<Scalar>
    decreases |blocks|
  {
    if blocks == [] then {} else ChainSerials(blocks[..|blocks| - 1]) + blocks[|blocks| - 1].serials
  }

  /** The height of the tip once the blocks sit on a chain whose tip is at `base`. */
  function TipHeight(base: int, blocks: seq<ConnectedBlock>): int
  {
    if blocks == [] then base else blocks[|blocks| - 1].height
  }

  /**
   * The blocks extend a chain whose tip is at `base`: each one higher than
   * the last, minting only new coins and spending only unused serials, none
   * of them repeated by an earlier block.
   */
  ghost predicate FreshChain(s: RegistryState, base: int, blocks: seq<ConnectedBlock>)
    decreases |blocks|
  {
    blocks == [] ||
    var n := |blocks| - 1;
    var b := blocks[n];
    && FreshChain(s, base, blocks[..n])
    && TipHeight(base, blocks[..n]) < b.height
    && FreshCoins(s.mintedPubCoins, b.mints)
    && CoinSet(b.mints) !! ChainCoins(blocks[..n])
    && b.serials !! s.usedCoinSerials
    && b.serials !! ChainSerials(blocks[..n])
  }

  /** Connecting a run of blocks adds exactly their coins and their serials. */
  lemma {:induction false} ConnectAllRecords(s: RegistryState, blocks: seq<ConnectedBlock>)
    requires Shaped(blocks)
    ensures ConnectAll(s, blocks).mintedPubCoins.Keys == s.mintedPubCoins.Keys + ChainCoins(blocks)
    ensures ConnectAll(s, blocks).usedCoinSerials == s.usedCoinSerials + ChainSerials(blocks)
    ensures ConnectAll(s, blocks).mempoolCoinSerials == s.mempoolCoinSerials - ChainSerials(blocks)
    decreases |blocks|
  {
    if blocks != [] {
      var n := |blocks| - 1;
      var b := blocks[n];
      ConnectAllRecords(s, blocks[..n]);
      var u := ConnectAll(s, blocks[..n]);
      AddMintsKeys(u, b.height, b.mints, b.advance);
      AddMintsKeepsSerials(u, b.height, b.mints, b.advance);
    }
  }

  /** Connecting a fresh run of blocks keeps the registry consistent. */
  lemma {:induction false} ConnectAllValid(s: RegistryState, base: int, blocks: seq<ConnectedBlock>)
    requires Shaped(blocks) && Valid(s) && MintedAtOrBelow(s, base) && FreshChain(s, base, blocks)
    ensures Valid(ConnectAll(s, blocks))
    ensures MintedAtOrBelow(ConnectAll(s, blocks), TipHeight(base, blocks))
    decreases |blocks|
  {
    if blocks != [] {
      var n := |blocks| - 1;
      var b := blocks[n];
      var u := ConnectAll(s, blocks[..n]);
      ConnectAllValid(s, base, blocks[..n]);
      ConnectAllRecords(s, blocks[..n]);
      FreshBlockOnChain(s, u, blocks[..n], b);
      MintedBelowRaise(u, TipHeight(base, blocks[..n]), b.height);
      AddMintsValid(u, b.height, b.mints, b.advance);
      SerialsOutsideInvariant(AddMints(u, b.height, b.mints, b.advance), ConnectAll(s, blocks), b.height);
    }
  }

  /** The next block's coins are new to the registry the earlier blocks built. */
  lemma FreshBlockOnChain(s: RegistryState, u: RegistryState, prefix: seq<ConnectedBlock>, b: ConnectedBlock)
    requires FreshCoins(s.mintedPubCoins, b.mints) && CoinSet(b.mints) !! ChainCoins(prefix)
    requires u.mintedPubCoins.Keys == s.mintedPubCoins.Keys + ChainCoins(prefix)
    ensures FreshCoins(u.mintedPubCoins, b.mints)
  {
    forall i | 0 <= i < |b.mints| ensures b.mints[i].1 !in u.mintedPubCoins {
      assert b.mints[i].1 in CoinSet(b.mints);
    }
  }

  /** Raising the bound keeps every minted height below it. */
  lemma MintedBelowRaise(s: RegistryState, low: int, high: int)
    requires MintedAtOrBelow(s, low) && low <= high
    ensures MintedAtOrBelow(s, high)
  {
  }

  /** Disconnecting blocks never reads or writes the mempool map. */
  lemma {:induction false} DisconnectAllIgnoresMempool(s: RegistryState, m: map<Scalar, Uint256>, blocks: seq<ConnectedBlock>)
    ensures DisconnectAll(s.(mempoolCoinSerials := m), blocks) == DisconnectAll(s, blocks).(mempoolCoinSerials := m)
    decreases |blocks|
  {
    if blocks != [] {
      var n := |blocks| - 1;
      var b := blocks[n];
      var u := s.(mempoolCoinSerials := m);
      RemoveMintsFields(s, u, b.mints);
      RemoveMintsFields(s, s, b.mints);
      assert RemoveBlock(u, b.mints, b.serials) == RemoveBlock(s, b.mints, b.serials).(mempoolCoinSerials := m);
      DisconnectAllIgnoresMempool(RemoveBlock(s, b.mints, b.serials), m, blocks[..n]);
    }
  }

  /**
   * Connecting a run of fresh blocks and then disconnecting them tip first
   * restores the registry, except that the mempool has lost the serials the
   * blocks confirmed.
   */
  lemma {:induction false} ChainRoundTrip(s: RegistryState, base: int, blocks: seq<ConnectedBlock>)
    requires Shaped(blocks) && Valid(s) && MintedAtOrBelow(s, base) && FreshChain(s, base, blocks)
    ensures DisconnectAll(ConnectAll(s, blocks), blocks)
            == s.(mempoolCoinSerials := s.mempoolCoinSerials - ChainSerials(blocks))
    decreases |blocks|
  {
    if blocks != [] {
      var pre := blocks[..|blocks| - 1];
      var u := ConnectAll(s, pre);
      TipRoundTrip(s, base, blocks);
      ChainRoundTrip(s, base, pre);
      ConnectAllRecords(s, pre);
      MempoolLoss(s, DisconnectAll(u, pre), u.mempoolCoinSerials, ChainSerials(pre), blocks[|blocks| - 1].serials);
    }
  }

  /** Losing the serials of the earlier blocks and then those of the tip loses the serials of the whole run. */
  lemma MempoolLoss(s: RegistryState, restored: RegistryState, mempool: map<Scalar, Uint256>, earlier: set<Scalar>, tip: set<Scalar>)
    requires restored == s.(mempoolCoinSerials := s.mempoolCoinSerials - earlier)
    requires mempool == s.mempoolCoinSerials - earlier
    ensures restored.(mempoolCoinSerials := mempool - tip) == s.(mempoolCoinSerials := s.mempoolCoinSerials - (earlier + tip))
  {
    assert mempool - tip == s.mempoolCoinSerials - (earlier + tip);
  }

  /**
   * Disconnecting the tip block of a fresh run undoes its connection, less
   * the serials it confirmed, and leaves the shorter run to disconnect.
   */
  lemma TipRoundTrip(s: RegistryState, base: int, blocks: seq<ConnectedBlock>)
    requires Shaped(blocks) && Valid(s) && MintedAtOrBelow(s, base) && FreshChain(s, base, blocks)
    requires blocks != []
    ensures Shaped(blocks[..|blocks| - 1]) && FreshChain(s, base, blocks[..|blocks| - 1])
    ensures ChainSerials(blocks) == ChainSerials(blocks[..|blocks| - 1]) + blocks[|blocks| - 1].serials
    ensures var u := ConnectAll(s, blocks[..|blocks| - 1]);
            DisconnectAll(ConnectAll(s, blocks), blocks)
            == DisconnectAll(u, blocks[..|blocks| - 1]).(mempoolCoinSerials := u.mempoolCoinSerials - blocks[|blocks| - 1].serials)
  {
    var n := |blocks| - 1;
    var b := blocks[n];
    var pre := blocks[..n];
    var u := ConnectAll(s, pre);
    TipBlockRoundTrip(s, base, blocks);
    DisconnectAllIgnoresMempool(u, u.mempoolCoinSerials - b.serials, pre);
  }

  /** Disconnecting the tip block of a fresh run undoes its connection, less the serials it confirmed. */
  lemma TipBlockRoundTrip(s: RegistryState, base: int, blocks: seq<ConnectedBlock>)
    requires Shaped(blocks) && Valid(s) && MintedAtOrBelow(s, base) && FreshChain(s, base, blocks)
    requires blocks != []
    ensures var u := ConnectAll(s, blocks[..|blocks| - 1]);
            RemoveBlock(ConnectAll(s, blocks), blocks[|blocks| - 1].mints, blocks[|blocks| - 1].serials)
            == u.(mempoolCoinSerials := u.mempoolCoinSerials - blocks[|blocks| - 1].serials)
  {
    var n := |blocks| - 1;
    var b := blocks[n];
    var u := ConnectAll(s, blocks[..n]);
    ConnectAllValid(s, base, blocks[..n]);
    ConnectAllRecords(s, blocks[..n]);
    FreshBlockOnChain(s, u, blocks[..n], b);
    MintedBelowRaise(u, TipHeight(base, blocks[..n]), b.height);
    BlockRoundTrip(u, b.height, b.mints, b.serials, b.advance);
  }

  // ---------------------------------------------------------------------------
  // The anonymity set a spend is checked against
  // ---------------------------------------------------------------------------

  /** The coins block `h` of the chain minted into group `key`; none when it has no entry. */
  function MintsAt(chain: seq<BlockIndexEntry>, h: int, key: GroupKey): seq<PublicCoin>
    requires 0 <= h < |chain|
  {
    if key in chain[h].mintedPubCoins then chain[h].mintedPubCoins[key] else []
  }

  /** What block `h` contributes to the walk: its coins of group `key`, or none when it is above `maxHeight`. */
  function Share(chain: seq<BlockIndexEntry>, h: int, maxHeight: int, key: GroupKey): seq<PublicCoin>
    requires 0 <= h < |chain|
  {
    if h <= maxHeight then MintsAt(chain, h, key) else []
  }

  /**
   * The coins of group `key` walking from block `hi` down to block `lo`,
   * skipping blocks above `maxHeight`: highest block first, each block's
   * coins in their recorded order. Empty when `lo` is above `hi`.
   */
  function CoinsDown(chain: seq<BlockIndexEntry>, lo: int, hi: int, maxHeight: int, key: GroupKey): seq<PublicCoin>
    requires 0 <= lo <= hi + 1 && hi < |chain|
    decreases hi - lo + 1
  {
    if lo > hi then [] else CoinsDown(chain, lo + 1, hi, maxHeight, key) + Share(chain, lo, maxHeight, key)
  }

  /** The highest block from `hi` down to `lo`, at most `maxHeight`, that minted into group `key`. */
  function AnchorHeight(chain: seq<BlockIndexEntry>, lo: int, hi: int, maxHeight: int, key: GroupKey): (r: Option<int>)
    requires 0 <= lo <= hi + 1 && hi < |chain|
    ensures r.Some? ==> lo <= r.value <= hi && r.value <= maxHeight && MintsAt(chain, r.value, key) != []
    ensures r.Some? ==> forall y :: r.value < y <= hi && y <= maxHeight ==> MintsAt(chain, y, key) == []
    ensures r.None? ==> forall y :: lo <= y <= hi && y <= maxHeight ==> MintsAt(chain, y, key) == []
    decreases hi - lo + 1
  {
    if lo > hi then None
    else
      var above := AnchorHeight(chain, lo + 1, hi, maxHeight, key);
      if above.Some? then above
      else if Share(chain, lo, maxHeight, key) != [] then Some(lo)
      else None
  }

  /** GetCoinSetForSpend's answer: the coin count, the anchor block hash (when one was written) and the coins. */
  datatype CoinSetResult = CoinSetResult(count: int, blockHash: Option<Uint256>, coins: seq<PublicCoin>)

  /** Every recorded group has first and last blocks on the chain, first not above last. */
  ghost predicate ChainCovers(s: RegistryState, chain: seq<BlockIndexEntry>)
  {
    forall key :: key in s.coinGroups ==>
      && s.coinGroups[key].firstBlock.Some? && s.coinGroups[key].lastBlock.Some?
      && 0 <= s.coinGroups[key].firstBlock.value <= s.coinGroups[key].lastBlock.value < |chain|
  }

  /**
   * GetCoinSetForSpend: walk group (denomination, id) from its last block
   * down to its first, collecting the coins of the blocks at most
   * `maxHeight`; the anchor is the highest such block that minted into the
   * group. An unrecorded group gives no coins and writes no hash.
   */
  ghost function GetCoinSetForSpend(s: RegistryState, chain: seq<BlockIndexEntry>, maxHeight: int, denomination: int, id: int): (r: CoinSetResult)
    requires ChainCovers(s, chain)
    ensures r.count == |r.coins|
  {
    var key := GroupKey(denomination, id);
    if key !in s.coinGroups then CoinSetResult(0, None, [])
    else
      var g := s.coinGroups[key];
      var coins := CoinsDown(chain, g.firstBlock.value, g.lastBlock.value, maxHeight, key);
      var anchor := AnchorHeight(chain, g.firstBlock.value, g.lastBlock.value, maxHeight, key);
      CoinSetResult(|coins|, if anchor.Some? then Some(chain[anchor.value].blockHash) else None, coins)
  }

  /** Every coin a block of the chain lists is minted, in that block and in that group. */
  ghost predicate ChainRecords(s: RegistryState, chain: seq<BlockIndexEntry>)
  {
    forall h, key, i :: 0 <= h < |chain| && key in chain[h].mintedPubCoins && 0 <= i < |chain[h].mintedPubCoins[key]| ==>
      && chain[h].mintedPubCoins[key][i] in s.mintedPubCoins
      && s.mintedPubCoins[chain[h].mintedPubCoins[key][i]].Key() == key
      && s.mintedPubCoins[chain[h].mintedPubCoins[key][i]].nHeight == h
  }

  /** Every minted coin is listed by the block it was minted in, under its group. */
  ghost predicate ChainHolds(s: RegistryState, chain: seq<BlockIndexEntry>)
  {
    forall c :: c in s.mintedPubCoins ==>
      && 0 <= s.mintedPubCoins[c].nHeight < |chain|
      && c in MintsAt(chain, s.mintedPubCoins[c].nHeight, s.mintedPubCoins[c].Key())
  }

  /** Each minted coin carries the denomination of the group it was minted into. */
  ghost predicate DenominationsMatch(s: RegistryState)
  {
    forall c :: c in s.mintedPubCoins ==> s.mintedPubCoins[c].denomination == c.denomination
  }

  /** No block lists the same coin twice under one group. */
  ghost predicate ChainListsOnce(chain: seq<BlockIndexEntry>)
  {
    forall h, key, i, j :: 0 <= h < |chain| && key in chain[h].mintedPubCoins && 0 <= i < j < |chain[h].mintedPubCoins[key]| ==>
      chain[h].mintedPubCoins[key][i] != chain[h].mintedPubCoins[key][j]
  }

  /** No element of the sequence appears twice. */
  predicate Distinct<T(==)>(s: seq<T>)
  {
    forall i, j :: 0 <= i < j < |s| ==> s[i] != s[j]
  }

  /** AddMint files a coin under its own denomination. */
  lemma AddMintMatchesDenomination(s: RegistryState, height: int, coin: PublicCoin, advance: bool)
    requires DenominationsMatch(s)
    ensures DenominationsMatch(AddMint(s, height, coin, advance))
  {
  }

  /** A consistent registry whose coins all sit in their blocks has every group's blocks on the chain. */
  lemma ValidChainCovers(s: RegistryState, chain: seq<BlockIndexEntry>)
    requires Valid(s) && ChainHolds(s, chain)
    ensures ChainCovers(s, chain)
  {
    forall key | key in s.coinGroups
      ensures && s.coinGroups[key].firstBlock.Some? && s.coinGroups[key].lastBlock.Some?
              && 0 <= s.coinGroups[key].firstBlock.value <= s.coinGroups[key].lastBlock.value < |chain|
    {
      GroupOnChain(s, chain, key);
    }
  }

  /** The first and last blocks of a summarized group are blocks of a chain that holds its coins. */
  lemma GroupOnChain(s: RegistryState, chain: seq<BlockIndexEntry>, key: GroupKey)
    requires ChainHolds(s, chain)
    requires key in s.coinGroups && s.coinGroups[key] == Summary(s.mintedPubCoins, key) && s.coinGroups[key].nCoins >= 1
    ensures && s.coinGroups[key].firstBlock.Some? && s.coinGroups[key].lastBlock.Some?
            && 0 <= s.coinGroups[key].firstBlock.value <= s.coinGroups[key].lastBlock.value < |chain|
  {
    RecordedGroupHasHeights(s, key);
    var hs := Heights(s.mintedPubCoins, key);
    var lo := MinHeight(hs).value;
    var hi := MaxHeight(hs).value;
    assert lo in hs && hi in hs;
    var c :| c in s.mintedPubCoins.Keys && c in s.mintedPubCoins && s.mintedPubCoins[c].Key() == key && s.mintedPubCoins[c].nHeight == lo;
    var d :| d in s.mintedPubCoins.Keys && d in s.mintedPubCoins && s.mintedPubCoins[d].Key() == key && s.mintedPubCoins[d].nHeight == hi;
  }

  /** Every coin of the walk is a minted coin of the group, from a block in range and at most `maxHeight`. */
  lemma {:induction false} CoinsDownSound(s: RegistryState, chain: seq<BlockIndexEntry>, lo: int, hi: int, maxHeight: int, key: GroupKey)
    requires ChainRecords(s, chain) && 0 <= lo <= hi + 1 && hi < |chain|
    ensures forall c ::
              c in CoinsDown(chain, lo, hi, maxHeight, key)
              ==> (c in s.mintedPubCoins && s.mintedPubCoins[c].Key() == key
                   && lo <= s.mintedPubCoins[c].nHeight <= hi && s.mintedPubCoins[c].nHeight <= maxHeight)
    decreases hi - lo + 1
  {
    if lo <= hi {
      CoinsDownSound(s, chain, lo + 1, hi, maxHeight, key);
      forall c | c in Share(chain, lo, maxHeight, key)
        ensures c in s.mintedPubCoins && s.mintedPubCoins[c].Key() == key && s.mintedPubCoins[c].nHeight == lo
      {
        var i :| 0 <= i < |MintsAt(chain, lo, key)| && MintsAt(chain, lo, key)[i] == c;
      }
    }
  }

  /** Every minted coin of the group from a block in range and at most `maxHeight` is in the walk. */
  lemma {:induction false} CoinsDownComplete(s: RegistryState, chain: seq<BlockIndexEntry>, lo: int, hi: int, maxHeight: int, key: GroupKey)
    requires ChainHolds(s, chain) && 0 <= lo <= hi + 1 && hi < |chain|
    ensures forall c ::
              (c in s.mintedPubCoins && s.mintedPubCoins[c].Key() == key
               && lo <= s.mintedPubCoins[c].nHeight <= hi && s.mintedPubCoins[c].nHeight <= maxHeight)
              ==> c in CoinsDown(chain, lo, hi, maxHeight, key)
    decreases hi - lo + 1
  {
    if lo <= hi {
      CoinsDownComplete(s, chain, lo + 1, hi, maxHeight, key);
    }
  }

  /** The walk is empty exactly when no block it visits minted into the group. */
  lemma {:induction false} CoinsDownEmpty(chain: seq<BlockIndexEntry>, lo: int, hi: int, maxHeight: int, key: GroupKey)
    requires 0 <= lo <= hi + 1 && hi < |chain|
    ensures CoinsDown(chain, lo, hi, maxHeight, key) == [] <==> AnchorHeight(chain, lo, hi, maxHeight, key).None?
    decreases hi - lo + 1
  {
    if lo <= hi {
      CoinsDownEmpty(chain, lo + 1, hi, maxHeight, key);
    }
  }

  /** The walk over blocks spanning all of a group's mints holds exactly the group's coins minted at most `maxHeight`. */
  lemma CoinsOfGroup(s: RegistryState, chain: seq<BlockIndexEntry>, lo: int, hi: int, maxHeight: int, key: GroupKey)
    requires ChainRecords(s, chain) && ChainHolds(s, chain) && 0 <= lo <= hi + 1 && hi < |chain|
    requires forall c :: c in s.mintedPubCoins && s.mintedPubCoins[c].Key() == key ==> lo <= s.mintedPubCoins[c].nHeight <= hi
    ensures forall c ::
              c in CoinsDown(chain, lo, hi, maxHeight, key)
              <==> (c in s.mintedPubCoins && s.mintedPubCoins[c].Key() == key && s.mintedPubCoins[c].nHeight <= maxHeight)
  {
    CoinsDownSound(s, chain, lo, hi, maxHeight, key);
    CoinsDownComplete(s, chain, lo, hi, maxHeight, key);
  }

  /** A recorded group's first and last blocks bound the heights of all its coins. */
  lemma GroupSpansItsMints(s: RegistryState, key: GroupKey)
    requires key in s.coinGroups && s.coinGroups[key] == Summary(s.mintedPubCoins, key)
    requires s.coinGroups[key].firstBlock.Some? && s.coinGroups[key].lastBlock.Some?
    ensures forall c :: c in s.mintedPubCoins && s.mintedPubCoins[c].Key() == key
              ==> s.coinGroups[key].firstBlock.value <= s.mintedPubCoins[c].nHeight <= s.coinGroups[key].lastBlock.value
  {
    var hs := Heights(s.mintedPubCoins, key);
    forall c | c in s.mintedPubCoins && s.mintedPubCoins[c].Key() == key
      ensures s.coinGroups[key].firstBlock.value <= s.mintedPubCoins[c].nHeight <= s.coinGroups[key].lastBlock.value
    {
      assert s.mintedPubCoins[c].nHeight in hs;
    }
  }

  /**
   * On a chain that lists exactly the minted coins, the anonymity set of a
   * group holds exactly its coins minted at most `maxHeight`, and there is
   * an anchor hash exactly when that set is not empty.
   */
  lemma CoinSetForSpendSpec(s: RegistryState, chain: seq<BlockIndexEntry>, maxHeight: int, denomination: int, id: int)
    requires Valid(s) && DenominationsMatch(s) && ChainRecords(s, chain) && ChainHolds(s, chain)
    ensures ChainCovers(s, chain)
    ensures forall c ::
              c in GetCoinSetForSpend(s, chain, maxHeight, denomination, id).coins
              <==> (c in s.mintedPubCoins && c.denomination == denomination && s.mintedPubCoins[c].id == id
                    && s.mintedPubCoins[c].nHeight <= maxHeight)
    ensures GetCoinSetForSpend(s, chain, maxHeight, denomination, id).blockHash.None?
            <==> GetCoinSetForSpend(s, chain, maxHeight, denomination, id).coins == []
  {
    ValidChainCovers(s, chain);
    var key := GroupKey(denomination, id);
    if key in s.coinGroups {
      assert s.coinGroups[key] == Summary(s.mintedPubCoins, key);
      RecordedCoinSet(s, chain, maxHeight, key);
    } else {
      UnrecordedCoinSet(s, chain, maxHeight, key);
    }
  }

  /** The anonymity set of an unrecorded group is empty and unanchored, and no minted coin belongs to it. */
  lemma UnrecordedCoinSet(s: RegistryState, chain: seq<BlockIndexEntry>, maxHeight: int, key: GroupKey)
    requires ChainCovers(s, chain) && CoinsInGroups(s) && key !in s.coinGroups
    ensures GetCoinSetForSpend(s, chain, maxHeight, key.denomination, key.id) == CoinSetResult(0, None, [])
    ensures forall c :: c in s.mintedPubCoins ==> s.mintedPubCoins[c].Key() != key
  {
  }

  /** The anonymity set of a recorded group: its coins minted at most `maxHeight`, anchored exactly when there are any. */
  lemma RecordedCoinSet(s: RegistryState, chain: seq<BlockIndexEntry>, maxHeight: int, key: GroupKey)
    requires ChainCovers(s, chain) && DenominationsMatch(s) && ChainRecords(s, chain) && ChainHolds(s, chain)
    requires key in s.coinGroups && s.coinGroups[key] == Summary(s.mintedPubCoins, key)
    ensures forall c ::
              c in GetCoinSetForSpend(s, chain, maxHeight, key.denomination, key.id).coins
              <==> (c in s.mintedPubCoins && c.denomination == key.denomination && s.mintedPubCoins[c].id == key.id
                    && s.mintedPubCoins[c].nHeight <= maxHeight)
    ensures GetCoinSetForSpend(s, chain, maxHeight, key.denomination, key.id).blockHash.None?
            <==> GetCoinSetForSpend(s, chain, maxHeight, key.denomination, key.id).coins == []
  {
    var g := s.coinGroups[key];
    GroupSpansItsMints(s, key);
    CoinsOfGroup(s, chain, g.firstBlock.value, g.lastBlock.value, maxHeight, key);
    CoinsDownEmpty(chain, g.firstBlock.value, g.lastBlock.value, maxHeight, key);
  }

  /** A sequence without repeats has as many elements as its set. */
  lemma {:induction false} DistinctCard<T>(xs: seq<T>)
    requires Distinct(xs)
    ensures |set x | x in xs| == |xs|
    decreases |xs|
  {
    if xs != [] {
      var n := |xs| - 1;
      var pre := xs[..n];
      assert Distinct(pre);
      DistinctCard(pre);
      assert (set x | x in xs) == (set x | x in pre) + {xs[n]} by {
        forall x | x in xs ensures x in pre || x == xs[n] {
          var i :| 0 <= i < |xs| && xs[i] == x;
          if i < n {
            assert pre[i] == x;
          }
        }
      }
      assert xs[n] !in pre by {
        forall i | 0 <= i < n ensures pre[i] != xs[n] {
        }
      }
    }
  }

  /** On a chain that lists each coin once per block, the walk never repeats a coin. */
  lemma {:induction false} CoinsDownDistinct(s: RegistryState, chain: seq<BlockIndexEntry>, lo: int, hi: int, maxHeight: int, key: GroupKey)
    requires ChainRecords(s, chain) && ChainListsOnce(chain) && 0 <= lo <= hi + 1 && hi < |chain|
    ensures Distinct(CoinsDown(chain, lo, hi, maxHeight, key))
    decreases hi - lo + 1
  {
    if lo <= hi {
      var above := CoinsDown(chain, lo + 1, hi, maxHeight, key);
      var here := Share(chain, lo, maxHeight, key);
      CoinsDownDistinct(s, chain, lo + 1, hi, maxHeight, key);
      CoinsDownSound(s, chain, lo + 1, hi, maxHeight, key);
      assert forall c :: c in here ==> c in s.mintedPubCoins && s.mintedPubCoins[c].nHeight == lo;
      var all := above + here;
      forall i, j | 0 <= i < j < |all| ensures all[i] != all[j] {
        if j < |above| {
          assert all[i] == above[i] && all[j] == above[j];
        } else if i >= |above| {
          assert all[i] == here[i - |above|] && all[j] == here[j - |above|];
        } else {
          assert all[i] in above && all[j] in here;
        }
      }
    }
  }

  /** The minted coins of group (denomination, id) at height at most `maxHeight`. */
  ghost function EligibleCoins(s: RegistryState, denomination: int, id: int, maxHeight: int): set<PublicCoin>
  {
    set c | c in s.mintedPubCoins && c.denomination == denomination && s.mintedPubCoins[c].id == id
            && s.mintedPubCoins[c].nHeight <= maxHeight
  }

  /** A sequence without repeats whose elements are exactly a set has that set's size. */
  lemma DistinctListsSet<T>(xs: seq<T>, S: set<T>)
    requires Distinct(xs) && forall x :: x in xs <==> x in S
    ensures |xs| == |S|
  {
    DistinctCard(xs);
    assert (set x | x in xs) == S;
  }

  /** On a chain that lists each coin once per block, the anonymity set never repeats a coin. */
  lemma CoinSetDistinct(s: RegistryState, chain: seq<BlockIndexEntry>, maxHeight: int, denomination: int, id: int)
    requires ChainCovers(s, chain) && ChainRecords(s, chain) && ChainListsOnce(chain)
    ensures Distinct(GetCoinSetForSpend(s, chain, maxHeight, denomination, id).coins)
  {
    var key := GroupKey(denomination, id);
    if key in s.coinGroups {
      var g := s.coinGroups[key];
      CoinsDownDistinct(s, chain, g.firstBlock.value, g.lastBlock.value, maxHeight, key);
    }
  }

  /**
   * On a chain that lists each coin once per block, the count
   * GetCoinSetForSpend returns is the number of minted coins with the
   * requested denomination and id at height at most `maxHeight`.
   */
  lemma CoinSetCount(s: RegistryState, chain: seq<BlockIndexEntry>, maxHeight: int, denomination: int, id: int)
    requires Valid(s) && DenominationsMatch(s) && ChainRecords(s, chain) && ChainHolds(s, chain) && ChainListsOnce(chain)
    ensures ChainCovers(s, chain)
    ensures GetCoinSetForSpend(s, chain, maxHeight, denomination, id).count == |EligibleCoins(s, denomination, id, maxHeight)|
  {
    CoinSetForSpendSpec(s, chain, maxHeight, denomination, id);
    CoinSetDistinct(s, chain, maxHeight, denomination, id);
    DistinctListsSet(GetCoinSetForSpend(s, chain, maxHeight, denomination, id).coins, EligibleCoins(s, denomination, id, maxHeight));
  }

  /** When `maxHeight` reaches a group's last block, its eligible coins are all its coins. */
  lemma EligibleIsGroup(s: RegistryState, maxHeight: int, key: GroupKey)
    requires DenominationsMatch(s)
    requires key in s.coinGroups && s.coinGroups[key] == Summary(s.mintedPubCoins, key)
    requires s.coinGroups[key].firstBlock.Some? && s.coinGroups[key].lastBlock.Some?
    requires s.coinGroups[key].lastBlock.value <= maxHeight
    ensures EligibleCoins(s, key.denomination, key.id, maxHeight) == Coins(s.mintedPubCoins, key)
  {
    GroupSpansItsMints(s, key);
  }

  /**
   * When `maxHeight` reaches a group's last block, GetCoinSetForSpend
   * counts every coin of the group: the count is the group's coin count.
   */
  lemma CoinSetCoversGroup(s: RegistryState, chain: seq<BlockIndexEntry>, maxHeight: int, key: GroupKey)
    requires Valid(s) && DenominationsMatch(s) && ChainRecords(s, chain) && ChainHolds(s, chain) && ChainListsOnce(chain)
    requires key in s.coinGroups && s.coinGroups[key].lastBlock.Some? && s.coinGroups[key].lastBlock.value <= maxHeight
    ensures ChainCovers(s, chain)
    ensures GetCoinSetForSpend(s, chain, maxHeight, key.denomination, key.id).count == s.coinGroups[key].nCoins
  {
    CoinSetCount(s, chain, maxHeight, key.denomination, key.id);
    assert s.coinGroups[key] == Summary(s.mintedPubCoins, key);
    RecordedGroupHasFirstBlock(s, key);
    EligibleIsGroup(s, maxHeight, key);
  }
}
