# Zerocoin v3 coin registry and HD mint tracker

This project models two bookkeeping components of the privacy-coin layer and proves their properties.

**The consensus coin registry.** `CZerocoinStateV3` in `src/zerocoin_v3.h` keeps five collections:
- the coin groups: (denomination, id) mapped to the first block, the last block and the coin count;
- the minted public coins, each mapped to its denomination, id and height;
- the latest group id of each denomination;
- the serials revealed by confirmed spends;
- the serials claimed by spends still in the mempool, each mapped to its transaction hash.

Blocks connect through `AddBlock` and disconnect through `RemoveBlock`, using the per-block record `CZerocoinTxInfoV3`. The registry arbitrates double spends between the chain and the mempool. `GetCoinSetForSpend` builds the anonymity set that a spend proof is checked against.

**The wallet's mint tracker.** `CHDMintTracker` in `src/hdmint/tracker.cpp` indexes the wallet's own mints by serial hash and records pending spends. It answers balance and listing queries over that index. The model takes both maps to be `std::map`s keyed by `uint256`, so the tracker's loops visit keys in the order of `uint256`'s `memcmp` comparison.

Files:

- `zerocoin_types.dfy` (module `ZerocoinTypes`) holds the value types:
  - the group and minted-coin records;
  - the five registry collections as one value, `RegistryState`;
  - the version-3 activation test `IsZerocoinTxV3`.
- `coin_registry.dfy` (module `CoinRegistry`) states every registry operation as a function on `RegistryState`. It also holds:
  - the consistency invariant `Valid`, which says group records summarise their coins and latest ids name live groups;
  - the "at most one claimant per serial" invariant `NoDoubleClaim`;
  - the lemmas about both.
- `zerocoin_state.dfy` (module `ZerocoinV3`) holds the classes `ZerocoinTxInfoV3` and `ZerocoinStateV3`. Every method that changes the registry updates the fields in place and is proved equal to the `CoinRegistry` function of the same name. The query methods (`IsUsedCoinSerial`, `HasCoin`, `CanAddSpendToMempool`, `GetMempoolConflictingTxHash`, `GetMintedCoinHeightAndId`) change nothing; their contracts speak of the fields directly.
- `uint256_order.dfy` (module `Uint256Order`) defines three things:
  - the `uint256` order, comparing bytes with the least significant byte first;
  - a proof that this order is a strict total order;
  - `OrderedKeys`, which lists a map's keys in the order a `std::map` visits them.
- `hdmint_tracker.dfy` (module `HDMintTracker`) holds:
  - the class `MintTracker`, with the two maps as fields;
  - the specification functions for what each query selects;
  - lemmas about balances, listings and pending spends.

Inputs the model takes as parameters:
- **The activation rule.** The network flag and the per-denomination switch ids.
- **The group-advance decision.** The rule for when a denomination opens its next group is not visible in the source. Each mint gets an `advance` flag instead.
- **Block positions.** A `CBlockIndex*` becomes a block height. The block index that `GetCoinSetForSpend` walks becomes a sequence of blocks indexed by height.
- **The two hash functions.** The public-coin hash and the serial hash are fields of the tracker.
- **Denomination values.** The value of a denomination is a function.
- **The chain tip.** The tip height is a number.
- **Wallet-database steps.** Only whether each step succeeds enters the model (`DbOutcome`).

## Model

| member | source | states |
|---|---|---|
| ZerocoinTypes.IsZerocoinTxV3Threshold | src/zerocoin_v3.h:22-39 | a coin id is version 3 exactly when it reaches the switch id of its denomination on the selected network |
| ZerocoinTypes.IsZerocoinTxV3Monotone | src/zerocoin_v3.h:22-39 | once an id of a denomination is version 3, every larger id of that denomination is too |
| ZerocoinTypes.EmptyCoinGroupIsFresh | src/zerocoin_v3.h:99-107 | a default-constructed group record has no first block, no last block and zero coins |
| CoinRegistry.EmptyRegistryValid | src/zerocoin_v3.h:125-145 | the empty registry satisfies the consistency invariant |
| CoinRegistry.RecordedGroupHasFirstBlock | src/zerocoin_v3.h:98-107 | in a consistent registry every recorded group has a first block |
| CoinRegistry.GetCoinGroupInfo | src/zerocoin_v3.h:161-162 | a group record is found exactly when the (denomination, id) group exists, and the record found is the stored one |
| CoinRegistry.AddMintValid | src/zerocoin_v3.h:147-150 | minting a new coin at or above every earlier height keeps the invariant: every group record is the min and max height and the count of its coins, ids run from 1 to the latest id, and the latest id names a group |
| CoinRegistry.AddMintLifecycle | src/zerocoin_v3.h:147-150 | after AddMint the coin is known, its height-and-id query gives the block height and the assigned id (at least 1), its group gains one coin (or is created with one coin at that height), and the denomination's latest id becomes that id |
| CoinRegistry.AddMintMatchesDenomination | src/zerocoin_v3.h:147-150 | AddMint files a coin under its own denomination |
| CoinRegistry.MintKeyOfRecordedGroup | src/zerocoin_v3.h:135-136 | a coin joins an existing group only when that group is its denomination's latest one; otherwise it opens group 1 of a new denomination or the group right after the latest one |
| CoinRegistry.RemoveMintUndoesAddMint | src/zerocoin_v3.h:158-159 | undoing a mint right after making it restores the whole registry |
| CoinRegistry.AddMintsValid | src/zerocoin_v3.h:155-156 | applying a block's new, distinct coins in order keeps the invariant, with every coin at or below the block height |
| CoinRegistry.AddMintsKeys | src/zerocoin_v3.h:155-156 | applying a block's mints adds exactly the block's coins to the minted coins |
| CoinRegistry.RemoveMintsUndoesAddMints | src/zerocoin_v3.h:158-159 | undoing a block's mints, last first, restores the registry they were applied to |
| CoinRegistry.AddBlockValid | src/zerocoin_v3.h:155-156 | AddBlock keeps the invariant, adds the block's coins, marks its serials used and removes them from the mempool map |
| CoinRegistry.BlockRoundTrip | src/zerocoin_v3.h:155-159 | RemoveBlock after AddBlock of a block with new coins and unused serials restores the groups, the minted coins, the latest ids and the used serials; the mempool map keeps everything except the block's serials |
| CoinRegistry.SerialsOutsideInvariant | src/zerocoin_v3.h:125-142 | the consistency invariant depends only on the three mint maps, never on the two serial collections |
| CoinRegistry.ConnectAllRecords | src/zerocoin_v3.h:155-156 | connecting a run of blocks adds exactly their coins and their serials to the used set, and drops those serials from the mempool map |
| CoinRegistry.ConnectAllValid | src/zerocoin_v3.h:155-156 | connecting a run of increasing, fresh blocks keeps the invariant |
| CoinRegistry.DisconnectAllIgnoresMempool | src/zerocoin_v3.h:158-159 | disconnecting blocks neither reads nor writes the mempool map |
| CoinRegistry.ChainRoundTrip | src/zerocoin_v3.h:155-159 | disconnecting a run of fresh blocks, tip first, right after connecting them restores the registry, except that the mempool map has lost every serial the run confirmed |
| CoinRegistry.AddSpendMarksUsed | src/zerocoin_v3.h:152-153 | after AddSpend the serial is used, every other serial keeps its status, and the mempool map is unchanged |
| CoinRegistry.AddSpendToMempoolSpec | src/zerocoin_v3.h:200-205 | AddSpendToMempool succeeds exactly when the serial is neither used nor pending; on success the conflicting hash is the new transaction; on failure nothing changes; the used serials never change |
| CoinRegistry.MempoolClaimCycle | src/zerocoin_v3.h:197-208 | a second claim on a pending serial fails, and removing the pending spend frees the serial and restores the registry |
| CoinRegistry.RemoveSpendFromMempoolSpec | src/zerocoin_v3.h:207-208 | removing a mempool spend clears only that serial's entry and leaves the used serials untouched |
| CoinRegistry.NoDoubleClaimPreserved | src/zerocoin_v3.h:197-208 | no serial is both used and pending, and AddSpendToMempool, RemoveSpendFromMempool, AddBlock, RemoveBlock and Reset all keep it so |
| CoinRegistry.AddSpendCanDoubleClaim | src/zerocoin_v3.h:152-153 | a bare AddSpend of a serial a mempool spend holds leaves that serial with two claimants, which is why blocks must drop their serials from the mempool |
| CoinRegistry.AnchorHeight | src/zerocoin_v3.h:170-179 | the anchor is the highest block in range, at most maxHeight, that minted into the group; none exists when no such block did |
| CoinRegistry.GetCoinSetForSpend | src/zerocoin_v3.h:170-179 | the returned count equals the number of coins returned |
| CoinRegistry.CoinsDownSound | src/zerocoin_v3.h:170-179 | every coin of the walk is a minted coin of the group, from a block in range and at most maxHeight |
| CoinRegistry.CoinsDownComplete | src/zerocoin_v3.h:170-179 | every minted coin of the group from a block in range and at most maxHeight is in the walk |
| CoinRegistry.CoinsDownEmpty | src/zerocoin_v3.h:170-179 | the walk is empty exactly when it finds no anchor block |
| CoinRegistry.ValidChainCovers | src/zerocoin_v3.h:98-107 | in a consistent registry whose coins sit in their blocks, every group's first and last blocks lie on the chain, first not above last |
| CoinRegistry.GroupSpansItsMints | src/zerocoin_v3.h:98-107 | a group's first and last blocks bound the heights of all its coins |
| CoinRegistry.CoinsOfGroup | src/zerocoin_v3.h:170-179 | walking over blocks that span a group gives exactly the group's coins minted at most maxHeight |
| CoinRegistry.CoinSetForSpendSpec | src/zerocoin_v3.h:170-179 | the anonymity set holds exactly the minted coins with the requested denomination and id and height at most maxHeight, and an anchor hash is written exactly when that set is not empty |
| CoinRegistry.RecordedCoinSet | src/zerocoin_v3.h:170-179 | the same, for a group that has a record |
| CoinRegistry.UnrecordedCoinSet | src/zerocoin_v3.h:170-179 | a group without a record gives count 0, no coins and no hash, and no minted coin belongs to it |
| CoinRegistry.CoinsDownDistinct | src/zerocoin_v3.h:170-179 | on a chain that lists each coin once per block, the walk never repeats a coin |
| CoinRegistry.CoinSetCount | src/zerocoin_v3.h:170-179 | on such a chain, the returned count is the number of minted coins with the requested denomination and id at height at most maxHeight |
| CoinRegistry.CoinSetCoversGroup | src/zerocoin_v3.h:170-179 | on such a chain, when maxHeight reaches the group's last block, the returned count is the group's coin count |
| ZerocoinV3.ZerocoinTxInfoV3.constructor | src/zerocoin_v3.h:64 | a new block record is empty and not complete |
| ZerocoinV3.ZerocoinTxInfoV3.Complete | src/zerocoin_v3.h:66-67 | Complete marks the record complete and changes nothing else |
| ZerocoinV3.ZerocoinStateV3.constructor | src/zerocoin_v3.h:145 | a new registry is empty, consistent and free of double claims |
| ZerocoinV3.ZerocoinStateV3.AddMint | src/zerocoin_v3.h:147-150 | the new state is the AddMint transition, and the returned id is the assigned id, at least 1 |
| ZerocoinV3.ZerocoinStateV3.AddSpend | src/zerocoin_v3.h:152-153 | the new state is the AddSpend transition |
| ZerocoinV3.ZerocoinStateV3.AddBlock | src/zerocoin_v3.h:155-156 | after looping over the block's mints, the new state is the AddBlock transition |
| ZerocoinV3.ZerocoinStateV3.RemoveBlock | src/zerocoin_v3.h:158-159 | after looping over the block's mints from the last one back, the new state is the RemoveBlock transition |
| ZerocoinV3.ZerocoinStateV3.RemoveMint | src/zerocoin_v3.h:158-159 | the new state is the single-mint undo: the coin is gone, an emptied group is dropped and its id given back, otherwise the last block rolls back |
| ZerocoinV3.LastMintHeight | src/zerocoin_v3.h:158-159 | the loop finds the highest block still holding a coin of the group |
| ZerocoinV3.ZerocoinStateV3.GetCoinGroupInfo | src/zerocoin_v3.h:161-162 | found exactly when the group exists; the out-parameter is the stored record when found and is untouched otherwise |
| ZerocoinV3.ZerocoinStateV3.IsUsedCoinSerial | src/zerocoin_v3.h:164-165 | true exactly when the serial is in the used set |
| ZerocoinV3.ZerocoinStateV3.HasCoin | src/zerocoin_v3.h:167-168 | true exactly when the public coin has been minted |
| ZerocoinV3.ZerocoinStateV3.GetCoinSetForSpend | src/zerocoin_v3.h:170-179 | count, anchor hash and coins are those of the specification walk, and the count is the number of coins |
| ZerocoinV3.WalkGroup | src/zerocoin_v3.h:170-179 | the downward loop over the group's blocks collects exactly the specified coins and takes the hash of the highest contributing block |
| ZerocoinV3.ZerocoinStateV3.GetMintedCoinHeightAndId | src/zerocoin_v3.h:189-192 | a minted coin's height and id; (-1, -1) for a coin never minted |
| ZerocoinV3.ZerocoinStateV3.Reset | src/zerocoin_v3.h:194-195 | every collection is empty again |
| ZerocoinV3.ZerocoinStateV3.CanAddSpendToMempool | src/zerocoin_v3.h:197-198 | true exactly when the serial is neither used nor pending |
| ZerocoinV3.ZerocoinStateV3.AddSpendToMempool | src/zerocoin_v3.h:200-202 | state and result are those of the AddSpendToMempool transition |
| ZerocoinV3.ZerocoinStateV3.GetMempoolConflictingTxHash | src/zerocoin_v3.h:204-205 | the pending transaction's hash, or the null hash when the serial is not pending |
| ZerocoinV3.ZerocoinStateV3.RemoveSpendFromMempool | src/zerocoin_v3.h:207-208 | the new state is the RemoveSpendFromMempool transition |
| Uint256Order.KeyLessIsStrictTotalOrder | src/hdmint/tracker.cpp:104-116 | the byte-wise uint256 comparison the index is sorted by is irreflexive, transitive and total |
| Uint256Order.OrderedKeys | src/hdmint/tracker.cpp:104-116 | the map's keys, each exactly once, in ascending uint256 order |
| HDMintTracker.MetaOfHDMint | src/hdmint/tracker.cpp:266-279 | the metadata of a seed-derived mint carries its serial hash and transaction hash, is deterministic and seed-correct, and has the given archive flag |
| HDMintTracker.MetaOfSigmaEntry | src/hdmint/tracker.cpp:291-304 | the metadata of a stored mint carries the hash of its serial and a null txid, is not deterministic, is seed-correct, and has the given archive flag |
| HDMintTracker.SelectSpec | src/hdmint/tracker.cpp:104-116 | filtering an ascending run of keys gives an ascending run of exactly the accepted keys |
| HDMintTracker.SelectedEntries | src/hdmint/tracker.cpp:159-172 | when every entry is filed under its own serial hash, the entries a filtering walk keeps come in serial-hash order, each is the stored entry and passes the filter, and every entry passing the filter is kept |
| HDMintTracker.FirstWithPubcoin | src/hdmint/tracker.cpp:92-102 | the first key, in map order, whose entry's public coin has the hash; none when no entry has it |
| HDMintTracker.FirstPendingFor | src/hdmint/tracker.cpp:333-344 | the first key, in map order, of a pending spend by the transaction; none when it has none |
| HDMintTracker.BalancePartition | src/hdmint/tracker.cpp:118-152 | the confirmed-only and unconfirmed-only balances add up to the unrestricted balance |
| HDMintTracker.BalanceBothFlagsIsZero | src/hdmint/tracker.cpp:118-152 | asking for confirmed-only and unconfirmed-only together counts nothing |
| HDMintTracker.ConfirmedBalanceAtMostTotal | src/hdmint/tracker.cpp:118-152 | with non-negative denomination values the confirmed balance lies between 0 and the unrestricted balance |
| HDMintTracker.UnfilteredListIsSerialHashes | src/hdmint/tracker.cpp:626-686 | ListMints with no filter, and with seed-incorrect mints allowed, lists exactly the keys GetSerialHashes returns, in the same order |
| HDMintTracker.MaturityPersists | src/hdmint/tracker.cpp:626-686 | a mint ListMints counts as mature stays mature as the tip rises |
| HDMintTracker.PendingAfterUsed | src/hdmint/tracker.cpp:310-318 | the serial hash becomes pending; an existing pending spend for it is kept; every other entry is unchanged |
| HDMintTracker.UsedThenNotUsed | src/hdmint/tracker.cpp:310-331 | marking a coin used and then unused, with no spend pending before, leaves the pending table as it was |
| HDMintTracker.MintTracker.constructor | src/hdmint/tracker.cpp:22-28 | a new tracker has no mints and no pending spends |
| HDMintTracker.MintTracker.Archive | src/hdmint/tracker.cpp:45-61 | an existing entry is flagged archived and kept, a missing one is not added, pending spends are unchanged, and the result is whether the database read and archive both succeeded |
| HDMintTracker.MintTracker.GetMetaFromSerial | src/hdmint/tracker.cpp:82-90 | found exactly when the serial hash is indexed (the same test as HasSerialHash), returning the stored entry |
| HDMintTracker.MintTracker.GetMetaFromPubcoin | src/hdmint/tracker.cpp:92-102 | the loop returns the first entry, in map order, whose public coin has the hash, or reports none |
| HDMintTracker.MintTracker.GetSerialHashes | src/hdmint/tracker.cpp:104-116 | the loop returns, in ascending order, exactly the serial hashes of the unarchived entries |
| HDMintTracker.MintTracker.GetBalance | src/hdmint/tracker.cpp:118-152 | the loop returns the sum of the denomination values of the unused, unarchived entries on the side of the confirmation test the flags select (below tip − 6 and not at height 0), clamped at 0 |
| HDMintTracker.MintTracker.GetMints | src/hdmint/tracker.cpp:159-172 | the loop returns, in ascending serial-hash order, each entry as stored: with fInactive set, archived and used entries are left out, otherwise every entry is kept; with fConfirmedOnly, only entries below tip − 6 are kept; every entry passing both tests is returned |
| HDMintTracker.MintTracker.HasMintTx | src/hdmint/tracker.cpp:175-183 | true exactly when some entry was minted by the transaction |
| HDMintTracker.MintTracker.HasPubcoinHash | src/hdmint/tracker.cpp:185-193 | true exactly when some entry's public coin has the hash |
| HDMintTracker.MintTracker.HasSerialHash | src/hdmint/tracker.cpp:195-199 | true exactly when the serial hash is indexed |
| HDMintTracker.MintTracker.UpdateState | src/hdmint/tracker.cpp:201-264 | the entry is stored under its serial hash exactly when the database steps succeed (for a deterministic mint, the read or else the unarchive of an archived one, then the write); otherwise nothing changes |
| HDMintTracker.MintTracker.AddHDMint | src/hdmint/tracker.cpp:266-289 | the seed-derived mint's metadata is stored under its serial hash, replacing any earlier entry; pending spends are unchanged |
| HDMintTracker.MintTracker.AddSigmaEntry | src/hdmint/tracker.cpp:291-308 | the stored mint's metadata is stored under the hash of its serial, replacing any earlier entry; pending spends are unchanged |
| HDMintTracker.MintTracker.SetPubcoinUsed | src/hdmint/tracker.cpp:310-318 | an unknown coin changes nothing; otherwise the first matching entry's serial hash becomes pending for the transaction without overwriting an earlier claim, and the entry is stored as used when the update succeeds |
| HDMintTracker.MintTracker.SetPubcoinNotUsed | src/hdmint/tracker.cpp:320-331 | an unknown coin changes nothing; otherwise the first matching entry's pending spend is dropped, and the entry is stored as unused when the update succeeds |
| HDMintTracker.MintTracker.RemovePending | src/hdmint/tracker.cpp:333-344 | only the first pending spend, in map order, made by the transaction is dropped, and none when its serial hash is null; the index is unchanged |
| HDMintTracker.MintTracker.ListMints | src/hdmint/tracker.cpp:626-686 | the loop returns, in ascending serial-hash order, each entry as stored, exactly the unarchived entries that pass the filters: unused when asked, mature (height not 0 and height + 5 at most the tip) when asked, and seed-correct unless wrong seeds are allowed |
| HDMintTracker.MintTracker.Clear | src/hdmint/tracker.cpp:699-702 | the index is emptied and the pending spends are kept |

## Left out

- The bodies of the registry methods are not part of this model: `src/zerocoin_v3.h` only declares them. Their behaviour follows the doc comments in the header, and the model makes these choices:
  - `AddMint` takes the block's height and an `advance` flag in place of a `CBlockIndex*`. The rule that closes a group is external to the registry.
  - `RemoveBlock` undoes each mint. A group left without coins is dropped, and its denomination's latest id steps back by one; the entry is removed if the id was 1. Otherwise the group's count drops and its last block rolls back to the highest block still holding one of its coins. This roll-back rule is the model's own choice; the header does not say how the last block is recomputed. An emptied group record is dropped rather than kept with its block positions cleared, so every recorded group holds at least one coin, and an id steps back exactly when its group empties.
  - `AddBlock` removes the block's serials from the mempool map, so that a confirmed serial has no mempool claimant left (the comment on `RemoveSpendFromMempool`, `src/zerocoin_v3.h:207`, names a transaction entering a block as the usual reason to drop a mempool spend). `RemoveBlock` cannot put them back, because the transaction hashes are gone. So disconnecting a block restores four of the five collections exactly, and the mempool map loses the block's serials. `BlockRoundTrip` and `ChainRoundTrip` state this exact form.
- ChainRoundTrip: proved for blocks at increasing heights that mint only new coins and spend only unused serials. These are the conditions block validation enforces before a block is connected.
- CoinRegistry.GetCoinSetForSpend: the coins come back highest block first, each block's coins in the order the block lists them, because the walk starts at the group's last block and steps down to its first. A walk from the first block upwards would give the reverse block order. The header promises no order. The anchor is the highest block that contributes, which is also the last block a forward walk would include.
- CoinRegistry.GetCoinSetForSpend: the count equals the number of eligible coins, and the group's `nCoins` when maxHeight reaches its last block, only on a chain that lists each coin at most once per block (`ChainListsOnce`, used by `CoinSetCount` and `CoinSetCoversGroup`). Without that hypothesis a block listing a coin twice would make the count 2 for a group with one coin.
- CoinRegistry.AddSpend: the registry treats confirming an already used serial as a fatal internal inconsistency; the model has no such stop and simply keeps the serial in the used set. The same holds for `AddBlock` with such a serial, and for `RemoveMint`/`RemoveBlock` undoing a coin that was never minted, which leave the registry unchanged. The round-trip lemmas (`BlockRoundTrip`, `ChainRoundTrip`) require fresh coins and unused serials instead.
- ZerocoinV3.ZerocoinStateV3.GetMintedCoinHeightAndId: the denomination argument is not consulted, because the coin itself carries its denomination. The (-1, -1) answer for an unknown coin follows the convention the tracker relies on.
- ZerocoinV3.ZerocoinTxInfoV3.Complete: its body is not in the source. The model only sets the completion flag.
- `AddSpend` alone does not keep `NoDoubleClaim` (`AddSpendCanDoubleClaim`). Only the block and mempool transitions are proved to keep it.
- Zero-knowledge proof checking, `CheckZerocoinTransactionV3`, `ZCParamsV3`, and the group algebra of `Scalar` and `GroupElement`. Coins and serials are opaque values with equality only.
- The hash functors `pairhash`, `CScalarHash` and `CPublicCoinHash`. The model uses Dafny maps instead.
- The process singleton `GetZerocoinState`. The `Params()` network lookup becomes a parameter of `IsZerocoinTxV3`.
- `ConnectBlockZCV3`, `DisconnectTipZCV3` and `ZerocoinBuildStateFromIndexV3` are only declared. Blocks are heights with a per-block record.
- The concrete switch-id constants are not in the source shown. They are parameters.
- `uint256.h`, the definition of `CMintMeta` and the tracker's header `tracker.h` are not part of this model:
  - `mapSerialHashes` and `mapPendingSpends` are taken to be `std::map`s, so loops visit keys in ascending `uint256` order;
  - `uint256` values are numbers below 2^256, with 0 as the null hash;
  - their `<` compares the stored bytes with `memcmp`, least significant byte first;
  - `ZC_MINT_CONFIRMATIONS` is taken to be 6.
- Wallet database reads and writes (`CWalletDB`) appear only as the success flags in `DbOutcome`:
  - the write `Add` makes for a new mint, and the database fields `UpdateState` rewrites, are not modelled;
  - the chain lookup of height and id that `UpdateState` makes for a mint without them only affects the database record, so it is not modelled.
- UI notifications (`NotifyZerocoinChanged`) and logging.
- `GetUnconfirmedBalance` is `GetBalance` with only the unconfirmed flag set, so it needs no member of its own.
- `Init`, `UnArchive`, `MintsAsSigmaEntries`, `IsMempoolSpendOurs`, `UpdateMetaStatus`, `UpdateFromBlock` and the four `UpdateMint`/`UpdateSpend` methods. These read the mempool, the chain or the database. The same holds for the `fLoad` and `fUpdateStatus` paths of `ListMints`, which the model takes as false.
- HDMintTracker.MintTracker.GetBalance: `CAmount` is a 64-bit integer, and the model adds without overflow.
- HDMintTracker.MintTracker.GetBalance: the per-denomination counter `mySigmaSupply` is not modelled, because nothing reads it. Its `at` lookup would throw for a denomination outside the known list; the model assumes every entry has a known denomination.
- Locking (`LOCK2`) and concurrent access. Every operation is atomic in the model.
