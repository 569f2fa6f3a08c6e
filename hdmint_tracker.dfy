/**
 * The in-memory part of the wallet's mint tracker (CHDMintTracker,
 * hdmint/tracker.cpp): an index from serial hash to mint metadata and a
 * table of pending spends, with the queries and updates the wallet runs on
 * them. Loops visit the index in std::map order (Uint256Order); wallet
 * database steps appear only as their success flags.
 */
module HDMintTracker {
  import opened ZerocoinTypes
  import opened Uint256Order

  /** Confirmations a mint needs before it counts as confirmed. */
  const ZC_MINT_CONFIRMATIONS: int := 6

  /** CMintMeta: what the tracker knows about one of the wallet's mints. */
  datatype MintMeta = MintMeta(
    nHeight: int,
    nId: int,
    pubCoinValue: GroupElement,
    hashSerial: Uint256,
    denom: int,
    txid: Uint256,
    isUsed: bool,
    isArchived: bool,
    isDeterministic: bool,
    isSeedCorrect: bool)

  /** CHDMint: a mint derived from the wallet's seed, as stored. */
  datatype HDMint = HDMint(
    pubcoinValue: GroupElement,
    height: int,
    id: int,
    txHash: Uint256,
    isUsed: bool,
    serialHash: Uint256,
    denomination: int)

  /** CSigmaEntry: a mint with its secrets stored directly. */
  datatype SigmaEntry = SigmaEntry(
    value: GroupElement,
    nHeight: int,
    id: int,
    isUsed: bool,
    serialNumber: Scalar,
    denomination: int)

  /** Which wallet-database steps of one update succeed. */
  datatype DbOutcome = DbOutcome(readOk: bool, unarchiveOk: bool, writeOk: bool)

  /** The metadata Add records for a seed-derived mint. */
  function MetaOfHDMint(dMint: HDMint, isArchived: bool): (meta: MintMeta)
    ensures meta.hashSerial == dMint.serialHash && meta.txid == dMint.txHash
    ensures meta.isDeterministic && meta.isSeedCorrect && meta.isArchived == isArchived
  {
    MintMeta(dMint.height, dMint.id, dMint.pubcoinValue, dMint.serialHash, dMint.denomination,
             dMint.txHash, dMint.isUsed, isArchived, true, true)
  }

  /** The metadata Add records for a stored mint; its transaction hash stays null. */
  function MetaOfSigmaEntry(entry: SigmaEntry, hashSerial: Uint256, isArchived: bool): (meta: MintMeta)
    ensures meta.hashSerial == hashSerial && meta.txid == 0
    ensures !meta.isDeterministic && meta.isSeedCorrect && meta.isArchived == isArchived
  {
    MintMeta(entry.nHeight, entry.id, entry.value, hashSerial, entry.denomination,
             0, entry.isUsed, isArchived, false, true)
  }

  /** Whether UpdateState gets through its database steps. */
  predicate UpdateSucceeds(meta: MintMeta, db: DbOutcome)
  {
    if meta.isDeterministic then (db.readOk || (meta.isArchived && db.unarchiveOk)) && db.writeOk
    else db.readOk && db.writeOk
  }

  // ---------------------------------------------------------------------------
  // Which entries each query keeps
  // ---------------------------------------------------------------------------

  /** GetBalance's notion of confirmed: deep enough below the tip and not at height 0. */
  predicate BalanceConfirmed(meta: MintMeta, tip: int)
  {
    meta.nHeight < tip - ZC_MINT_CONFIRMATIONS && meta.nHeight != 0
  }

  /** GetBalance counts unspent, unarchived mints on the side of the confirmation test its flags select. */
  predicate InBalance(meta: MintMeta, tip: int, fConfirmedOnly: bool, fUnconfirmedOnly: bool)
  {
    && !(meta.isUsed || meta.isArchived)
    && !(fConfirmedOnly && !BalanceConfirmed(meta, tip))
    && !(fUnconfirmedOnly && BalanceConfirmed(meta, tip))
  }

  /** GetMints leaves out archived and used mints when fInactive is set, and with fConfirmedOnly keeps only those deep enough. */
  predicate InGetMints(meta: MintMeta, tip: int, fConfirmedOnly: bool, fInactive: bool)
  {
    && !((meta.isArchived || meta.isUsed) && fInactive)
    && !(fConfirmedOnly && !(meta.nHeight < tip - ZC_MINT_CONFIRMATIONS))
  }

  /** ListMints keeps unarchived mints that pass each filter it is given. */
  predicate InListMints(meta: MintMeta, tip: int, fUnusedOnly: bool, fMatureOnly: bool, fWrongSeed: bool)
  {
    && !meta.isArchived
    && !(fUnusedOnly && meta.isUsed)
    && !(fMatureOnly && (meta.nHeight == 0 || !(meta.nHeight + (ZC_MINT_CONFIRMATIONS - 1) <= tip)))
    && !(!fWrongSeed && !meta.isSeedCorrect)
  }

  // ---------------------------------------------------------------------------
  // Visiting the index in key order
  // ---------------------------------------------------------------------------

  /** The keys of `ks` whose entry `keep` accepts, in the order of `ks`. */
  function Select(m: map<Uint256, MintMeta>, ks: seq<Uint256>, keep: MintMeta -> bool): seq<Uint256>
    requires forall k :: k in ks ==> k in m
    decreases |ks|
  {
    if ks == [] then []
    else
      var n := |ks| - 1;
      Select(m, ks[..n], keep) + (if keep(m[ks[n]]) then [ks[n]] else [])
  }

  /** The entries of the keys `ks`, in order. */
  function MetasOf(m: map<Uint256, MintMeta>, ks: seq<Uint256>): (r: seq<MintMeta>)
    requires forall k :: k in ks ==> k in m
    ensures |r| == |ks| && forall i :: 0 <= i < |ks| ==> r[i] == m[ks[i]]
  {
    seq(|ks|, i requires 0 <= i < |ks| => m[ks[i]])
  }

  /** One more key of the run either extends the selection by that key or leaves it alone. */
  lemma SelectStep(m: map<Uint256, MintMeta>, ks: seq<Uint256>, i: int, keep: MintMeta -> bool)
    requires (forall k :: k in ks ==> k in m) && 0 <= i < |ks|
    ensures Select(m, ks[..i + 1], keep) == Select(m, ks[..i], keep) + (if keep(m[ks[i]]) then [ks[i]] else [])
  {
    assert ks[..i + 1][..i] == ks[..i];
  }

  /** Appending a key appends its entry. */
  lemma MetasOfAppend(m: map<Uint256, MintMeta>, ks: seq<Uint256>, k: Uint256)
    requires (forall x :: x in ks ==> x in m) && k in m
    ensures MetasOf(m, ks + [k]) == MetasOf(m, ks) + [m[k]]
  {
  }

  /**
   * When every entry is filed under its own serial hash, the entries a walk
   * of the whole index keeps are in serial-hash order, each is the entry
   * filed under its serial hash and passes the filter, and every entry that
   * passes the filter is among them.
   */
  lemma SelectedEntries(m: map<Uint256, MintMeta>, ks: seq<Uint256>, keys: seq<Uint256>, mints: seq<MintMeta>, keep: MintMeta -> bool)
    requires forall h :: h in m ==> m[h].hashSerial == h
    requires Ascending(ks) && forall k :: k in ks <==> k in m
    requires keys == Select(m, ks, keep) && (forall k :: k in keys ==> k in m) && mints == MetasOf(m, keys)
    ensures forall i, j :: 0 <= i < j < |mints| ==> KeyLess(mints[i].hashSerial, mints[j].hashSerial)
    ensures forall i :: 0 <= i < |mints| ==>
              mints[i].hashSerial in m && m[mints[i].hashSerial] == mints[i] && keep(mints[i])
    ensures forall k :: k in m && keep(m[k]) ==> m[k] in mints
  {
    SelectSpec(m, ks, keep);
    assert forall i :: 0 <= i < |mints| ==> mints[i].hashSerial == keys[i];
    forall k | k in m && keep(m[k]) ensures m[k] in mints {
      assert k in keys;
      var i :| 0 <= i < |keys| && keys[i] == k;
      assert mints[i] == m[k];
    }
  }

  /** The sum of the denomination values of the entries of `ks` that GetBalance counts. */
  function BalanceOver(m: map<Uint256, MintMeta>, ks: seq<Uint256>, tip: int, fConfirmedOnly: bool, fUnconfirmedOnly: bool,
                       valueOf: int -> int): int
    requires forall k :: k in ks ==> k in m
    decreases |ks|
  {
    if ks == [] then 0
    else
      var n := |ks| - 1;
      BalanceOver(m, ks[..n], tip, fConfirmedOnly, fUnconfirmedOnly, valueOf)
      + (if InBalance(m[ks[n]], tip, fConfirmedOnly, fUnconfirmedOnly) then valueOf(m[ks[n]].denom) else 0)
  }

  /** One more key of the run adds its value when GetBalance counts it. */
  lemma BalanceStep(m: map<Uint256, MintMeta>, ks: seq<Uint256>, i: int, tip: int, fConfirmedOnly: bool, fUnconfirmedOnly: bool,
                    valueOf: int -> int)
    requires (forall k :: k in ks ==> k in m) && 0 <= i < |ks|
    ensures BalanceOver(m, ks[..i + 1], tip, fConfirmedOnly, fUnconfirmedOnly, valueOf)
            == BalanceOver(m, ks[..i], tip, fConfirmedOnly, fUnconfirmedOnly, valueOf)
               + (if InBalance(m[ks[i]], tip, fConfirmedOnly, fUnconfirmedOnly) then valueOf(m[ks[i]].denom) else 0)
  {
    assert ks[..i + 1][..i] == ks[..i];
  }

  /** Selecting from an ascending run of keys gives an ascending run of exactly the accepted keys. */
  lemma {:induction false} SelectSpec(m: map<Uint256, MintMeta>, ks: seq<Uint256>, keep: MintMeta -> bool)
    requires Ascending(ks) && forall k :: k in ks ==> k in m
    ensures Ascending(Select(m, ks, keep))
    ensures forall x :: x in Select(m, ks, keep) <==> x in ks && keep(m[x])
    decreases |ks|
  {
    if ks != [] {
      var n := |ks| - 1;
      var pre := ks[..n];
      assert Ascending(pre);
      SelectSpec(m, pre, keep);
      forall x | x in Select(m, pre, keep) ensures KeyLess(x, ks[n]) {
        var j :| 0 <= j < n && pre[j] == x;
      }
      forall x | x in ks ensures x in pre || x == ks[n] {
        var j :| 0 <= j < |ks| && ks[j] == x;
        if j < n {
          assert pre[j] == x;
        }
      }
      AscendingDistinct(ks);
      forall x | x in pre ensures x != ks[n] {
        var j :| 0 <= j < n && pre[j] == x;
      }
    }
  }

  /** No key of an ascending run comes before an earlier one. */
  lemma AscendingNotBefore(ks: seq<Uint256>, i: int, p: int)
    requires Ascending(ks) && 0 <= i <= p < |ks|
    ensures !KeyLess(ks[p], ks[i])
  {
    ByteLessIrreflexive(ks[i], 32);
    if i < p && KeyLess(ks[p], ks[i]) {
      assert KeyLess(ks[i], ks[p]);
      ByteLessTransitive(ks[i], ks[p], ks[i], 32);
      assert false;
    }
  }

  /** Two keys that are each first in the same set are the same key. */
  lemma FirstUnique(a: Uint256, b: Uint256, s: set<Uint256>)
    requires IsFirst(a, s) && IsFirst(b, s)
    ensures a == b
  {
    if a != b {
      Pow256Of32();
      ByteLessTotal(a, b, 32);
      assert false;
    }
  }

  /** The first key, in map order, of an entry whose public coin hashes to `hashPubcoin`. */
  ghost function FirstWithPubcoin(m: map<Uint256, MintMeta>, pubcoinHash: GroupElement -> Uint256, hashPubcoin: Uint256): (r: Option<Uint256>)
    ensures r.None? <==> forall k :: k in m ==> pubcoinHash(m[k].pubCoinValue) != hashPubcoin
    ensures r.Some? ==> IsFirst(r.value, set k | k in m && pubcoinHash(m[k].pubCoinValue) == hashPubcoin)
  {
    var matches := set k | k in m && pubcoinHash(m[k].pubCoinValue) == hashPubcoin;
    if matches == {} then
      assert forall k :: k in m ==> k !in matches;
      None
    else
      FirstExists(matches);
      var k :| IsFirst(k, matches);
      assert k in m && pubcoinHash(m[k].pubCoinValue) == hashPubcoin;
      Some(k)
  }

  /** The first key, in map order, of a pending spend made by transaction `txid`. */
  ghost function FirstPendingFor(pending: map<Uint256, Uint256>, txid: Uint256): (r: Option<Uint256>)
    ensures r.None? <==> forall k :: k in pending ==> pending[k] != txid
    ensures r.Some? ==> IsFirst(r.value, set k | k in pending && pending[k] == txid)
  {
    var matches := set k | k in pending && pending[k] == txid;
    if matches == {} then
      assert forall k :: k in pending ==> k !in matches;
      None
    else
      FirstExists(matches);
      var k :| IsFirst(k, matches);
      assert k in pending && pending[k] == txid;
      Some(k)
  }

  /**
   * The confirmed-only and the unconfirmed-only balances split the
   * unrestricted balance between them.
   */
  lemma {:induction false} BalancePartition(m: map<Uint256, MintMeta>, ks: seq<Uint256>, tip: int, valueOf: int -> int)
    requires forall k :: k in ks ==> k in m
    ensures BalanceOver(m, ks, tip, true, false, valueOf) + BalanceOver(m, ks, tip, false, true, valueOf)
            == BalanceOver(m, ks, tip, false, false, valueOf)
    decreases |ks|
  {
    if ks != [] {
      BalancePartition(m, ks[..|ks| - 1], tip, valueOf);
    }
  }

  /** Asking for confirmed-only and unconfirmed-only at once counts nothing. */
  lemma {:induction false} BalanceBothFlagsIsZero(m: map<Uint256, MintMeta>, ks: seq<Uint256>, tip: int, valueOf: int -> int)
    requires forall k :: k in ks ==> k in m
    ensures BalanceOver(m, ks, tip, true, true, valueOf) == 0
    decreases |ks|
  {
    if ks != [] {
      BalanceBothFlagsIsZero(m, ks[..|ks| - 1], tip, valueOf);
    }
  }

  /** With non-negative denomination values, the confirmed balance never exceeds the whole balance. */
  lemma {:induction false} ConfirmedBalanceAtMostTotal(m: map<Uint256, MintMeta>, ks: seq<Uint256>, tip: int, valueOf: int -> int)
    requires forall k :: k in ks ==> k in m
    requires forall k :: k in ks ==> valueOf(m[k].denom) >= 0
    ensures 0 <= BalanceOver(m, ks, tip, true, false, valueOf) <= BalanceOver(m, ks, tip, false, false, valueOf)
    decreases |ks|
  {
    if ks != [] {
      ConfirmedBalanceAtMostTotal(m, ks[..|ks| - 1], tip, valueOf);
    }
  }

  /**
   * ListMints with no filter beyond the archive flag lists exactly the
   * serial hashes GetSerialHashes returns, in the same order.
   */
  lemma {:induction false} UnfilteredListIsSerialHashes(m: map<Uint256, MintMeta>, ks: seq<Uint256>, tip: int)
    requires forall k :: k in ks ==> k in m
    ensures Select(m, ks, (meta: MintMeta) => InListMints(meta, tip, false, false, true)) == Select(m, ks, (meta: MintMeta) => !meta.isArchived)
    decreases |ks|
  {
    if ks != [] {
      UnfilteredListIsSerialHashes(m, ks[..|ks| - 1], tip);
    }
  }

  /** A mint that ListMints accepts as mature stays mature as the chain grows. */
  lemma MaturityPersists(meta: MintMeta, tip: int, laterTip: int, fUnusedOnly: bool, fWrongSeed: bool)
    requires tip <= laterTip
    requires InListMints(meta, tip, fUnusedOnly, true, fWrongSeed)
    ensures InListMints(meta, laterTip, fUnusedOnly, true, fWrongSeed)
  {
  }

  /** The pending-spend table after SetPubcoinUsed: an existing pending spend is kept. */
  function PendingAfterUsed(pending: map<Uint256, Uint256>, hashSerial: Uint256, txid: Uint256): (r: map<Uint256, Uint256>)
    ensures hashSerial in r && r[hashSerial] == (if hashSerial in pending then pending[hashSerial] else txid)
    ensures forall k :: k != hashSerial ==> (k in r <==> k in pending)
    ensures forall k :: k in pending ==> k in r && (k != hashSerial ==> r[k] == pending[k])
  {
    if hashSerial in pending then pending else pending[hashSerial := txid]
  }

  /** Marking a coin unused after marking it used, with no spend pending before, leaves no trace in the table. */
  lemma UsedThenNotUsed(pending: map<Uint256, Uint256>, hashSerial: Uint256, txid: Uint256)
    requires hashSerial !in pending
    ensures PendingAfterUsed(pending, hashSerial, txid) - {hashSerial} == pending
  {
    assert (PendingAfterUsed(pending, hashSerial, txid) - {hashSerial}).Keys == pending.Keys;
  }

  // ---------------------------------------------------------------------------
  // The tracker
  // ---------------------------------------------------------------------------

  /** CHDMintTracker: the wallet's index of its own mints. */
  class MintTracker {
    /** Serial hash to the mint's metadata. */
    var mapSerialHashes: map<Uint256, MintMeta>
    /** Serial hash to the transaction spending it, for spends not yet confirmed. */
    var mapPendingSpends: map<Uint256, Uint256>
    /** GetPubCoinValueHash: the hash of a public coin value. */
    const pubcoinHash: GroupElement -> Uint256
    /** GetSerialHash: the hash of a coin serial. */
    const serialHashOf: Scalar -> Uint256

    /** Each entry is filed under its own serial hash. */
    ghost predicate Valid()
      reads this
    {
      forall h :: h in mapSerialHashes ==> mapSerialHashes[h].hashSerial == h
    }

    /** A new tracker has no mints and no pending spends. */
    constructor(pubcoinHash: GroupElement -> Uint256, serialHashOf: Scalar -> Uint256)
      ensures mapSerialHashes == map[] && mapPendingSpends == map[]
      ensures this.pubcoinHash == pubcoinHash && this.serialHashOf == serialHashOf
      ensures Valid()
    {
      this.pubcoinHash := pubcoinHash;
      this.serialHashOf := serialHashOf;
      mapSerialHashes := map[];
      mapPendingSpends := map[];
    }

    /** Archive: flag the mint archived, keeping its entry; the result is the database's. */
    method Archive(meta: MintMeta, db: DbOutcome) returns (ok: bool)
      requires Valid()
      modifies this
      ensures Valid()
      ensures mapSerialHashes == if meta.hashSerial in old(mapSerialHashes)
                                 then old(mapSerialHashes)[meta.hashSerial := old(mapSerialHashes)[meta.hashSerial].(isArchived := true)]
                                 else old(mapSerialHashes)
      ensures mapPendingSpends == old(mapPendingSpends)
      ensures ok == (db.readOk && db.writeOk)
    {
      var has := HasSerialHash(meta.hashSerial);
      if has {
        mapSerialHashes := mapSerialHashes[meta.hashSerial := mapSerialHashes[meta.hashSerial].(isArchived := true)];
      }
      ok := db.readOk && db.writeOk;
    }

    /** GetMetaFromSerial: the entry filed under the serial hash, when there is one. */
    method GetMetaFromSerial(hashSerial: Uint256) returns (found: bool, meta: Option<MintMeta>)
      ensures found <==> hashSerial in mapSerialHashes
      ensures found ==> meta == Some(mapSerialHashes[hashSerial])
      ensures !found ==> meta == None
    {
      found := hashSerial in mapSerialHashes;
      meta := if found then Some(mapSerialHashes[hashSerial]) else None;
    }

    /** GetMetaFromPubcoin: the first entry, in map order, whose public coin has the given hash. */
    method GetMetaFromPubcoin(hashPubcoin: Uint256) returns (found: bool, meta: Option<MintMeta>)
      ensures found <==> FirstWithPubcoin(mapSerialHashes, pubcoinHash, hashPubcoin).Some?
      ensures found ==> meta == Some(mapSerialHashes[FirstWithPubcoin(mapSerialHashes, pubcoinHash, hashPubcoin).value])
      ensures !found ==> meta == None
    {
      var m := mapSerialHashes;
      ghost var matches := set k | k in m && pubcoinHash(m[k].pubCoinValue) == hashPubcoin;
      var ks := OrderedKeys(m);
      for i := 0 to |ks|
        invariant forall j :: 0 <= j < i ==> pubcoinHash(m[ks[j]].pubCoinValue) != hashPubcoin
      {
        if pubcoinHash(m[ks[i]].pubCoinValue) == hashPubcoin {
          forall k | k in matches ensures !KeyLess(k, ks[i]) {
            var p :| 0 <= p < |ks| && ks[p] == k;
            AscendingNotBefore(ks, i, p);
          }
          FirstUnique(ks[i], FirstWithPubcoin(m, pubcoinHash, hashPubcoin).value, matches);
          return true, Some(m[ks[i]]);
        }
      }
      forall k | k in m ensures pubcoinHash(m[k].pubCoinValue) != hashPubcoin {
        var p :| 0 <= p < |ks| && ks[p] == k;
      }
      return false, None;
    }

    /** GetSerialHashes: the serial hashes of the unarchived entries, in map order. */
    method GetSerialHashes() returns (hashes: seq<Uint256>)
      ensures Ascending(hashes)
      ensures forall h :: h in hashes <==> h in mapSerialHashes && !mapSerialHashes[h].isArchived
    {
      var m := mapSerialHashes;
      var ks := OrderedKeys(m);
      var keep := (meta: MintMeta) => !meta.isArchived;
      hashes := [];
      for i := 0 to |ks|
        invariant hashes == Select(m, ks[..i], keep)
      {
        SelectStep(m, ks, i, keep);
        if m[ks[i]].isArchived {
          continue;
        }
        hashes := hashes + [ks[i]];
      }
      assert ks[..|ks|] == ks;
      SelectSpec(m, ks, keep);
    }

    /**
     * GetBalance: the total value of the unspent, unarchived mints on the
     * side of the confirmation test the flags select, never negative.
     * `tip` is the active chain's height; `valueOf` is the value of a
     * denomination.
     */
    method GetBalance(tip: int, fConfirmedOnly: bool, fUnconfirmedOnly: bool, valueOf: int -> int)
      returns (total: int, ghost ks: seq<Uint256>)
      ensures Ascending(ks) && forall k :: k in ks <==> k in mapSerialHashes
      ensures total == if BalanceOver(mapSerialHashes, ks, tip, fConfirmedOnly, fUnconfirmedOnly, valueOf) < 0 then 0
                       else BalanceOver(mapSerialHashes, ks, tip, fConfirmedOnly, fUnconfirmedOnly, valueOf)
      ensures total >= 0
    {
      var m := mapSerialHashes;
      var keys := OrderedKeys(m);
      ks := keys;
      total := 0;
      for i := 0 to |keys|
        invariant total == BalanceOver(m, keys[..i], tip, fConfirmedOnly, fUnconfirmedOnly, valueOf)
      {
        var meta := m[keys[i]];
        BalanceStep(m, keys, i, tip, fConfirmedOnly, fUnconfirmedOnly, valueOf);
        if meta.isUsed || meta.isArchived {
          assert !InBalance(meta, tip, fConfirmedOnly, fUnconfirmedOnly);
          continue;
        }
        var fConfirmed := meta.nHeight < tip - ZC_MINT_CONFIRMATIONS && !(meta.nHeight == 0);
        if fConfirmedOnly && !fConfirmed {
          assert !InBalance(meta, tip, fConfirmedOnly, fUnconfirmedOnly);
          continue;
        }
        if fUnconfirmedOnly && fConfirmed {
          assert !InBalance(meta, tip, fConfirmedOnly, fUnconfirmedOnly);
          continue;
        }
        assert InBalance(meta, tip, fConfirmedOnly, fUnconfirmedOnly);
        total := total + valueOf(meta.denom);
      }
      assert keys[..|keys|] == keys;
      if total < 0 {
        total := 0;
      }
    }

    /** GetMints: the entries GetMints keeps, in map order. */
    method GetMints(tip: int, fConfirmedOnly: bool, fInactive: bool) returns (mints: seq<MintMeta>)
      requires Valid()
      ensures forall i, j :: 0 <= i < j < |mints| ==> KeyLess(mints[i].hashSerial, mints[j].hashSerial)
      ensures forall i :: 0 <= i < |mints| ==>
                mints[i].hashSerial in mapSerialHashes && mapSerialHashes[mints[i].hashSerial] == mints[i]
                && InGetMints(mints[i], tip, fConfirmedOnly, fInactive)
      ensures forall k :: k in mapSerialHashes && InGetMints(mapSerialHashes[k], tip, fConfirmedOnly, fInactive)
                ==> mapSerialHashes[k] in mints
    {
      var m := mapSerialHashes;
      var ks := OrderedKeys(m);
      ghost var keep := (meta: MintMeta) => InGetMints(meta, tip, fConfirmedOnly, fInactive);
      mints := [];
      ghost var keys := [];
      for i := 0 to |ks|
        invariant keys == Select(m, ks[..i], keep)
        invariant forall k :: k in keys ==> k in m
        invariant mints == MetasOf(m, keys)
      {
        var mint := m[ks[i]];
        SelectStep(m, ks, i, keep);
        if (mint.isArchived || mint.isUsed) && fInactive {
          assert !keep(mint);
          continue;
        }
        var fConfirmed := mint.nHeight < tip - ZC_MINT_CONFIRMATIONS;
        if fConfirmedOnly && !fConfirmed {
          assert !keep(mint);
          continue;
        }
        assert keep(mint);
        MetasOfAppend(m, keys, ks[i]);
        mints := mints + [mint];
        keys := keys + [ks[i]];
      }
      assert ks[..|ks|] == ks;
      SelectedEntries(m, ks, keys, mints, keep);
    }

    /** HasMintTx: some entry was minted by the transaction. */
    method HasMintTx(txid: Uint256) returns (has: bool)
      ensures has <==> exists k :: k in mapSerialHashes && mapSerialHashes[k].txid == txid
    {
      var m := mapSerialHashes;
      var ks := OrderedKeys(m);
      for i := 0 to |ks|
        invariant forall j :: 0 <= j < i ==> m[ks[j]].txid != txid
      {
        if m[ks[i]].txid == txid {
          return true;
        }
      }
      forall k | k in m ensures m[k].txid != txid {
        var p :| 0 <= p < |ks| && ks[p] == k;
      }
      return false;
    }

    /** HasPubcoinHash: some entry's public coin has the given hash. */
    method HasPubcoinHash(hashPubcoin: Uint256) returns (has: bool)
      ensures has <==> exists k :: k in mapSerialHashes && pubcoinHash(mapSerialHashes[k].pubCoinValue) == hashPubcoin
    {
      var m := mapSerialHashes;
      var ks := OrderedKeys(m);
      for i := 0 to |ks|
        invariant forall j :: 0 <= j < i ==> pubcoinHash(m[ks[j]].pubCoinValue) != hashPubcoin
      {
        if pubcoinHash(m[ks[i]].pubCoinValue) == hashPubcoin {
          return true;
        }
      }
      forall k | k in m ensures pubcoinHash(m[k].pubCoinValue) != hashPubcoin {
        var p :| 0 <= p < |ks| && ks[p] == k;
      }
      return false;
    }

    /** HasSerialHash: an entry is filed under the serial hash. */
    method HasSerialHash(hashSerial: Uint256) returns (has: bool)
      ensures has <==> hashSerial in mapSerialHashes
    {
      has := hashSerial in mapSerialHashes;
    }

    /**
     * UpdateState: store the metadata under its serial hash, overwriting the
     * old entry, once the wallet database has taken the update; report
     * whether it did.
     */
    method UpdateState(meta: MintMeta, db: DbOutcome) returns (ok: bool)
      requires Valid()
      modifies this
      ensures Valid()
      ensures ok == UpdateSucceeds(meta, db)
      ensures mapSerialHashes == if ok then old(mapSerialHashes)[meta.hashSerial := meta] else old(mapSerialHashes)
      ensures mapPendingSpends == old(mapPendingSpends)
    {
      if meta.isDeterministic {
        if !db.readOk {
          if !meta.isArchived {
            return false;
          }
          if !db.unarchiveOk {
            return false;
          }
        }
        if !db.writeOk {
          return false;
        }
      } else {
        if !db.readOk {
          return false;
        }
        if !db.writeOk {
          return false;
        }
      }
      mapSerialHashes := mapSerialHashes[meta.hashSerial := meta];
      return true;
    }

    /** Add: record a seed-derived mint under its serial hash, overwriting any earlier entry. */
    method AddHDMint(dMint: HDMint, isNew: bool, isArchived: bool)
      requires Valid()
      modifies this
      ensures Valid()
      ensures mapSerialHashes == old(mapSerialHashes)[dMint.serialHash := MetaOfHDMint(dMint, isArchived)]
      ensures mapPendingSpends == old(mapPendingSpends)
    {
      var meta := MetaOfHDMint(dMint, isArchived);
      mapSerialHashes := mapSerialHashes[meta.hashSerial := meta];
    }

    /** Add: record a stored mint under the hash of its serial, overwriting any earlier entry. */
    method AddSigmaEntry(entry: SigmaEntry, isNew: bool, isArchived: bool)
      requires Valid()
      modifies this
      ensures Valid()
      ensures mapSerialHashes
              == old(mapSerialHashes)[serialHashOf(entry.serialNumber) := MetaOfSigmaEntry(entry, serialHashOf(entry.serialNumber), isArchived)]
      ensures mapPendingSpends == old(mapPendingSpends)
    {
      var meta := MetaOfSigmaEntry(entry, serialHashOf(entry.serialNumber), isArchived);
      mapSerialHashes := mapSerialHashes[meta.hashSerial := meta];
    }

    /**
     * SetPubcoinUsed: for the first entry with the public coin, record a
     * pending spend by `txid` (keeping an existing one) and store the entry
     * as used; an unknown coin changes nothing.
     */
    method SetPubcoinUsed(hashPubcoin: Uint256, txid: Uint256, db: DbOutcome)
      requires Valid()
      modifies this
      ensures Valid()
      ensures FirstWithPubcoin(old(mapSerialHashes), pubcoinHash, hashPubcoin).None?
              ==> mapSerialHashes == old(mapSerialHashes) && mapPendingSpends == old(mapPendingSpends)
      ensures FirstWithPubcoin(old(mapSerialHashes), pubcoinHash, hashPubcoin).Some? ==>
                var h := FirstWithPubcoin(old(mapSerialHashes), pubcoinHash, hashPubcoin).value;
                var meta := old(mapSerialHashes)[h].(isUsed := true);
                && mapPendingSpends == PendingAfterUsed(old(mapPendingSpends), h, txid)
                && mapSerialHashes == (if UpdateSucceeds(meta, db) then old(mapSerialHashes)[h := meta] else old(mapSerialHashes))
    {
      var found, meta := GetMetaFromPubcoin(hashPubcoin);
      if !found {
        return;
      }
      var m := meta.value.(isUsed := true);
      if m.hashSerial !in mapPendingSpends {
        mapPendingSpends := mapPendingSpends[m.hashSerial := txid];
      }
      var _ := UpdateState(m, db);
    }

    /**
     * SetPubcoinNotUsed: for the first entry with the public coin, drop its
     * pending spend and store the entry as unused; an unknown coin changes
     * nothing.
     */
    method SetPubcoinNotUsed(hashPubcoin: Uint256, db: DbOutcome)
      requires Valid()
      modifies this
      ensures Valid()
      ensures FirstWithPubcoin(old(mapSerialHashes), pubcoinHash, hashPubcoin).None?
              ==> mapSerialHashes == old(mapSerialHashes) && mapPendingSpends == old(mapPendingSpends)
      ensures FirstWithPubcoin(old(mapSerialHashes), pubcoinHash, hashPubcoin).Some? ==>
                var h := FirstWithPubcoin(old(mapSerialHashes), pubcoinHash, hashPubcoin).value;
                var meta := old(mapSerialHashes)[h].(isUsed := false);
                && mapPendingSpends == old(mapPendingSpends) - {h}
                && mapSerialHashes == (if UpdateSucceeds(meta, db) then old(mapSerialHashes)[h := meta] else old(mapSerialHashes))
    {
      var found, meta := GetMetaFromPubcoin(hashPubcoin);
      if !found {
        return;
      }
      var m := meta.value.(isUsed := false);
      if m.hashSerial in mapPendingSpends {
        mapPendingSpends := mapPendingSpends - {m.hashSerial};
      }
      var _ := UpdateState(m, db);
    }

    /**
     * RemovePending: drop the first pending spend, in map order, made by
     * `txid`; nothing is dropped when that entry's serial hash is null.
     */
    method RemovePending(txid: Uint256)
      modifies this
      ensures mapSerialHashes == old(mapSerialHashes)
      ensures mapPendingSpends == if FirstPendingFor(old(mapPendingSpends), txid).Some?
                                     && FirstPendingFor(old(mapPendingSpends), txid).value != 0
                                  then old(mapPendingSpends) - {FirstPendingFor(old(mapPendingSpends), txid).value}
                                  else old(mapPendingSpends)
    {
      var p := mapPendingSpends;
      ghost var matches := set k | k in p && p[k] == txid;
      var ks := OrderedKeys(p);
      var hashSerial: Uint256 := 0;
      var i := 0;
      while i < |ks|
        invariant 0 <= i <= |ks|
        invariant forall j :: 0 <= j < i ==> p[ks[j]] != txid
      {
        if p[ks[i]] == txid {
          hashSerial := ks[i];
          forall k | k in matches ensures !KeyLess(k, ks[i]) {
            var q :| 0 <= q < |ks| && ks[q] == k;
            AscendingNotBefore(ks, i, q);
          }
          FirstUnique(ks[i], FirstPendingFor(p, txid).value, matches);
          break;
        }
        i := i + 1;
      }
      if i == |ks| {
        forall k | k in p ensures p[k] != txid {
          var q :| 0 <= q < |ks| && ks[q] == k;
        }
      }
      if hashSerial > 0 {
        mapPendingSpends := mapPendingSpends - {hashSerial};
      }
    }

    /**
     * ListMints, without reloading from the database and without refreshing
     * statuses: the unarchived entries that pass the requested filters, in
     * map order. `tip` is the active chain's height.
     */
    method ListMints(fUnusedOnly: bool, fMatureOnly: bool, fWrongSeed: bool, tip: int)
      returns (mints: seq<MintMeta>)
      requires Valid()
      ensures forall i, j :: 0 <= i < j < |mints| ==> KeyLess(mints[i].hashSerial, mints[j].hashSerial)
      ensures forall i :: 0 <= i < |mints| ==>
                mints[i].hashSerial in mapSerialHashes && mapSerialHashes[mints[i].hashSerial] == mints[i]
                && InListMints(mints[i], tip, fUnusedOnly, fMatureOnly, fWrongSeed)
      ensures forall k :: k in mapSerialHashes && InListMints(mapSerialHashes[k], tip, fUnusedOnly, fMatureOnly, fWrongSeed)
                ==> mapSerialHashes[k] in mints
    {
      var m := mapSerialHashes;
      var ks := OrderedKeys(m);
      ghost var keep := (meta: MintMeta) => InListMints(meta, tip, fUnusedOnly, fMatureOnly, fWrongSeed);
      mints := [];
      ghost var keys := [];
      for i := 0 to |ks|
        invariant keys == Select(m, ks[..i], keep)
        invariant forall k :: k in keys ==> k in m
        invariant mints == MetasOf(m, keys)
      {
        var mint := m[ks[i]];
        SelectStep(m, ks, i, keep);
        if mint.isArchived {
          assert !keep(mint);
          continue;
        }
        if fUnusedOnly && mint.isUsed {
          assert !keep(mint);
          continue;
        }
        if fMatureOnly {
          if mint.nHeight == 0 || !(mint.nHeight + (ZC_MINT_CONFIRMATIONS - 1) <= tip) {
            assert !keep(mint);
            continue;
          }
        }
        if !fWrongSeed && !mint.isSeedCorrect {
          assert !keep(mint);
          continue;
        }
        assert keep(mint);
        MetasOfAppend(m, keys, ks[i]);
        mints := mints + [mint];
        keys := keys + [ks[i]];
      }
      assert ks[..|ks|] == ks;
      SelectedEntries(m, ks, keys, mints, keep);
    }

    /** Clear: forget every mint; pending spends stay. */
    method Clear()
      modifies this
      ensures mapSerialHashes == map[]
      ensures mapPendingSpends == old(mapPendingSpends)
      ensures Valid()
    {
      mapSerialHashes := map[];
    }
  }
}
