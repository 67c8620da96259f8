/**
  The NFT use case (backend/usecase/nft_usecase.go): a cache of contract
  clients and the operations that fill the NFT tables from the chain.

  Each method is proved to leave the tables exactly as the matching function
  of `NftSpec` says; the cache only ever gains the client of the contract the
  method was called for.
*/
module NftService {
  import opened Wrappers
  import opened Domain
  import opened Abi
  import opened Ledger
  import opened NftRepo
  import opened NftSpec

  /** The cache after a call for `contractAddress`: every earlier entry kept, at most that one added. */
  ghost predicate CacheExtends(before: map<string, NFTContract>, after: map<string, NFTContract>, contractAddress: string)
  {
    && (forall a :: a in before ==> a in after && after[a] == before[a])
    && (forall a :: a in after ==> a in before || a == contractAddress)
  }

  class NFTUseCase {
    const nftRepo: NFTRepository
    /** The ledger endpoint and the metadata hosts. */
    const chain: Chain
    const sigs: Signatures
    var contractCache: map<string, NFTContract>

    ghost predicate Valid()
      reads this, nftRepo
    {
      && nftRepo.Valid()
      && (forall a :: a in contractCache ==> contractCache[a].address == a && chain.connects(a))
    }

    constructor(nftRepo: NFTRepository, chain: Chain, sigs: Signatures)
      requires nftRepo.Valid()
      ensures Valid()
      ensures this.nftRepo == nftRepo && this.chain == chain && this.sigs == sigs && contractCache == map[]
    {
      this.nftRepo := nftRepo;
      this.chain := chain;
      this.sigs := sigs;
      contractCache := map[];
    }

    /**
      The cached client for this contract; a miss builds one and caches it, a
      failed construction caches nothing.
    */
    method GetNFTContract(contractAddress: string) returns (r: Result<NFTContract, Error>)
      requires Valid()
      modifies this
      ensures Valid()
      ensures r.Ok? <==> chain.connects(contractAddress)
      ensures contractAddress in old(contractCache) ==>
        r == Ok(old(contractCache)[contractAddress]) && contractCache == old(contractCache)
      ensures contractAddress !in old(contractCache) && r.Ok? ==>
        fresh(r.value) && r.value.address == contractAddress
        && contractCache == old(contractCache)[contractAddress := r.value]
      ensures r.Err? ==> r.error == ChainFailure && contractCache == old(contractCache)
    {
      if contractAddress in contractCache {
        return Ok(contractCache[contractAddress]);
      }
      if !chain.connects(contractAddress) {
        return Err(ChainFailure);
      }
      var contract := new NFTContract(contractAddress);
      contractCache := contractCache[contractAddress := contract];
      r := Ok(contract);
    }

    /** `handleTransfer`. */
    method HandleTransfer(contractAddress: string, log: Log)
      requires Valid()
      modifies this, nftRepo
      ensures Valid()
      ensures nftRepo.State() == ApplyTransfer(old(nftRepo.State()), nftRepo.rejects, chain, contractAddress, log)
      ensures CacheExtends(old(contractCache), contractCache, contractAddress)
    {
      if |log.topics| < 4 {
        // indexing the missing topic panics before anything is written
        return;
      }
      var from := BytesToAddress(log.topics[1]);
      var to := BytesToAddress(log.topics[2]);
      var tokenId := Uint64(log.topics[3]);
      var contract := GetNFTContract(contractAddress);
      assert CacheExtends(old(contractCache), contractCache, contractAddress);
      if contract.Err? {
        return;
      }
      var timestamp := chain.blockTimestamp(log.blockNumber).GetOr(0);
      var event := TransferEvent(contractAddress, tokenId, Transfer, Hex(from), Hex(to), Hex(log.txHash),
        log.blockNumber, timestamp);
      if from == ZeroAddress {
        event := event.(eventType := Mint);
      }
      assert event == TransferRecord(chain, contractAddress, log);
      RecordTransfer(event);
    }

    /** The writes of `handleTransfer`: the history row, then the owner; a refused write is logged. */
    method RecordTransfer(event: TransferEvent)
      requires nftRepo.Valid()
      modifies nftRepo
      ensures nftRepo.Valid()
      ensures nftRepo.State() == NftSpec.RecordTransfer(old(nftRepo.State()), nftRepo.rejects, event)
    {
      var _ := nftRepo.SaveNFTTransferEvent(event);
      var _ := nftRepo.UpdateNFTOwner(event.contractAddress, event.tokenId, event.toAddress);
    }

    /** `handleMetadataUpdate`. */
    method HandleMetadataUpdate(contractAddress: string, log: Log)
      requires Valid()
      modifies this, nftRepo
      ensures Valid()
      ensures nftRepo.State() == ApplyMetadataUpdate(old(nftRepo.State()), nftRepo.rejects, chain, contractAddress, log)
      ensures CacheExtends(old(contractCache), contractCache, contractAddress)
    {
      var tokenId := Uint64(log.data);
      var contract := GetNFTContract(contractAddress);
      if contract.Err? {
        return;
      }
      var timestamp := chain.blockTimestamp(log.blockNumber).GetOr(0);
      var event := TransferEvent(contractAddress, tokenId, Mint, Hex(ZeroAddress), Hex(log.address), Hex(log.txHash),
        log.blockNumber, timestamp);
      var _ := nftRepo.SaveNFTTransferEvent(event);
      // the client is fetched a second time; it is cached by now
      contract := GetNFTContract(contractAddress);
      RefreshToken(contractAddress, tokenId);
    }

    /** The fetch-and-upsert part of `handleMetadataUpdate`; every failure is logged and ends it. */
    method RefreshToken(contractAddress: string, tokenId: nat)
      requires nftRepo.Valid()
      modifies nftRepo
      ensures nftRepo.Valid()
      ensures nftRepo.State() == RefreshNft(old(nftRepo.State()), nftRepo.rejects, chain, contractAddress, tokenId)
    {
      var tokenURI := chain.tokenURI(contractAddress, tokenId);
      if tokenURI.None? {
        return;
      }
      var metadata := chain.metadata(tokenURI.value);
      if metadata.None? {
        return;
      }
      var owner := chain.ownerOf(contractAddress, tokenId);
      if owner.None? {
        return;
      }
      var md := metadata.value;
      var nft := NFT(0, 0, tokenId, contractAddress, owner.value, tokenURI.value, md.name, md.description, md.image);
      var id := nftRepo.UpsertNFT(nft);
      if id.Err? {
        return;
      }
      SaveAttributesLenient(id.value, md.attributes);
    }

    /** The attribute loop of `handleMetadataUpdate`: a refused row is logged and skipped. */
    method SaveAttributesLenient(nftId: nat, traits: seq<Trait>)
      requires nftRepo.Valid()
      modifies nftRepo
      ensures nftRepo.Valid()
      ensures nftRepo.State() == SaveLenient(old(nftRepo.State()), nftRepo.rejects, nftId, traits)
    {
      ghost var start := nftRepo.State();
      ghost var rows := TraitRows(nftId, traits);
      for i := 0 to |traits|
        invariant nftRepo.Valid()
        invariant nftRepo.State() == start.(attributes := start.attributes + Accepted(nftRepo.rejects, rows[..i]))
      {
        var a := Attribute(nftId, traits[i].traitType, traits[i].value);
        assert rows[..i + 1][..i] == rows[..i] && rows[..i + 1][i] == a;
        var _ := nftRepo.SaveNFTAttribute(a);
      }
      assert rows[..|traits|] == rows;
    }

    /** `handleNFTEvent`: dispatch on the first topic. */
    method HandleNFTEvent(contractAddress: string, log: Log)
      requires Valid()
      modifies this, nftRepo
      ensures Valid()
      ensures nftRepo.State() == HandleNftEvent(old(nftRepo.State()), nftRepo.rejects, chain, sigs, contractAddress, log)
      ensures CacheExtends(old(contractCache), contractCache, contractAddress)
    {
      if log.topics == [] {
        // indexing the missing topic panics before anything is written
        return;
      }
      if log.topics[0] == sigs.metadataUpdate {
        HandleMetadataUpdate(contractAddress, log);
      } else if log.topics[0] == sigs.transfer {
        HandleTransfer(contractAddress, log);
      }
    }

    /** `scanHistoricalEvents`. */
    method ScanHistoricalEvents(contractAddress: string) returns (r: Outcome<Error>)
      requires Valid()
      modifies this, nftRepo
      ensures Valid()
      ensures (nftRepo.State(), r) == Replay(old(nftRepo.State()), nftRepo.rejects, chain, contractAddress)
      ensures CacheExtends(old(contractCache), contractCache, contractAddress)
    {
      var contract := GetNFTContract(contractAddress);
      if contract.Err? {
        return Fail(ChainFailure);
      }
      var logs := chain.transferLogs(contractAddress);
      if logs.None? {
        return Fail(ChainFailure);
      }
      ghost var start := nftRepo.State();
      ghost var cache := old(contractCache);
      for i := 0 to |logs.value|
        invariant Valid()
        invariant ApplyTransfers(nftRepo.State(), nftRepo.rejects, chain, contractAddress, logs.value[i..])
          == ApplyTransfers(start, nftRepo.rejects, chain, contractAddress, logs.value)
        invariant CacheExtends(cache, contractCache, contractAddress)
      {
        assert logs.value[i..][1..] == logs.value[i + 1..];
        HandleTransfer(contractAddress, logs.value[i]);
      }
      r := Pass;
    }

    /** `InitializeNFT`. */
    method InitializeNFT(contractAddress: string, tokenId: nat) returns (r: Outcome<Error>)
      requires Valid()
      modifies this, nftRepo
      ensures Valid()
      ensures (nftRepo.State(), r) == InitNft(old(nftRepo.State()), nftRepo.rejects, chain, contractAddress, tokenId)
      ensures CacheExtends(old(contractCache), contractCache, contractAddress)
    {
      var contract := GetNFTContract(contractAddress);
      if contract.Err? {
        return Fail(ChainFailure);
      }
      var collection := nftRepo.GetCollectionByAddress(contractAddress);
      if collection.Err? {
        return Fail(collection.error);
      }
      var tokenURI := chain.tokenURI(contractAddress, tokenId);
      if tokenURI.None? {
        return Fail(ChainFailure);
      }
      var owner := chain.ownerOf(contractAddress, tokenId);
      if owner.None? {
        return Fail(ChainFailure);
      }
      var metadata := chain.metadata(tokenURI.value);
      if metadata.None? {
        return Fail(MetadataUnavailable);
      }
      var md := metadata.value;
      var nft := NFT(0, collection.value.id, tokenId, contractAddress, owner.value, tokenURI.value,
        md.name, md.description, md.image);
      var id := nftRepo.UpsertNFT(nft);
      if id.Err? {
        return Fail(id.error);
      }
      r := SaveAttributesStrict(id.value, md.attributes);
    }

    /** The attribute loop of `InitializeNFT`: the first refused row ends it with an error. */
    method SaveAttributesStrict(nftId: nat, traits: seq<Trait>) returns (r: Outcome<Error>)
      requires nftRepo.Valid()
      modifies nftRepo
      ensures nftRepo.Valid()
      ensures (nftRepo.State(), r) == SaveStrict(old(nftRepo.State()), nftRepo.rejects, nftId, traits)
    {
      ghost var start := nftRepo.State();
      ghost var rows := TraitRows(nftId, traits);
      for i := 0 to |traits|
        invariant nftRepo.Valid()
        invariant forall j :: 0 <= j < i ==> !nftRepo.rejects(InsertAttribute(rows[j]))
        invariant nftRepo.State() == start.(attributes := start.attributes + rows[..i])
      {
        var a := Attribute(nftId, traits[i].traitType, traits[i].value);
        assert rows[i] == a;
        var saved := nftRepo.SaveNFTAttribute(a);
        if saved.Fail? {
          FirstRefusedAt(nftRepo.rejects, rows, i);
          return saved;
        }
        assert rows[..i + 1] == rows[..i] + [a];
      }
      FirstRefusedAt(nftRepo.rejects, rows, |rows|);
      assert rows[..|rows|] == rows;
      r := Pass;
    }

    /** `InitializeNFTCollection` (the event listener it starts is not part of this model). */
    method InitializeNFTCollection(contractAddress: string) returns (r: Outcome<Error>)
      requires Valid()
      modifies this, nftRepo
      ensures Valid()
      ensures (nftRepo.State(), r) == Bootstrap(old(nftRepo.State()), nftRepo.rejects, chain, contractAddress)
      ensures CacheExtends(old(contractCache), contractCache, contractAddress)
    {
      ghost var start := nftRepo.State();
      var contract := GetNFTContract(contractAddress);
      if contract.Err? {
        return Fail(ChainFailure);
      }
      var ensured := EnsureCollectionRow(contractAddress);
      ghost var collected := nftRepo.State();
      assert (collected, ensured) == EnsureCollection(start, nftRepo.rejects, chain, contractAddress);
      if ensured.Fail? {
        return ensured;
      }
      var supply := chain.totalSupply(contractAddress);
      if supply.None? {
        return Fail(ChainFailure);
      }
      ghost var cache := contractCache;
      var _ := ScanHistoricalEvents(contractAddress);
      ghost var replayed := nftRepo.State();
      assert replayed == Replay(collected, nftRepo.rejects, chain, contractAddress).0;
      InitializeTokens(contractAddress, supply.value);
      assert nftRepo.State() == InitTokens(replayed, nftRepo.rejects, chain, contractAddress, supply.value);
      r := Pass;
    }

    /** The collection step of `InitializeNFTCollection`. */
    method EnsureCollectionRow(contractAddress: string) returns (r: Outcome<Error>)
      requires nftRepo.Valid()
      modifies nftRepo
      ensures nftRepo.Valid()
      ensures (nftRepo.State(), r) == EnsureCollection(old(nftRepo.State()), nftRepo.rejects, chain, contractAddress)
    {
      var collection := nftRepo.GetCollectionByAddress(contractAddress);
      if collection.Err? {
        var name := chain.name(contractAddress);
        if name.None? {
          return Fail(ChainFailure);
        }
        var symbol := chain.symbol(contractAddress);
        if symbol.None? {
          return Fail(ChainFailure);
        }
        var icon := chain.tokenIconURI(contractAddress);
        var tokenIconURI := if icon.None? then "" else icon.value;
        var created := nftRepo.UpsertCollection(Collection(0, contractAddress, name.value, symbol.value, tokenIconURI));
        if created.Err? {
          return Fail(created.error);
        }
      } else if collection.value.tokenIconURI == "" {
        var icon := chain.tokenIconURI(contractAddress);
        if icon.Some? {
          var _ := nftRepo.UpsertCollection(collection.value.(tokenIconURI := icon.value));
        }
      }
      r := Pass;
    }

    /** The token loop of `InitializeNFTCollection`: a failed token is logged and the loop goes on. */
    method InitializeTokens(contractAddress: string, supply: nat)
      requires Valid()
      modifies this, nftRepo
      ensures Valid()
      ensures nftRepo.State() == InitTokens(old(nftRepo.State()), nftRepo.rejects, chain, contractAddress, supply)
      ensures CacheExtends(old(contractCache), contractCache, contractAddress)
    {
      ghost var start := nftRepo.State();
      ghost var cache := contractCache;
      for i := 0 to supply
        invariant Valid()
        invariant nftRepo.State() == InitTokens(start, nftRepo.rejects, chain, contractAddress, i)
        invariant CacheExtends(cache, contractCache, contractAddress)
      {
        var _ := InitializeNFT(contractAddress, i);
      }
    }

    /** `GetNFTByTokenID`: the token and its attributes, bootstrapped on a miss. */
    method GetNFTByTokenID(contractAddress: string, tokenId: nat) returns (r: Result<NftView, Error>)
      requires Valid()
      modifies this, nftRepo
      ensures Valid()
      ensures (nftRepo.State(), r) == LookupNft(old(nftRepo.State()), nftRepo.rejects, chain, contractAddress, tokenId)
      ensures CacheExtends(old(contractCache), contractCache, contractAddress)
    {
      var nft := nftRepo.GetByTokenID(contractAddress, tokenId);
      if nft.Ok? {
        var attributes := nftRepo.GetAttributes(nft.value.id);
        if attributes.Err? {
          return Err(attributes.error);
        }
        return Ok(NftView(nft.value, attributes.value));
      }
      var collection := nftRepo.GetCollectionByAddress(contractAddress);
      var initialised: Outcome<Error>;
      if collection.Err? {
        initialised := InitializeNFTCollection(contractAddress);
      } else {
        initialised := InitializeNFT(contractAddress, tokenId);
      }
      if initialised.Fail? {
        return Err(initialised.error);
      }
      nft := nftRepo.GetByTokenID(contractAddress, tokenId);
      if nft.Err? {
        return Err(nft.error);
      }
      var attributes := nftRepo.GetAttributes(nft.value.id);
      if attributes.Err? {
        return Err(attributes.error);
      }
      r := Ok(NftView(nft.value, attributes.value));
    }

    /**
      `GetCollectionByAddress`: the collection row and its NFT rows; a missing
      collection is bootstrapped first and read again.
    */
    method GetCollectionByAddress(contractAddress: string) returns (r: Result<(Collection, seq<NFT>), Error>)
      requires Valid()
      modifies this, nftRepo
      ensures Valid()
      ensures contractAddress in old(nftRepo.collections) ==> nftRepo.State() == old(nftRepo.State())
      ensures contractAddress !in old(nftRepo.collections) ==>
        nftRepo.State() == Bootstrap(old(nftRepo.State()), nftRepo.rejects, chain, contractAddress).0
      ensures contractAddress !in old(nftRepo.collections) ==>
        (Bootstrap(old(nftRepo.State()), nftRepo.rejects, chain, contractAddress).1.Fail? ==> r.Err?)
      ensures (contractAddress in old(nftRepo.collections) ||
               Bootstrap(old(nftRepo.State()), nftRepo.rejects, chain, contractAddress).1.Pass?) ==>
        contractAddress in nftRepo.collections &&
        (r.Ok? <==> !nftRepo.rejects(SelectNftsOfCollection(nftRepo.collections[contractAddress].id)))
      ensures r.Err? ==>
        (r.error == Rejected ||
         (contractAddress !in old(nftRepo.collections) &&
          Bootstrap(old(nftRepo.State()), nftRepo.rejects, chain, contractAddress).1 == Fail(r.error)))
      ensures r.Ok? ==> contractAddress in nftRepo.collections && r.value.0 == nftRepo.collections[contractAddress]
      ensures r.Ok? ==> forall n :: n in r.value.1 ==>
        KeyOf(n) in nftRepo.nfts && nftRepo.nfts[KeyOf(n)] == n && n.collectionId == r.value.0.id
      ensures r.Ok? ==> forall k :: k in nftRepo.nfts && nftRepo.nfts[k].collectionId == r.value.0.id ==>
        nftRepo.nfts[k] in r.value.1
      ensures CacheExtends(old(contractCache), contractCache, contractAddress)
    {
      var collection := nftRepo.GetCollectionByAddress(contractAddress);
      if collection.Err? {
        var initialised := InitializeNFTCollection(contractAddress);
        if initialised.Fail? {
          return Err(initialised.error);
        }
        collection := nftRepo.GetCollectionByAddress(contractAddress);
        if collection.Err? {
          // a bootstrap that passes leaves the collection row in place
          assert false;
        }
      }
      var nfts := nftRepo.GetNFTsByCollectionID(collection.value.id);
      if nfts.Err? {
        return Err(nfts.error);
      }
      r := Ok((collection.value, nfts.value));
    }

    /**
      `GetNFTCurrentOwner`: the receiver of the token's latest history row, which
      is the first row of the last block of its ascending history.
    */
    method GetNFTCurrentOwner(contractAddress: string, tokenId: nat) returns (r: Result<string, Error>)
      ensures nftRepo.rejects(SelectLatestTransferEvent(TokenKey(contractAddress, tokenId))) ==> r == Err(Rejected)
      ensures !nftRepo.rejects(SelectLatestTransferEvent(TokenKey(contractAddress, tokenId))) ==>
        var history := History(nftRepo.events, TokenKey(contractAddress, tokenId));
        (history == [] ==> r == Err(NotFound)) &&
        (history != [] ==> r == Ok(LastBlockHead(history).toAddress))
    {
      LatestHeadsLastBlock(nftRepo.events, TokenKey(contractAddress, tokenId));
      var latest := nftRepo.GetLatestNFTTransferEvent(contractAddress, tokenId);
      if latest.Err? {
        return Err(latest.error);
      }
      r := Ok(latest.value.toAddress);
    }
  }
}
