/**
  The marketplace service (backend/usecase/market_usecase.go): the handlers
  of the four marketplace events and the full resynchronisation of the store
  from the marketplace contract.  Each method is proved equal to its function
  in `MarketSpec`; what the marketplace contract answers is fixed per contract.
*/
module MarketService {
  import opened Wrappers
  import opened Domain
  import opened Abi
  import opened Ledger
  import NftRepo
  import MarketRepo
  import opened MarketContract
  import NftService
  import NftSpec
  import opened MarketSpec

  /** Every client cached before is still cached, unchanged. */
  ghost predicate CacheKept(before: map<string, NFTContract>, after: map<string, NFTContract>)
  {
    forall a :: a in before ==> a in after && after[a] == before[a]
  }

  /** The `nftContracts` set: the NFT contract of every order, then the address of every collection. */
  method CollectContractAddresses(orders: seq<Order>, collections: seq<Collection>) returns (addresses: set<string>)
    ensures addresses == (set o | o in orders :: o.nftContractAddress) + (set c | c in collections :: c.contractAddress)
  {
    addresses := {};
    for i := 0 to |orders|
      invariant addresses == set o | o in orders[..i] :: o.nftContractAddress
    {
      assert orders[..i + 1] == orders[..i] + [orders[i]];
      addresses := addresses + {orders[i].nftContractAddress};
    }
    assert orders[..|orders|] == orders;
    ghost var fromOrders := addresses;
    for i := 0 to |collections|
      invariant addresses == fromOrders + set c | c in collections[..i] :: c.contractAddress
    {
      assert collections[..i + 1] == collections[..i] + [collections[i]];
      addresses := addresses + {collections[i].contractAddress};
    }
    assert collections[..|collections|] == collections;
  }

  class MarketUseCase {
    const repo: MarketRepo.MarketRepository
    const nftRepo: NftRepo.NFTRepository
    const contract: NFTMarketContract
    const nftUC: NftService.NFTUseCase
    const sigs: Signatures

    ghost predicate Valid()
      reads this, repo, nftRepo, nftUC
    {
      && repo.Valid()
      && nftUC.nftRepo == nftRepo
      && nftUC.Valid()
    }

    /** The orders table and the NFT tables together. */
    function Snapshot(): Stores
      reads this, repo, nftRepo
    {
      Stores(repo.orders, repo.nextId, nftRepo.State())
    }

    constructor(repo: MarketRepo.MarketRepository, nftUC: NftService.NFTUseCase, contract: NFTMarketContract, sigs: Signatures)
      requires repo.Valid() && nftUC.Valid()
      ensures Valid()
      ensures this.repo == repo && this.nftRepo == nftUC.nftRepo && this.nftUC == nftUC
      ensures this.contract == contract && this.sigs == sigs
    {
      this.repo := repo;
      this.nftRepo := nftUC.nftRepo;
      this.nftUC := nftUC;
      this.contract := contract;
      this.sigs := sigs;
    }

    /** The order with on-chain index `orderId`: the row under key `orderId + 1`. */
    method GetOrderByID(orderId: nat) returns (r: Result<Order, Error>)
      requires Valid() && orderId < TwoTo64
      ensures r.Ok? <==> StoredId(orderId) in repo.orders
      ensures r.Ok? ==> r.value == repo.orders[StoredId(orderId)] && r.value.id == StoredId(orderId)
      ensures r.Err? ==> r.error == NotFound
    {
      r := repo.GetOrderByID(StoredId(orderId));
    }

    /** `HandleEvent`: dispatch on the first topic. */
    method HandleEvent(log: Log) returns (r: Outcome<Error>)
      requires Valid()
      modifies repo, nftRepo, nftUC
      ensures Valid()
      ensures (Snapshot(), r) == ApplyEvent(old(Snapshot()), repo.rejects, nftRepo.rejects, nftUC.chain, sigs, log)
      ensures CacheKept(old(nftUC.contractCache), nftUC.contractCache)
    {
      var decoded := Decode(sigs, log);
      if decoded.Err? {
        return Fail(decoded.error);
      }
      var e := decoded.value;
      match e
      case OrderCreated(_, _, _, _, _, _) =>
        r := HandleOrderCreated(e);
      case OrderCancelled(orderId) =>
        r := HandleOrderCancelled(orderId);
      case OrderFulfilled(orderId) =>
        r := HandleOrderFulfilled(orderId);
      case ContractDeployed(nftAddress) =>
        r := HandleNFTContractDeployed(nftAddress);
    }

    /** `handleOrderCreated`: a failed bootstrap is logged; the order is inserted regardless. */
    method HandleOrderCreated(e: MarketEvent) returns (r: Outcome<Error>)
      requires Valid() && e.OrderCreated? && Encodable(e)
      modifies repo, nftRepo, nftUC
      ensures Valid()
      ensures (Snapshot(), r) == CreateOrder(old(Snapshot()), repo.rejects, nftRepo.rejects, nftUC.chain, e)
      ensures CacheKept(old(nftUC.contractCache), nftUC.contractCache)
    {
      var _ := nftUC.InitializeNFTCollection(Hex(e.nftAddress));
      r := repo.BatchInsertOrders([CreatedOrder(e)]);
    }

    /** `handleOrderCancelled`: status 2 on key `orderId + 1`. */
    method HandleOrderCancelled(orderId: nat) returns (r: Outcome<Error>)
      requires Valid() && orderId < TwoTo64
      modifies repo
      ensures Valid()
      ensures (Snapshot(), r) == SetStatus(old(Snapshot()), repo.rejects, StoredId(orderId), StatusCancelled)
    {
      r := repo.UpdateOrderStatus(StoredId(orderId), StatusCancelled);
    }

    /** `handleOrderFulfilled`: status 1 on key `orderId + 1`. */
    method HandleOrderFulfilled(orderId: nat) returns (r: Outcome<Error>)
      requires Valid() && orderId < TwoTo64
      modifies repo
      ensures Valid()
      ensures (Snapshot(), r) == SetStatus(old(Snapshot()), repo.rejects, StoredId(orderId), StatusSold)
    {
      r := repo.UpdateOrderStatus(StoredId(orderId), StatusSold);
    }

    /** `handleNFTContractDeployed`: bootstrap the new contract and return its error. */
    method HandleNFTContractDeployed(nftAddress: Bytes) returns (r: Outcome<Error>)
      requires Valid()
      modifies nftRepo, nftUC
      ensures Valid()
      ensures repo.orders == old(repo.orders) && repo.nextId == old(repo.nextId)
      ensures (nftRepo.State(), r) == NftSpec.Bootstrap(old(nftRepo.State()), nftRepo.rejects, nftUC.chain, Hex(nftAddress))
      ensures CacheKept(old(nftUC.contractCache), nftUC.contractCache)
    {
      r := nftUC.InitializeNFTCollection(Hex(nftAddress));
    }

    /**
      `InitializeOrders`: clear, reload, then bootstrap every contract address
      of the orders and of the collections, once each, in the order the address
      set yields them (`visited`), ignoring each bootstrap's outcome.  A failure
      before the bootstraps returns at once.
    */
    method InitializeOrders() returns (r: Outcome<Error>, ghost visited: seq<string>)
      requires Valid()
      modifies repo, nftRepo, nftUC
      ensures Valid()
      ensures Resync(old(Snapshot()), repo.rejects, nftRepo.rejects, contract.answer).1.Fail? ==>
        (Snapshot(), r) == Resync(old(Snapshot()), repo.rejects, nftRepo.rejects, contract.answer) && visited == []
      ensures Resync(old(Snapshot()), repo.rejects, nftRepo.rejects, contract.answer).1.Pass? ==>
        && r == Pass
        && repo.orders == Resync(old(Snapshot()), repo.rejects, nftRepo.rejects, contract.answer).0.orders
        && (forall i, j :: 0 <= i < j < |visited| ==> visited[i] != visited[j])
        && (forall a :: a in visited <==>
              a in ContractAddresses(ContractOrders(contract.answer.value), old(nftRepo.collections)))
        && nftRepo.State() ==
             BootstrapEach(Resync(old(Snapshot()), repo.rejects, nftRepo.rejects, contract.answer).0.tables,
                           nftRepo.rejects, nftUC.chain, visited)
      ensures CacheKept(old(nftUC.contractCache), nftUC.contractCache)
    {
      ghost var start := Snapshot();
      visited := [];
      r := ClearTables();
      if r.Fail? {
        return;
      }
      ghost var cleared := Snapshot();
      var orders, collections;
      r, orders, collections := Reload();
      if r.Fail? {
        return;
      }
      assert Snapshot() == Resync(start, repo.rejects, nftRepo.rejects, contract.answer).0;
      var addresses := CollectContractAddresses(orders, collections);
      assert addresses == ContractAddresses(ContractOrders(contract.answer.value), start.tables.collections);
      visited := BootstrapAll(addresses);
    }

    /** The four truncations, in order, stopping at the first refused one. */
    method ClearTables() returns (r: Outcome<Error>)
      requires Valid()
      modifies repo, nftRepo
      ensures Valid()
      ensures (Snapshot(), r) == Clear(old(Snapshot()), repo.rejects, nftRepo.rejects)
    {
      r := repo.ClearOrders();
      if r.Fail? {
        return;
      }
      r := nftRepo.ClearNFTs();
      if r.Fail? {
        return;
      }
      r := nftRepo.ClearNFTAttributes();
      if r.Fail? {
        return;
      }
      r := nftRepo.ClearNFTTransferEvents();
    }

    /** Fetch and insert the contract's orders, then list the collections. */
    method Reload() returns (r: Outcome<Error>, orders: seq<Order>, collections: seq<Collection>)
      requires Valid()
      modifies repo
      ensures Valid()
      ensures (Snapshot(), r) == MarketSpec.Reload(old(Snapshot()), repo.rejects, nftRepo.rejects, contract.answer)
      ensures r.Pass? ==> orders == ContractOrders(contract.answer.value)
      ensures r.Pass? ==> (set c | c in collections :: c.contractAddress) == nftRepo.collections.Keys
    {
      orders, collections := [], [];
      var fetched := contract.GetOrders();
      if fetched.Err? {
        return Fail(fetched.error), orders, collections;
      }
      orders := fetched.value;
      assert orders == ContractOrders(contract.answer.value);
      ghost var before := Snapshot();
      r := repo.BatchInsertOrders(orders);
      assert (Snapshot(), r) == InsertOrders(before, repo.rejects, orders);
      if r.Fail? {
        return;
      }
      var existing := nftRepo.GetAllCollections();
      if existing.Err? {
        return Fail(existing.error), orders, collections;
      }
      collections := existing.value;
      forall a | a in nftRepo.collections
        ensures a in set c | c in collections :: c.contractAddress
      {
        assert nftRepo.collections[a] in collections;
      }
    }

    /** The bootstrap loop: each address once, in an unspecified order, failures logged and skipped. */
    method BootstrapAll(addresses: set<string>) returns (ghost visited: seq<string>)
      requires Valid()
      modifies nftRepo, nftUC
      ensures Valid()
      ensures forall i, j :: 0 <= i < j < |visited| ==> visited[i] != visited[j]
      ensures forall a :: a in visited <==> a in addresses
      ensures nftRepo.State() == BootstrapEach(old(nftRepo.State()), nftRepo.rejects, nftUC.chain, visited)
      ensures CacheKept(old(nftUC.contractCache), nftUC.contractCache)
    {
      ghost var start := nftRepo.State();
      ghost var cache := nftUC.contractCache;
      var remaining := addresses;
      visited := [];
      while remaining != {}
        invariant Valid()
        invariant forall a :: a in addresses <==> a in remaining || a in visited
        invariant forall a :: a in visited ==> a !in remaining
        invariant forall i, j :: 0 <= i < j < |visited| ==> visited[i] != visited[j]
        invariant nftRepo.State() == BootstrapEach(start, nftRepo.rejects, nftUC.chain, visited)
        invariant CacheKept(cache, nftUC.contractCache)
        decreases |remaining|
      {
        var a :| a in remaining;
        BootstrapOne(a);
        assert (visited + [a])[..|visited|] == visited;
        remaining := remaining - {a};
        visited := visited + [a];
      }
    }
  
    /** One iteration of the bootstrap loop: the error is logged and dropped. */
    method BootstrapOne(contractAddress: string)
      requires Valid()
      modifies nftRepo, nftUC
      ensures Valid()
      ensures nftRepo.State() == NftSpec.Bootstrap(old(nftRepo.State()), nftRepo.rejects, nftUC.chain, contractAddress).0
      ensures CacheKept(old(nftUC.contractCache), nftUC.contractCache)
    {
      var _ := nftUC.InitializeNFTCollection(contractAddress);
    }
  }
}
