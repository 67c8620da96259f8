/**
  What the marketplace service (backend/usecase/market_usecase.go) does to
  the store, as functions of the tables before the call: the decoding of the
  four marketplace events, the effect of each handler, and the clearing and
  reloading that `InitializeOrders` performs before it bootstraps collections.
*/
module MarketSpec {
  import opened Wrappers
  import opened Domain
  import opened Abi
  import opened Ledger
  import NftRepo
  import MarketRepo
  import opened MarketContract
  import NftSpec

  type OrderRejects = MarketRepo.Statement -> bool
  type NftRejects = NftRepo.Statement -> bool

  /** The tables the marketplace service writes: orders with their counter, and the four NFT tables. */
  datatype Stores = Stores(orders: map<nat, Order>, nextOrderId: nat, tables: NftRepo.Tables)

  predicate WellFormed(s: Stores)
  {
    MarketRepo.WellFormed(s.orders, s.nextOrderId) && NftRepo.WellFormed(s.tables)
  }

  /**
    `uint(orderId + 1)`: the primary key of the order with on-chain index
    `orderId`, computed in 64-bit unsigned arithmetic.
  */
  function StoredId(orderId: nat): (id: nat)
    requires orderId < TwoTo64
    ensures id < TwoTo64
    ensures orderId + 1 < TwoTo64 ==> id == orderId + 1
    ensures orderId + 1 == TwoTo64 ==> id == 0
  {
    (orderId + 1) % TwoTo64
  }

  /** Distinct on-chain indices have distinct keys, and no index is its own key. */
  lemma StoredIdInjective(j: nat, k: nat)
    requires j < TwoTo64 && k < TwoTo64
    ensures StoredId(j) == StoredId(k) <==> j == k
    ensures StoredId(k) != k
  {
  }

  /** The four events the marketplace contract emits, with the fields the service reads. */
  datatype MarketEvent =
    | OrderCreated(orderId: nat, nftAddress: Bytes, tokenId: nat, token: Bytes, price: nat, seller: Bytes)
    | OrderCancelled(orderId: nat)
    | OrderFulfilled(orderId: nat)
    | ContractDeployed(nftAddress: Bytes)

  /** The fields fit their ABI types: 64-bit ids, a `uint256` price, 20-byte addresses. */
  predicate Encodable(e: MarketEvent)
  {
    match e
    case OrderCreated(orderId, nftAddress, tokenId, token, price, seller) =>
      && orderId < TwoTo64 && tokenId < TwoTo64 && price < Pow256(WordLength)
      && |nftAddress| == AddressLength && |token| == AddressLength && |seller| == AddressLength
    case OrderCancelled(orderId) => orderId < TwoTo64
    case OrderFulfilled(orderId) => orderId < TwoTo64
    case ContractDeployed(nftAddress) => |nftAddress| == AddressLength
  }

  /**
    `HandleEvent`'s dispatch on the first topic and the field reads of each
    handler.  OrderCreated takes the order index, the NFT contract and the
    token id from topics 1 to 3 and the payment token, the price and the
    seller from the data words 0, 1 and the rest.  A missing topic or a data
    payload shorter than two words is an index out of range, which the
    service hits before it writes anything.
  */
  function Decode(sigs: Signatures, log: Log): (r: Result<MarketEvent, Error>)
    ensures r.Ok? ==> Encodable(r.value)
    ensures r == Err(UnknownEvent) <==>
      log.topics != [] && log.topics[0] !in {sigs.orderCreated, sigs.orderCancelled, sigs.orderFulfilled, sigs.contractDeployed}
  {
    if log.topics == [] then Err(IndexOutOfRange)
    else
      var topic := log.topics[0];
      if topic == sigs.orderCreated then
        if |log.topics| < 4 || |log.data| < 2 * WordLength then Err(IndexOutOfRange)
        else
          Ok(OrderCreated(
            Uint64(log.topics[1]),
            BytesToAddress(log.topics[2]),
            Uint64(log.topics[3]),
            BytesToAddress(log.data[..WordLength]),
            BigEndian(WordAt(log.data, 1)),
            BytesToAddress(log.data[2 * WordLength..])))
      else if topic == sigs.orderCancelled then
        if |log.topics| < 2 then Err(IndexOutOfRange) else Ok(OrderCancelled(Uint64(log.topics[1])))
      else if topic == sigs.orderFulfilled then
        if |log.topics| < 2 then Err(IndexOutOfRange) else Ok(OrderFulfilled(Uint64(log.topics[1])))
      else if topic == sigs.contractDeployed then
        if |log.topics| < 2 then Err(IndexOutOfRange) else Ok(ContractDeployed(BytesToAddress(log.topics[1])))
      else Err(UnknownEvent)
  }

  /**
    The log the contract emits for an event, laid out as the Solidity Contract
    ABI lays out events: the signature hash in topic 0, indexed parameters as
    words in the next topics, the other parameters as consecutive words in the
    data.  Only the fields the service reads are placed; the rest of `base`
    (emitter, block, transaction) is kept.
  */
  function Encode(sigs: Signatures, e: MarketEvent, base: Log): (log: Log)
    requires Encodable(e)
    ensures log.topics != [] && log.blockNumber == base.blockNumber
  {
    Pow256Monotone(8, WordLength);
    Pow256Eight();
    match e
    case OrderCreated(orderId, nftAddress, tokenId, token, price, seller) =>
      base.(topics := [sigs.orderCreated, Word(orderId), AddressWord(nftAddress), Word(tokenId)],
            data := AddressWord(token) + Word(price) + AddressWord(seller))
    case OrderCancelled(orderId) => base.(topics := [sigs.orderCancelled, Word(orderId)], data := [])
    case OrderFulfilled(orderId) => base.(topics := [sigs.orderFulfilled, Word(orderId)], data := [])
    case ContractDeployed(nftAddress) => base.(topics := [sigs.contractDeployed, AddressWord(nftAddress)], data := [])
  }

  /** Decoding reads back every field of an encoded event. */
  lemma DecodeEncode(sigs: Signatures, e: MarketEvent, base: Log)
    requires sigs.Distinct() && Encodable(e)
    ensures Decode(sigs, Encode(sigs, e, base)) == Ok(e)
  {
    var log := Encode(sigs, e, base);
    var all := [sigs.transfer, sigs.metadataUpdate, sigs.orderCreated, sigs.orderCancelled, sigs.orderFulfilled, sigs.contractDeployed];
    assert all[2] != all[3] && all[2] != all[4] && all[2] != all[5] && all[3] != all[4] && all[3] != all[5] && all[4] != all[5];
    match e
    case OrderCreated(orderId, nftAddress, tokenId, token, price, seller) =>
      WordUint64(orderId);
      WordUint64(tokenId);
      AddressWordRoundTrip(nftAddress);
      AddressWordRoundTrip(token);
      AddressWordRoundTrip(seller);
      var data := AddressWord(token) + Word(price) + AddressWord(seller);
      assert log.data == data;
      assert data[..WordLength] == AddressWord(token);
      assert WordAt(data, 1) == Word(price);
      assert data[2 * WordLength..] == AddressWord(seller);
    case OrderCancelled(orderId) =>
      WordUint64(orderId);
    case OrderFulfilled(orderId) =>
      WordUint64(orderId);
    case ContractDeployed(nftAddress) =>
      AddressWordRoundTrip(nftAddress);
  }

  /** The row an OrderCreated event stands for: stored under the index plus one, status open. */
  function CreatedOrder(e: MarketEvent): (o: Order)
    requires e.OrderCreated? && Encodable(e)
    ensures o.id == StoredId(e.orderId) && o.status == StatusOpen
    ensures o.nftContractAddress == Hex(e.nftAddress) && o.tokenId == e.tokenId
    ensures o.tokenAddress == Hex(e.token) && o.seller == Hex(e.seller)
    ensures DecimalValue(o.price) == Some(e.price)
  {
    DecimalRoundTrip(e.price);
    Order(StoredId(e.orderId), Hex(e.nftAddress), e.tokenId, Hex(e.token), DecimalString(e.price), Hex(e.seller), StatusOpen)
  }

  /** `BatchInsertOrders`: all the orders or none of them; nothing to insert is a success. */
  function InsertOrders(s: Stores, rejects: OrderRejects, batch: seq<Order>): (r: (Stores, Outcome<Error>))
    requires WellFormed(s)
    ensures WellFormed(r.0) && r.0.tables == s.tables
    ensures r.1.Fail? ==> r.0 == s
    ensures batch == [] ==> r == (s, Pass)
  {
    if batch == [] then (s, Pass)
    else if rejects(MarketRepo.InsertOrders(batch)) then (s, Fail(Rejected))
    else
      match MarketRepo.Inserted(s.orders, s.nextOrderId, batch)
      case None => (s, Fail(DuplicateKey))
      case Some(rows) => (s.(orders := rows.0, nextOrderId := rows.1), Pass)
  }

  /** `UpdateOrderStatus`: sets the status of the row with that key, if there is one. */
  function SetStatus(s: Stores, rejects: OrderRejects, id: nat, status: nat): (r: (Stores, Outcome<Error>))
    requires WellFormed(s)
    ensures WellFormed(r.0) && r.0.tables == s.tables && r.0.nextOrderId == s.nextOrderId
    ensures r.1.Fail? <==> rejects(MarketRepo.UpdateStatus(id, status))
    ensures r.1.Fail? ==> r.0 == s
  {
    if rejects(MarketRepo.UpdateStatus(id, status)) then (s, Fail(Rejected))
    else (s.(orders := MarketRepo.WithStatus(s.orders, id, status)), Pass)
  }

  /**
    `handleOrderCreated`: bootstrap the NFT contract, ignoring its failure,
    then insert the order under the index plus one.
  */
  function CreateOrder(s: Stores, orderRejects: OrderRejects, nftRejects: NftRejects, chain: Chain, e: MarketEvent): (r: (Stores, Outcome<Error>))
    requires WellFormed(s) && e.OrderCreated? && Encodable(e)
    ensures WellFormed(r.0)
    ensures r.0.tables == NftSpec.Bootstrap(s.tables, nftRejects, chain, Hex(e.nftAddress)).0
  {
    var booted := s.(tables := NftSpec.Bootstrap(s.tables, nftRejects, chain, Hex(e.nftAddress)).0);
    InsertOrders(booted, orderRejects, [CreatedOrder(e)])
  }

  /** `HandleEvent`: decode, then run the handler of the event. */
  function ApplyEvent(s: Stores, orderRejects: OrderRejects, nftRejects: NftRejects, chain: Chain, sigs: Signatures, log: Log): (r: (Stores, Outcome<Error>))
    requires WellFormed(s)
    ensures WellFormed(r.0)
  {
    match Decode(sigs, log)
    case Err(error) => (s, Fail(error))
    case Ok(e) =>
      match e
      case OrderCreated(_, _, _, _, _, _) => CreateOrder(s, orderRejects, nftRejects, chain, e)
      case OrderCancelled(orderId) => SetStatus(s, orderRejects, StoredId(orderId), StatusCancelled)
      case OrderFulfilled(orderId) => SetStatus(s, orderRejects, StoredId(orderId), StatusSold)
      case ContractDeployed(nftAddress) =>
        var booted := NftSpec.Bootstrap(s.tables, nftRejects, chain, Hex(nftAddress));
        (s.(tables := booted.0), booted.1)
  }

  /** A first topic that is none of the four signatures is an error and changes nothing. */
  lemma UnknownEventChangesNothing(s: Stores, orderRejects: OrderRejects, nftRejects: NftRejects, chain: Chain, sigs: Signatures, log: Log)
    requires WellFormed(s)
    requires log.topics != []
    requires log.topics[0] !in {sigs.orderCreated, sigs.orderCancelled, sigs.orderFulfilled, sigs.contractDeployed}
    ensures ApplyEvent(s, orderRejects, nftRejects, chain, sigs, log) == (s, Fail(UnknownEvent))
  {
  }

  /**
    OrderCreated with index K inserts exactly one row, under key K + 1, with
    status open, whatever became of the bootstrap; when the key is taken the
    orders stay as they were and the error is a duplicate key.
  */
  lemma CreatedInsertsOne(s: Stores, orderRejects: OrderRejects, nftRejects: NftRejects, chain: Chain, sigs: Signatures, log: Log)
    requires WellFormed(s)
    requires Decode(sigs, log).Ok? && Decode(sigs, log).value.OrderCreated?
    ensures var e := Decode(sigs, log).value;
      var o := CreatedOrder(e);
      var r := ApplyEvent(s, orderRejects, nftRejects, chain, sigs, log);
      o.id != 0 && !orderRejects(MarketRepo.InsertOrders([o])) ==>
        && (o.id in s.orders ==> r.1 == Fail(DuplicateKey) && r.0.orders == s.orders)
        && (o.id !in s.orders ==> r.1 == Pass && r.0.orders == s.orders[o.id := o])
  {
    var e := Decode(sigs, log).value;
    var o := CreatedOrder(e);
    var booted := s.(tables := NftSpec.Bootstrap(s.tables, nftRejects, chain, Hex(e.nftAddress)).0);
    if o.id != 0 {
      MarketRepo.InsertedExplicitId(s.orders, s.nextOrderId, o);
    }
  }

  /** The same OrderCreated log handled twice: the second insert finds the key taken. */
  lemma CreatedTwice(s: Stores, orderRejects: OrderRejects, nftRejects: NftRejects, chain: Chain, sigs: Signatures, log: Log)
    requires WellFormed(s)
    requires Decode(sigs, log).Ok? && Decode(sigs, log).value.OrderCreated?
    requires CreatedOrder(Decode(sigs, log).value).id != 0
    requires ApplyEvent(s, orderRejects, nftRejects, chain, sigs, log).1 == Pass
    ensures var once := ApplyEvent(s, orderRejects, nftRejects, chain, sigs, log).0;
      var twice := ApplyEvent(once, orderRejects, nftRejects, chain, sigs, log);
      twice.1 == Fail(DuplicateKey) && twice.0.orders == once.orders
  {
    var e := Decode(sigs, log).value;
    var o := CreatedOrder(e);
    var once := ApplyEvent(s, orderRejects, nftRejects, chain, sigs, log).0;
    CreatedInsertsOne(s, orderRejects, nftRejects, chain, sigs, log);
    assert o.id in once.orders;
    CreatedInsertsOne(once, orderRejects, nftRejects, chain, sigs, log);
  }

  /**
    OrderCancelled and OrderFulfilled with index K set status 2 and 1 on key
    K + 1; every other row, and every other field of that row, stays, and a
    missing row changes nothing.
  */
  lemma StatusEvents(s: Stores, orderRejects: OrderRejects, nftRejects: NftRejects, chain: Chain, sigs: Signatures, log: Log)
    requires WellFormed(s)
    requires Decode(sigs, log).Ok? && (Decode(sigs, log).value.OrderCancelled? || Decode(sigs, log).value.OrderFulfilled?)
    ensures var e := Decode(sigs, log).value;
      var id := StoredId(e.orderId);
      var status := if e.OrderCancelled? then StatusCancelled else StatusSold;
      var r := ApplyEvent(s, orderRejects, nftRejects, chain, sigs, log);
      && r.0.tables == s.tables
      && r.0.orders.Keys == s.orders.Keys
      && (forall k :: k in s.orders && k != id ==> r.0.orders[k] == s.orders[k])
      && (!orderRejects(MarketRepo.UpdateStatus(id, status)) ==>
            r.1 == Pass && (id in s.orders ==> r.0.orders[id] == s.orders[id].(status := status)))
  {
  }

  /**
    The two bootstrapping handlers differ: NFTContractDeployed returns the
    bootstrap's error, OrderCreated goes on to the insert whatever it was.
  */
  lemma BootstrapFailureHandling(s: Stores, orderRejects: OrderRejects, nftRejects: NftRejects, chain: Chain, sigs: Signatures, log: Log)
    requires WellFormed(s)
    requires Decode(sigs, log).Ok?
    ensures var e := Decode(sigs, log).value;
      var r := ApplyEvent(s, orderRejects, nftRejects, chain, sigs, log);
      && (e.ContractDeployed? ==> r == (s.(tables := NftSpec.Bootstrap(s.tables, nftRejects, chain, Hex(e.nftAddress)).0),
                                          NftSpec.Bootstrap(s.tables, nftRejects, chain, Hex(e.nftAddress)).1))
      && (e.OrderCreated? ==>
            var booted := s.(tables := NftSpec.Bootstrap(s.tables, nftRejects, chain, Hex(e.nftAddress)).0);
            r == InsertOrders(booted, orderRejects, [CreatedOrder(e)]))
  {
  }

  /** An order created and then cancelled through events is stored as cancelled. */
  lemma CreatedThenCancelled(s: Stores, orderRejects: OrderRejects, nftRejects: NftRejects, chain: Chain, sigs: Signatures,
                             created: Log, cancelled: Log)
    requires WellFormed(s)
    requires Decode(sigs, created).Ok? && Decode(sigs, created).value.OrderCreated?
    requires Decode(sigs, cancelled) == Ok(OrderCancelled(Decode(sigs, created).value.orderId))
    requires ApplyEvent(s, orderRejects, nftRejects, chain, sigs, created).1 == Pass
    requires CreatedOrder(Decode(sigs, created).value).id != 0
    requires !orderRejects(MarketRepo.UpdateStatus(CreatedOrder(Decode(sigs, created).value).id, StatusCancelled))
    ensures var e := Decode(sigs, created).value;
      var first := ApplyEvent(s, orderRejects, nftRejects, chain, sigs, created).0;
      var second := ApplyEvent(first, orderRejects, nftRejects, chain, sigs, cancelled);
      && second.1 == Pass
      && StoredId(e.orderId) in second.0.orders
      && second.0.orders[StoredId(e.orderId)] == CreatedOrder(e).(status := StatusCancelled)
  {
    var e := Decode(sigs, created).value;
    var first := ApplyEvent(s, orderRejects, nftRejects, chain, sigs, created).0;
    CreatedInsertsOne(s, orderRejects, nftRejects, chain, sigs, created);
    StatusEvents(first, orderRejects, nftRejects, chain, sigs, cancelled);
  }

  /** The orders the marketplace contract lists, converted to rows (`GetOrders`). */
  function ContractOrders(tuples: seq<OrderTuple>): (orders: seq<Order>)
    ensures |orders| == |tuples|
    ensures forall i :: 0 <= i < |orders| ==> orders[i] == ToDomainOrder(tuples[i])
  {
    seq(|tuples|, i requires 0 <= i < |tuples| => ToDomainOrder(tuples[i]))
  }

  /**
    The truncations `InitializeOrders` starts with: orders, NFTs, attributes
    and transfer events, in that order; collections stay.  The first refused
    truncation ends it with an error, leaving the ones before it done.
  */
  function Clear(s: Stores, orderRejects: OrderRejects, nftRejects: NftRejects): (r: (Stores, Outcome<Error>))
    requires WellFormed(s)
    ensures WellFormed(r.0)
    ensures r.0.tables.collections == s.tables.collections && r.0.tables.nextCollectionId == s.tables.nextCollectionId
    ensures r.1.Pass? <==>
      !orderRejects(MarketRepo.TruncateOrders) && !nftRejects(NftRepo.TruncateNfts)
      && !nftRejects(NftRepo.TruncateAttributes) && !nftRejects(NftRepo.TruncateTransferEvents)
    ensures r.1.Pass? ==>
      r.0 == Stores(map[], 1, s.tables.(nfts := map[], nextNftId := 1, attributes := [], events := []))
  {
    if orderRejects(MarketRepo.TruncateOrders) then (s, Fail(Rejected))
    else
      var s1 := s.(orders := map[], nextOrderId := 1);
      if nftRejects(NftRepo.TruncateNfts) then (s1, Fail(Rejected))
      else
        var s2 := s1.(tables := s1.tables.(nfts := map[], nextNftId := 1));
        if nftRejects(NftRepo.TruncateAttributes) then (s2, Fail(Rejected))
        else
          var s3 := s2.(tables := s2.tables.(attributes := []));
          if nftRejects(NftRepo.TruncateTransferEvents) then (s3, Fail(Rejected))
          else (s3.(tables := s3.tables.(events := [])), Pass)
  }

  /**
    The reload that follows: fetch the contract's orders, insert them in one
    batch, then read the existing collections.
  */
  function Reload(s: Stores, orderRejects: OrderRejects, nftRejects: NftRejects, answer: Option<seq<OrderTuple>>): (r: (Stores, Outcome<Error>))
    requires WellFormed(s)
    ensures WellFormed(r.0) && r.0.tables == s.tables
    ensures r.1.Pass? ==> answer.Some? && !nftRejects(NftRepo.SelectCollections)
    ensures r.1.Pass? ==> InsertOrders(s, orderRejects, ContractOrders(answer.value)) == (r.0, Pass)
  {
    if answer.None? then (s, Fail(ChainFailure))
    else
      var inserted := InsertOrders(s, orderRejects, ContractOrders(answer.value));
      if inserted.1.Fail? then inserted
      else if nftRejects(NftRepo.SelectCollections) then (inserted.0, Fail(Rejected))
      else (inserted.0, Pass)
  }

  /**
    Everything `InitializeOrders` does before it bootstraps collections.  On
    success the NFT tables but the collections are empty and the k-th order of
    the contract is stored under key k + 1; on failure no collection has been
    touched.
  */
  function Resync(s: Stores, orderRejects: OrderRejects, nftRejects: NftRejects, answer: Option<seq<OrderTuple>>): (r: (Stores, Outcome<Error>))
    requires WellFormed(s)
    ensures WellFormed(r.0)
    ensures r.0.tables.collections == s.tables.collections
    ensures r.1.Pass? ==> answer.Some?
    ensures r.1.Pass? ==> r.0.tables == s.tables.(nfts := map[], nextNftId := 1, attributes := [], events := [])
    ensures r.1.Pass? ==> forall k :: k in r.0.orders <==> 1 <= k <= |answer.value|
    ensures r.1.Pass? ==> forall i :: 0 <= i < |answer.value| ==> r.0.orders[i + 1] == ToDomainOrder(answer.value[i]).(id := i + 1)
  {
    var cleared := Clear(s, orderRejects, nftRejects);
    if cleared.1.Fail? then cleared
    else
      var reloaded := Reload(cleared.0, orderRejects, nftRejects, answer);
      if reloaded.1.Fail? then reloaded
      else
        MarketRepo.FreshTableIds(ContractOrders(answer.value));
        reloaded
  }

  /** After a successful resync, the lookup of on-chain index k finds the contract's k-th order. */
  lemma ResyncedOrderLookup(s: Stores, orderRejects: OrderRejects, nftRejects: NftRejects, answer: Option<seq<OrderTuple>>, k: nat)
    requires WellFormed(s)
    requires Resync(s, orderRejects, nftRejects, answer).1.Pass?
    requires k < |answer.value| && k + 1 < TwoTo64
    ensures var orders := Resync(s, orderRejects, nftRejects, answer).0.orders;
      StoredId(k) in orders && orders[StoredId(k)] == ToDomainOrder(answer.value[k]).(id := k + 1)
  {
  }

  /** The contract addresses `InitializeOrders` bootstraps: those of the orders and of the collections. */
  function ContractAddresses(orders: seq<Order>, collections: map<string, Collection>): (r: set<string>)
    ensures forall o :: o in orders ==> o.nftContractAddress in r
    ensures collections.Keys <= r
    ensures forall a :: a in r ==> a in collections || exists o :: o in orders && o.nftContractAddress == a
  {
    (set o | o in orders :: o.nftContractAddress) + collections.Keys
  }

  /** `InitializeNFTCollection` on each address in turn, every outcome ignored. */
  function BootstrapEach(t: NftRepo.Tables, rejects: NftRejects, chain: Chain, addresses: seq<string>): (r: NftRepo.Tables)
    requires NftRepo.WellFormed(t)
    ensures NftRepo.WellFormed(r)
    ensures forall a :: a in t.collections ==> a in r.collections
  {
    if addresses == [] then t
    else
      var before := BootstrapEach(t, rejects, chain, addresses[..|addresses| - 1]);
      NftSpec.Bootstrap(before, rejects, chain, addresses[|addresses| - 1]).0
  }

  /** Each address that a bootstrap in the sequence succeeds on ends with a collection row. */
  lemma {:induction false} BootstrapEachCollections(t: NftRepo.Tables, rejects: NftRejects, chain: Chain, addresses: seq<string>, i: nat)
    requires NftRepo.WellFormed(t)
    requires i < |addresses|
    requires NftSpec.Bootstrap(BootstrapEach(t, rejects, chain, addresses[..i]), rejects, chain, addresses[i]).1.Pass?
    ensures addresses[i] in BootstrapEach(t, rejects, chain, addresses).collections
    decreases |addresses|
  {
    var init := addresses[..|addresses| - 1];
    if i == |addresses| - 1 {
      assert addresses[..i] == init;
    } else {
      assert init[..i] == addresses[..i] && init[i] == addresses[i];
      BootstrapEachCollections(t, rejects, chain, init, i);
    }
  }
}
