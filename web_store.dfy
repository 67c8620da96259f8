/**
  The front-end Vuex store (web/src/store/index.js): its state, the
  mutations that write it, the `disconnectWallet` action and the
  `getFloorPrice` getter.

  Per-token entries are keyed by the text `address-tokenId`; the floor price
  is the least price among the orders of one NFT contract whose status is 1.
*/
module WebStore {
  import opened Wrappers
  import opened Domain
  import opened Abi

  /** `ethers.BigNumber.from` threw on a price that is not a number. */
  datatype StoreError = InvalidBigNumber(text: string)

  /**
    The key of a token's entry: the contract address, a dash, the token id in
    decimal.  The decimal id holds no dash, so the last dash of a key sits right
    after the address.
  */
  function TokenEntryKey(nftAddress: string, tokenId: nat): (k: string)
    ensures |k| > |nftAddress| && k[..|nftAddress|] == nftAddress && k[|nftAddress|] == '-'
    ensures forall i :: |nftAddress| < i < |k| ==> IsDigit(k[i])
    ensures k[|nftAddress| + 1..] == DecimalString(tokenId)
  {
    var d := DecimalString(tokenId);
    var k := nftAddress + "-" + d;
    assert forall i :: |nftAddress| < i < |k| ==> k[i] == d[i - |nftAddress| - 1];
    assert k[|nftAddress| + 1..] == d;
    k
  }

  /** Distinct tokens never share an entry. */
  lemma TokenEntryKeyInjective(a1: string, t1: nat, a2: string, t2: nat)
    ensures TokenEntryKey(a1, t1) == TokenEntryKey(a2, t2) <==> a1 == a2 && t1 == t2
  {
    var k := TokenEntryKey(a1, t1);
    if k == TokenEntryKey(a2, t2) {
      assert k[|a1|] == '-' == k[|a2|];
      DecimalStringInjective(t1, t2);
    }
  }

  /** An order that counts for the floor price of `nftAddress`: of that contract, with status 1. */
  predicate Active(o: Order, nftAddress: string)
  {
    o.nftContractAddress == nftAddress && o.status == StatusSold
  }

  /** The orders of one contract that count for its floor price, in list order. */
  function ActiveOrders(orders: seq<Order>, nftAddress: string): (r: seq<Order>)
    ensures |r| <= |orders|
    ensures forall i :: 0 <= i < |r| ==> Active(r[i], nftAddress)
  {
    if orders == [] then []
    else
      var rest := ActiveOrders(orders[1..], nftAddress);
      if Active(orders[0], nftAddress) then [orders[0]] + rest else rest
  }

  /** The filter keeps exactly the active orders. */
  lemma {:induction false} ActiveOrdersMembers(orders: seq<Order>, nftAddress: string)
    ensures forall o :: o in ActiveOrders(orders, nftAddress) <==> o in orders && Active(o, nftAddress)
    decreases |orders|
  {
    if orders != [] {
      ActiveOrdersMembers(orders[1..], nftAddress);
      assert orders == [orders[0]] + orders[1..];
    }
  }

  /**
    The `reduce` of `getFloorPrice`: the least of `least` and the prices of
    `orders`, each price parsed in turn; the first price that is not a number
    throws.
  */
  function LeastPrice(orders: seq<Order>, least: nat): (r: Result<nat, StoreError>)
    ensures r.Ok? ==> r.value <= least
    ensures r.Ok? ==> forall i :: 0 <= i < |orders| ==>
      DecimalValue(orders[i].price).Some? && r.value <= DecimalValue(orders[i].price).value
    ensures r.Err? ==>
      exists i :: 0 <= i < |orders| && r.error == InvalidBigNumber(orders[i].price) && DecimalValue(orders[i].price).None?
  {
    if orders == [] then Ok(least)
    else
      match DecimalValue(orders[0].price)
      case None => Err(InvalidBigNumber(orders[0].price))
      case Some(p) => LeastPrice(orders[1..], if p < least then p else least)
  }

  /** `getFloorPrice(nftAddress)`: `None` for null, `Err` when a price throws. */
  function FloorPrice(orders: seq<Order>, nftAddress: string): (r: Result<Option<nat>, StoreError>)
    ensures r == Ok(None) <==> ActiveOrders(orders, nftAddress) == []
    ensures r.Ok? && r.value.Some? ==> forall i :: 0 <= i < |ActiveOrders(orders, nftAddress)| ==>
      var price := DecimalValue(ActiveOrders(orders, nftAddress)[i].price);
      price.Some? && r.value.value <= price.value
  {
    var active := ActiveOrders(orders, nftAddress);
    if active == [] then Ok(None)
    else
      match DecimalValue(active[0].price)
      case None => Err(InvalidBigNumber(active[0].price))
      case Some(first) =>
        match LeastPrice(active, first)
        case Err(e) => Err(e)
        case Ok(least) => Ok(Some(least))
  }

  /** The reduce throws exactly when some price is not a number, and otherwise finds a least price. */
  lemma {:induction false} LeastPriceSpec(orders: seq<Order>, least: nat)
    ensures LeastPrice(orders, least).Err? <==> exists o :: o in orders && DecimalValue(o.price).None?
    ensures LeastPrice(orders, least).Ok? ==>
      var m := LeastPrice(orders, least).value;
      && m <= least
      && (m == least || exists o :: o in orders && DecimalValue(o.price) == Some(m))
      && (forall o :: o in orders ==> DecimalValue(o.price).Some? && m <= DecimalValue(o.price).value)
    decreases |orders|
  {
    if orders != [] {
      var head := orders[0];
      var tail := orders[1..];
      assert orders == [head] + tail;
      assert forall o :: o in orders <==> o == head || o in tail;
      if DecimalValue(head.price).Some? {
        var p := DecimalValue(head.price).value;
        LeastPriceSpec(tail, if p < least then p else least);
      }
    }
  }

  /** No active order means null, whatever the other orders hold. */
  lemma FloorPriceNull(orders: seq<Order>, nftAddress: string)
    ensures FloorPrice(orders, nftAddress) == Ok(None) <==> forall o :: o in orders ==> !Active(o, nftAddress)
  {
    ActiveOrdersMembers(orders, nftAddress);
    var active := ActiveOrders(orders, nftAddress);
    if active != [] {
      assert active[0] in active;
      if DecimalValue(active[0].price).Some? {
        LeastPriceSpec(active, DecimalValue(active[0].price).value);
      }
    }
  }

  /**
    A floor price is the price of one active order and no active order is
    cheaper; the getter throws exactly when an active order's price is not a
    number.
  */
  lemma FloorPriceIsLeast(orders: seq<Order>, nftAddress: string)
    ensures FloorPrice(orders, nftAddress).Err? <==>
      exists o :: o in orders && Active(o, nftAddress) && DecimalValue(o.price).None?
    ensures FloorPrice(orders, nftAddress).Ok? && FloorPrice(orders, nftAddress).value.Some? ==>
      var m := FloorPrice(orders, nftAddress).value.value;
      && (exists o :: o in orders && Active(o, nftAddress) && DecimalValue(o.price) == Some(m))
      && (forall o :: o in orders && Active(o, nftAddress) ==> DecimalValue(o.price).Some? && m <= DecimalValue(o.price).value)
  {
    ActiveOrdersMembers(orders, nftAddress);
    var active := ActiveOrders(orders, nftAddress);
    if active != [] {
      assert active[0] in active;
      if DecimalValue(active[0].price).Some? {
        LeastPriceSpec(active, DecimalValue(active[0].price).value);
      }
    }
  }

  /** Only active orders matter: the floor price of the list is that of its active orders. */
  lemma {:induction false} FloorPriceIgnoresInactive(orders: seq<Order>, nftAddress: string)
    ensures FloorPrice(orders, nftAddress) == FloorPrice(ActiveOrders(orders, nftAddress), nftAddress)
  {
    ActiveOrdersIdempotent(orders, nftAddress);
  }

  lemma {:induction false} ActiveOrdersIdempotent(orders: seq<Order>, nftAddress: string)
    ensures ActiveOrders(ActiveOrders(orders, nftAddress), nftAddress) == ActiveOrders(orders, nftAddress)
    decreases |orders|
  {
    if orders != [] {
      ActiveOrdersIdempotent(orders[1..], nftAddress);
      var rest := ActiveOrders(orders[1..], nftAddress);
      if Active(orders[0], nftAddress) {
        assert ([orders[0]] + rest)[1..] == rest;
      }
    }
  }

  /** The store's state. */
  class Store {
    var isWalletConnected: bool
    var currentUserAddress: string
    var orders: seq<Order>
    var nftNames: map<string, string>
    var nftIconURIs: map<string, string>
    var nftImageUrls: map<string, string>
    var tokenURIs: map<string, string>
    const rexContractAddress: string

    /** The initial state: disconnected, no orders, every map empty. */
    constructor()
      ensures !isWalletConnected && currentUserAddress == "" && orders == []
      ensures nftNames == map[] && nftIconURIs == map[] && nftImageUrls == map[] && tokenURIs == map[]
      ensures rexContractAddress == "0xFDFF13B8b4C3DD752A57fEC5dD4DC9E2f23EDE64"
    {
      isWalletConnected := false;
      currentUserAddress := "";
      orders := [];
      nftNames := map[];
      nftIconURIs := map[];
      nftImageUrls := map[];
      tokenURIs := map[];
      rexContractAddress := "0xFDFF13B8b4C3DD752A57fEC5dD4DC9E2f23EDE64";
    }

    /** `setOrders`: the list is replaced wholesale. */
    method SetOrders(orders: seq<Order>)
      modifies this
      ensures this.orders == orders
      ensures isWalletConnected == old(isWalletConnected) && currentUserAddress == old(currentUserAddress)
      ensures nftNames == old(nftNames) && nftIconURIs == old(nftIconURIs)
      ensures nftImageUrls == old(nftImageUrls) && tokenURIs == old(tokenURIs)
    {
      this.orders := orders;
    }

    /** `setWalletConnection`. */
    method SetWalletConnection(isConnected: bool)
      modifies this
      ensures isWalletConnected == isConnected && currentUserAddress == old(currentUserAddress) && orders == old(orders)
      ensures nftNames == old(nftNames) && nftIconURIs == old(nftIconURIs)
      ensures nftImageUrls == old(nftImageUrls) && tokenURIs == old(tokenURIs)
    {
      isWalletConnected := isConnected;
    }

    /** `setCurrentUserAddress`. */
    method SetCurrentUserAddress(address: string)
      modifies this
      ensures currentUserAddress == address && isWalletConnected == old(isWalletConnected) && orders == old(orders)
      ensures nftNames == old(nftNames) && nftIconURIs == old(nftIconURIs)
      ensures nftImageUrls == old(nftImageUrls) && tokenURIs == old(tokenURIs)
    {
      currentUserAddress := address;
    }

    /**
      `setNFTInfo`: field 'name' writes the contract's name, field 'iconURI'
      its icon; any other field changes nothing.
    */
    method SetNFTInfo(address: string, field: string, value: string)
      modifies this
      ensures field == "name" ==> nftNames == old(nftNames)[address := value] && nftIconURIs == old(nftIconURIs)
      ensures field == "iconURI" ==> nftIconURIs == old(nftIconURIs)[address := value] && nftNames == old(nftNames)
      ensures field != "name" && field != "iconURI" ==> nftNames == old(nftNames) && nftIconURIs == old(nftIconURIs)
      ensures isWalletConnected == old(isWalletConnected) && currentUserAddress == old(currentUserAddress)
      ensures orders == old(orders) && nftImageUrls == old(nftImageUrls) && tokenURIs == old(tokenURIs)
    {
      if field == "name" {
        nftNames := nftNames[address := value];
      } else if field == "iconURI" {
        nftIconURIs := nftIconURIs[address := value];
      }
    }

    /** `setNFTImageUrl`: only this token's image entry is written. */
    method SetNFTImageUrl(nftAddress: string, tokenId: nat, imageUrl: string)
      modifies this
      ensures nftImageUrls == old(nftImageUrls)[TokenEntryKey(nftAddress, tokenId) := imageUrl]
      ensures forall a, t :: TokenEntryKey(a, t) in old(nftImageUrls) && (a != nftAddress || t != tokenId) ==>
        TokenEntryKey(a, t) in nftImageUrls && nftImageUrls[TokenEntryKey(a, t)] == old(nftImageUrls)[TokenEntryKey(a, t)]
      ensures isWalletConnected == old(isWalletConnected) && currentUserAddress == old(currentUserAddress)
      ensures orders == old(orders) && nftNames == old(nftNames) && nftIconURIs == old(nftIconURIs) && tokenURIs == old(tokenURIs)
    {
      nftImageUrls := nftImageUrls[TokenEntryKey(nftAddress, tokenId) := imageUrl];
      forall a, t | a != nftAddress || t != tokenId
        ensures TokenEntryKey(a, t) != TokenEntryKey(nftAddress, tokenId)
      {
        TokenEntryKeyInjective(a, t, nftAddress, tokenId);
      }
    }

    /** `setTokenURI`: only this token's URI entry is written. */
    method SetTokenURI(nftAddress: string, tokenId: nat, tokenURI: string)
      modifies this
      ensures tokenURIs == old(tokenURIs)[TokenEntryKey(nftAddress, tokenId) := tokenURI]
      ensures forall a, t :: TokenEntryKey(a, t) in old(tokenURIs) && (a != nftAddress || t != tokenId) ==>
        TokenEntryKey(a, t) in tokenURIs && tokenURIs[TokenEntryKey(a, t)] == old(tokenURIs)[TokenEntryKey(a, t)]
      ensures isWalletConnected == old(isWalletConnected) && currentUserAddress == old(currentUserAddress)
      ensures orders == old(orders) && nftNames == old(nftNames) && nftIconURIs == old(nftIconURIs) && nftImageUrls == old(nftImageUrls)
    {
      tokenURIs := tokenURIs[TokenEntryKey(nftAddress, tokenId) := tokenURI];
      forall a, t | a != nftAddress || t != tokenId
        ensures TokenEntryKey(a, t) != TokenEntryKey(nftAddress, tokenId)
      {
        TokenEntryKeyInjective(a, t, nftAddress, tokenId);
      }
    }

    /** `disconnectWallet`: disconnected, with no current user; nothing else changes. */
    method DisconnectWallet()
      modifies this
      ensures !isWalletConnected && currentUserAddress == ""
      ensures orders == old(orders) && nftNames == old(nftNames) && nftIconURIs == old(nftIconURIs)
      ensures nftImageUrls == old(nftImageUrls) && tokenURIs == old(tokenURIs)
    {
      SetWalletConnection(false);
      SetCurrentUserAddress("");
    }

    /** `getFloorPrice` on the current orders. */
    function GetFloorPrice(nftAddress: string): (r: Result<Option<nat>, StoreError>)
      reads this
      ensures r.Ok? && r.value.Some? ==>
        (exists o :: o in orders && Active(o, nftAddress) && DecimalValue(o.price) == Some(r.value.value))
        && (forall o :: o in orders && Active(o, nftAddress) ==>
              DecimalValue(o.price).Some? && r.value.value <= DecimalValue(o.price).value)
      ensures r == Ok(None) <==> forall o :: o in orders ==> !Active(o, nftAddress)
    {
      FloorPriceIsLeast(orders, nftAddress);
      FloorPriceNull(orders, nftAddress);
      FloorPrice(orders, nftAddress)
    }
  }
}
