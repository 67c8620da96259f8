/**
  The order list read from the marketplace contract
  (backend/contracts/nft_market.go, `GetOrders`).

  The contract call itself (ABI packing, the call, ABI unpacking) is the
  contract's answer, fixed per contract; what is modelled is the conversion
  of the decoded tuples into order rows.
*/
module MarketContract {
  import opened Wrappers
  import opened Domain
  import opened Abi

  /** One decoded element of the `getOrders` result. */
  datatype OrderTuple = OrderTuple(
    nft: Bytes,
    tokenId: nat,
    token: Bytes,
    price: nat,
    seller: Bytes,
    status: nat)

  /** The zero value of an order row (what a freshly allocated slice holds). */
  const ZeroOrder: Order := Order(0, "", 0, "", "", "", 0)

  /**
    One tuple as an order row: addresses as hexadecimal text, the price as
    decimal text, the id left at 0 so that the store assigns one.
  */
  function ToDomainOrder(t: OrderTuple): (o: Order)
    ensures o.id == 0
    ensures o.nftContractAddress == Hex(t.nft) && o.tokenAddress == Hex(t.token) && o.seller == Hex(t.seller)
    ensures o.tokenId == t.tokenId && o.status == t.status
    ensures DecimalValue(o.price) == Some(t.price)
  {
    DecimalRoundTrip(t.price);
    Order(0, Hex(t.nft), t.tokenId, Hex(t.token), DecimalString(t.price), Hex(t.seller), t.status)
  }

  /** Distinct prices give distinct price strings, so no price is lost in conversion. */
  lemma ToDomainOrderKeepsPrice(a: OrderTuple, b: OrderTuple)
    ensures ToDomainOrder(a).price == ToDomainOrder(b).price <==> a.price == b.price
  {
    DecimalStringInjective(a.price, b.price);
  }

  class NFTMarketContract {
    const address: Bytes
    /** The decoded answer of `getOrders`, or `None` when packing, the call or unpacking fails. */
    const answer: Option<seq<OrderTuple>>

    constructor(address: Bytes, answer: Option<seq<OrderTuple>>)
      ensures this.address == address && this.answer == answer
    {
      this.address := address;
      this.answer := answer;
    }

    /**
      The orders on the contract, one row per tuple and in the same order; a
      failed call yields an error and no orders.
    */
    method GetOrders() returns (r: Result<seq<Order>, Error>)
      ensures answer.None? <==> r.Err?
      ensures r.Err? ==> r.error == ChainFailure
      ensures r.Ok? ==> |r.value| == |answer.value|
      ensures r.Ok? ==> forall i :: 0 <= i < |r.value| ==> r.value[i] == ToDomainOrder(answer.value[i])
    {
      if answer.None? {
        return Err(ChainFailure);
      }
      var tuples := answer.value;
      var domainOrders := new Order[|tuples|](_ => ZeroOrder);
      for i := 0 to |tuples|
        invariant forall j :: 0 <= j < i ==> domainOrders[j] == ToDomainOrder(tuples[j])
      {
        domainOrders[i] := ToDomainOrder(tuples[i]);
      }
      r := Ok(domainOrders[..]);
    }
  }
}
