/**
  What the service reads from the chain and from metadata hosts
  (backend/contracts/nft_contract.go and the calls the use cases make on it).

  Every read is a total function of its arguments that may answer `None`
  (a failed call); the service's behaviour is proved for every such chain.
*/
module Ledger {
  import opened Wrappers
  import opened Abi

  /** A raw event log (`types.Log`): emitting contract, topics, data payload, block and transaction. */
  datatype Log = Log(
    address: Bytes,
    topics: seq<Bytes>,
    data: Bytes,
    blockNumber: nat,
    txHash: Bytes)

  datatype Trait = Trait(traitType: string, value: string)

  /** The JSON document a token URI points to. */
  datatype Metadata = Metadata(name: string, description: string, image: string, attributes: seq<Trait>)

  /**
    The answers of the ledger endpoint and of the metadata hosts, per call.
    `connects(a)` says whether a client for contract `a` can be constructed;
    `transferLogs(a)` stands for the creation-block search, the head-block query and
    the Transfer log range query together, in the order the chain returns them.
  */
  datatype Chain = Chain(
    connects: string -> bool,
    name: string -> Option<string>,
    symbol: string -> Option<string>,
    tokenIconURI: string -> Option<string>,
    totalSupply: string -> Option<nat>,
    tokenURI: (string, nat) -> Option<string>,
    ownerOf: (string, nat) -> Option<string>,
    metadata: string -> Option<Metadata>,
    blockTimestamp: nat -> Option<nat>,
    transferLogs: string -> Option<seq<Log>>)

  /**
    The Keccak-256 hashes of the event signatures the service recognises.  They
    are opaque here; all the model relies on is that they are pairwise distinct.
  */
  datatype Signatures = Signatures(
    transfer: Bytes,            // Transfer(address,address,uint256)
    metadataUpdate: Bytes,      // MetadataUpdate(uint256)
    orderCreated: Bytes,        // OrderCreated(uint256,address,uint256,address,uint256,address)
    orderCancelled: Bytes,      // OrderCancelled(uint256)
    orderFulfilled: Bytes,      // OrderFulfilled(uint256,address)
    contractDeployed: Bytes)    // NFTContractDeployed(address,string,string)
  {
    predicate Distinct()
    {
      var all := [transfer, metadataUpdate, orderCreated, orderCancelled, orderFulfilled, contractDeployed];
      forall i, j :: 0 <= i < j < |all| ==> all[i] != all[j]
    }
  }

  /** A client bound to one deployed NFT contract. */
  class NFTContract {
    const address: string

    constructor(address: string)
      ensures this.address == address
    {
      this.address := address;
    }
  }
}
