/**
  The rows of the four tables (backend/domain/models.go) and the transfer-history row.

  Every `uint` column is a `nat`; addresses, URIs and prices are the strings the
  service stores.  The auto-increment primary keys are `id` fields; a row built by
  the service before it is saved carries `id == 0`, which asks the store for one.
*/
module Domain {

  datatype Collection = Collection(
    id: nat,
    contractAddress: string,
    name: string,
    symbol: string,
    tokenIconURI: string)

  datatype NFT = NFT(
    id: nat,
    collectionId: nat,
    tokenId: nat,
    contractAddress: string,
    owner: string,
    tokenURI: string,
    name: string,
    description: string,
    image: string)

  /** One trait of a token; `nftId` is the id of the NFT row it belongs to. */
  datatype Attribute = Attribute(nftId: nat, traitType: string, value: string)

  datatype Order = Order(
    id: nat,
    nftContractAddress: string,
    tokenId: nat,
    tokenAddress: string,
    price: string,
    seller: string,
    status: nat)

  /** Order status codes: 0 not sold, 1 sold, 2 cancelled. */
  const StatusOpen: nat := 0
  const StatusSold: nat := 1
  const StatusCancelled: nat := 2

  /** The `event_type` column: "mint" or "transfer". */
  datatype TransferKind = Mint | Transfer

  /** A row of the transfer-history table; the block timestamp is in Unix seconds. */
  datatype TransferEvent = TransferEvent(
    contractAddress: string,
    tokenId: nat,
    eventType: TransferKind,
    fromAddress: string,
    toAddress: string,
    transactionHash: string,
    blockNumber: nat,
    blockTimestamp: nat)

  /** The error kinds the core returns. */
  datatype Error =
    | NotFound            // no row matches (GORM's record-not-found)
    | Rejected            // the database refused a statement
    | DuplicateKey        // an insert reused an existing primary key
    | ChainFailure        // a contract call or client construction failed
    | MetadataUnavailable // the token's metadata document could not be fetched or decoded
    | UnknownEvent        // a market log whose first topic is not one of the known events
    | IndexOutOfRange     // a log too short for its event's layout (a panic in the Go code)
}
