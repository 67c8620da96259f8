# NFTMarket ingestion and reconciliation, in Dafny

NFTMarket is an NFT marketplace. A Go backend mirrors the on-chain state of a
marketplace contract and its NFT collections into MySQL tables, and a Vuex
store in the web front end keeps the orders and per-token display data. This
project models the part of the system that turns chain data into rows:

- **Market side** (`MarketService`, `MarketSpec`, `MarketRepo`, `MarketContract`).
  - Market logs are dispatched on their first topic.
  - `OrderCreated` is decoded with the Solidity ABI event layout: indexed
    parameters in topics 1..3, the other parameters in consecutive 32-byte
    words of `data`.
  - On-chain order index K is stored under row id K + 1, computed as the
    source's `uint64` arithmetic does, so 2^64 - 1 wraps to 0.
  - `OrderCancelled` and `OrderFulfilled` set status 2 and 1.
  - The full resync (`InitializeOrders`) runs in order:
    1. clears four tables;
    2. bulk-inserts the contract's order list;
    3. takes the union of order and collection addresses;
    4. bootstraps every address, tolerating failures.
- **NFT side** (`NftService`, `NftSpec`, `NftRepo`).
  - The contract-client cache.
  - ERC-721 `Transfer` logs are classified as mint or transfer, and they set
    the owner.
  - EIP-4906 `MetadataUpdate` logs record a "mint" row and refresh the token.
    They append attribute rows and never delete earlier ones.
  - The collection bootstrap runs in order:
    1. ensures the collection row;
    2. replays the transfer history;
    3. initialises tokens 0..totalSupply-1, continuing past failures.
  - Read lookups that miss bootstrap lazily.
- **Repositories** (`NftRepo`, `MarketRepo`).
  - Upsert by natural key, owner and status updates.
  - Append-only attribute and history rows.
  - History ordered by block number, the latest event, and table truncation.
  - MySQL AUTO_INCREMENT behaviour:
    - TRUNCATE resets the counter to 1;
    - an explicit id raises the counter past it;
    - a duplicate key fails the whole batch.
- **Web store** (`WebStore`).
  - The keyed mutations of the Vuex store.
  - The `getFloorPrice` getter: the least price among the orders of an NFT
    contract that have status 1.

How the environment is represented:

- **Stateful objects.** The source objects that change state are classes:
  - the two repositories: tables as maps and sequences, plus counters;
  - `NFTUseCase`: the repository and the `contractCache` map;
  - `MarketUseCase`;
  - the web `Store`.
- **Specifications.** Every method that writes tables is proved equal to a
  pure function over the table contents (`NftSpec`, `MarketSpec`); the read
  methods state their result directly. The promised properties are lemmas
  about those functions.
- **Chain and HTTP reads.** `tokenURI`, `ownerOf`, metadata, `totalSupply`,
  names, block timestamps, the transfer-log scan and the marketplace
  `getOrders` answer are an oracle: the `Ledger.Chain` value of
  Option-returning functions, and the `answer` of the `NFTMarketContract`.
- **Database failures.** Each repository holds a fixed predicate `rejects`
  over the statements it sends, so a statement's success is deterministic.
  Truncates, inserts, upserts, updates, the list queries and both history
  queries can be refused. The three single-row lookups by key fail only with
  not-found (see "Left out").
- **Event signatures.** The keccak topic hashes are the opaque fields of
  `Ledger.Signatures`, assumed pairwise distinct where a lemma needs it.

Two behaviours are modelled as the code has them, though a reader might not
expect them:

- A `MetadataUpdate` appends new attribute rows. It does not replace the
  token's attributes.
- A status update for an order id with no row is not an error. GORM's
  `Update` matching nothing returns nil, so the handler succeeds and nothing
  changes.

## Model

| member | source | states |
|---|---|---|
| Abi.BigEndian | backend/usecase/market_usecase.go:183 | `SetBytes`: the value of k bytes is below 256^k |
| Abi.Hex | backend/contracts/nft_market.go:86-93 | `Address.Hex()`: "0x" followed by two characters per byte |
| Abi.HexInjective | backend/contracts/nft_market.go:86-93 | two byte strings have the same text iff they are equal, so address keys tell addresses apart |
| Abi.Uint64 | backend/usecase/market_usecase.go:177 | `SetBytes(..).Uint64()`: the value is below 2^64 and equals the big-endian value when at most 8 bytes are given |
| Abi.EncodeBigEndianRoundTrip | backend/usecase/market_usecase.go:183 | big-endian encoding into k bytes is read back by `SetBytes` for every value below 256^k |
| Abi.Word | backend/usecase/market_usecase.go:181-184 | an ABI word is 32 bytes whose big-endian value is the encoded number |
| Abi.BytesToAddress | backend/usecase/market_usecase.go:182-184 | an address is 20 bytes; for a 32-byte word it is the low 20 bytes |
| Abi.AddressWordRoundTrip | backend/usecase/market_usecase.go:178 | an address left-padded to a topic word reads back as the same address |
| Abi.WordUint64 | backend/usecase/market_usecase.go:177-179 | an id below 2^64 written as a word reads back through `Uint64` unchanged |
| Abi.DecimalString | backend/usecase/market_usecase.go:197 | `big.Int.String()`: non-empty, all digits, no leading zero |
| Abi.DigitsValue | web/src/store/index.js:111 | digits parse exactly when every character is a decimal digit |
| Abi.DecimalValue | web/src/store/index.js:111 | a decimal price parses exactly when it is a non-empty digit string |
| Abi.DecimalRoundTrip | backend/contracts/nft_market.go:90 | the stored price string parses back to the integer it came from |
| Abi.DecimalStringInjective | backend/contracts/nft_market.go:90 | two prices give the same string iff they are equal |
| Abi.WordAt | backend/usecase/market_usecase.go:183 | word i of the data is the 32 bytes starting at 32*i |
| Abi.EncodeBigEndian | backend/usecase/market_usecase.go:183 | the k-byte encoding has length k |
| Abi.AddressWord | backend/usecase/market_usecase.go:178 | a padded address occupies one 32-byte word |
| Ledger.NFTContract.constructor | backend/usecase/nft_usecase.go:52 | a contract client is bound to the address it was built for |
| MarketContract.ToDomainOrder | backend/contracts/nft_market.go:86-93 | a tuple becomes an order with id 0, hex addresses, the token id and status copied, and a price that parses back to the tuple's price |
| MarketContract.ToDomainOrderKeepsPrice | backend/contracts/nft_market.go:90 | two converted orders have the same price string iff their tuples have the same price |
| MarketContract.NFTMarketContract.constructor | backend/contracts/nft_market.go:25-53 | the client holds its address and the contract's order answer |
| MarketContract.NFTMarketContract.GetOrders | backend/contracts/nft_market.go:55-97 | a failed call returns an error and no orders; otherwise one order per tuple, the i-th from the i-th tuple |
| MarketRepo.Inserted | backend/repository/market_repository.go:29-31 | a batch that succeeds keeps every existing row and leaves the table well-formed; it fails as a whole on a taken id |
| MarketRepo.InsertedCount | backend/repository/market_repository.go:29-31 | a successful batch adds exactly one row per order |
| MarketRepo.InsertedAutoIds | backend/repository/market_repository.go:29-31 | orders with id 0 always insert, receive consecutive ids from the counter in list order, and advance it by their number |
| MarketRepo.FreshTableIds | backend/repository/market_repository.go:24-31 | after a truncate, n orders with id 0 get ids exactly 1..n, the i-th order under i+1 |
| MarketRepo.InsertedExplicitId | backend/repository/market_repository.go:29-31 | an order with an explicit id fails on a taken id and otherwise lands under that id, lifting the counter past it |
| MarketRepo.WithStatus | backend/repository/market_repository.go:32-34 | a status update changes only the status of the row with that id; every other row stays, and a missing id changes nothing |
| MarketRepo.WithStatusIdempotent | backend/repository/market_repository.go:32-34 | applying the same status update twice equals applying it once |
| MarketRepo.MarketRepository.constructor | backend/repository/market_repository.go:13-15 | a new repository has an empty orders table with the counter at 1 |
| MarketRepo.MarketRepository.GetOrderByID | backend/repository/market_repository.go:17-21 | returns the row whose primary key is the id, or not-found when there is none |
| MarketRepo.MarketRepository.ClearOrders | backend/repository/market_repository.go:24-26 | on success the table is empty and the counter is back at 1; a refused truncate changes nothing |
| MarketRepo.MarketRepository.BatchInsertOrders | backend/repository/market_repository.go:29-31 | the new table is `Inserted` of the old one; a refused or duplicate batch leaves the table unchanged; an empty batch sends nothing and succeeds |
| MarketRepo.MarketRepository.UpdateOrderStatus | backend/repository/market_repository.go:32-34 | the new table is `WithStatus` of the old one; no match is not an error |
| MarketSpec.StoredId | backend/usecase/market_usecase.go:193-212 | the stored id is on-chain index + 1 in `uint64` arithmetic: 2^64 - 1 wraps to 0 |
| MarketSpec.StoredIdInjective | backend/usecase/market_usecase.go:80-82 | distinct on-chain indices map to distinct row ids, and index K is never stored under K |
| MarketSpec.Decode | backend/usecase/market_usecase.go:161-216 | a log without topics fails; a decoded event always fits the ABI widths; the result is the unknown-event error iff topic 0 is none of the four signatures |
| MarketSpec.Encode | backend/usecase/market_usecase.go:176-184 | the ABI layout of a market event carries at least one topic and the block of the log it is based on |
| MarketSpec.DecodeEncode | backend/usecase/market_usecase.go:176-184 | decoding the ABI encoding of any market event gives the event back: ids and NFT address from topics, token, price and seller from data words 0, 1 and 2 |
| MarketSpec.CreatedOrder | backend/usecase/market_usecase.go:192-200 | the created row has the stored id of the index, status 0, the hex addresses, the token id, and a price that parses back to the event's price |
| MarketSpec.InsertOrders | backend/repository/market_repository.go:29-31 | an insert touches only the orders; a failed one changes nothing; an empty batch succeeds and changes nothing |
| MarketSpec.SetStatus | backend/usecase/market_usecase.go:205-213 | a status update touches only the orders and fails exactly when the database refuses it, then changing nothing |
| MarketSpec.CreateOrder | backend/usecase/market_usecase.go:176-203 | the NFT tables are those of bootstrapping the event's NFT address, whatever its outcome |
| MarketSpec.ApplyEvent | backend/usecase/market_usecase.go:161-174 | handling any market log keeps the stores well-formed |
| MarketSpec.UnknownEventChangesNothing | backend/usecase/market_usecase.go:161-174 | a first topic outside the four signatures returns an error and changes no table |
| MarketSpec.CreatedInsertsOne | backend/usecase/market_usecase.go:176-203 | OrderCreated K inserts exactly the created row under K + 1; when that id is taken it fails with a duplicate key and leaves the orders as they were |
| MarketSpec.CreatedTwice | backend/usecase/market_usecase.go:176-203 | handling the same OrderCreated log a second time fails with a duplicate key and changes no order |
| MarketSpec.StatusEvents | backend/usecase/market_usecase.go:205-213 | OrderCancelled and OrderFulfilled K set status 2 and 1 on row K + 1 only; other rows, other fields and the NFT tables stay |
| MarketSpec.BootstrapFailureHandling | backend/usecase/market_usecase.go:186-224 | NFTContractDeployed returns the bootstrap's outcome; OrderCreated goes on to the insert whatever the bootstrap's outcome |
| MarketSpec.CreatedThenCancelled | backend/usecase/market_usecase.go:176-208 | an order created and then cancelled through events is stored as the created row with status 2 |
| MarketSpec.ContractAddresses | backend/usecase/market_usecase.go:113-135 | the set holds every order's NFT address and every collection's address, and no other address |
| MarketSpec.ContractOrders | backend/usecase/market_usecase.go:108 | the fetched orders are the converted tuples, one per tuple, in order |
| MarketSpec.Clear | backend/usecase/market_usecase.go:89-105 | the four truncations succeed together exactly when none is refused; they empty orders, NFTs, attributes and history but never collections |
| MarketSpec.Reload | backend/usecase/market_usecase.go:107-130 | a reload that passes fetched an answer, inserted its converted orders successfully and read the collections |
| MarketSpec.Resync | backend/usecase/market_usecase.go:88-130 | on success the orders are exactly ids 1..n, row i + 1 holding the i-th converted tuple, and the NFT tables are truncated; collections always stay |
| MarketSpec.ResyncedOrderLookup | backend/usecase/market_usecase.go:80-119 | after a resync, reading on-chain index k finds the k-th tuple of the contract's list |
| MarketSpec.BootstrapEach | backend/usecase/market_usecase.go:137-144 | bootstrapping a list of addresses keeps the tables well-formed and keeps every collection row |
| MarketSpec.BootstrapEachCollections | backend/usecase/market_usecase.go:137-144 | every address whose own bootstrap passes has a collection row at the end, whatever failed before or after |
| MarketService.CollectContractAddresses | backend/usecase/market_usecase.go:113-135 | the address set is the union of the orders' NFT addresses and the collections' addresses |
| MarketService.MarketUseCase.constructor | backend/usecase/market_usecase.go:26-41 | the use case is wired to the market repository, the NFT repository of the NFT use case and the market contract |
| MarketService.MarketUseCase.GetOrderByID | backend/usecase/market_usecase.go:80-82 | reads the row with id `StoredId(k)`, that is k + 1, never k |
| MarketService.MarketUseCase.HandleEvent | backend/usecase/market_usecase.go:161-174 | the new stores and the result are `ApplyEvent` of the old stores |
| MarketService.MarketUseCase.HandleOrderCreated | backend/usecase/market_usecase.go:176-203 | the new stores and the result are `CreateOrder` of the old stores |
| MarketService.MarketUseCase.HandleOrderCancelled | backend/usecase/market_usecase.go:205-208 | the update is `SetStatus` with status 2 on the stored id |
| MarketService.MarketUseCase.HandleOrderFulfilled | backend/usecase/market_usecase.go:210-213 | the update is `SetStatus` with status 1 on the stored id |
| MarketService.MarketUseCase.HandleNFTContractDeployed | backend/usecase/market_usecase.go:215-224 | the NFT tables and the result are the bootstrap's; the orders are untouched |
| MarketService.MarketUseCase.InitializeOrders | backend/usecase/market_usecase.go:88-147 | a failing clear, fetch, insert or collection read returns that error before any bootstrap; otherwise it returns nil, the orders are the resynced ones, and each address of the union is bootstrapped exactly once |
| MarketService.MarketUseCase.ClearTables | backend/usecase/market_usecase.go:89-105 | the four truncations in order, stopping at the first refusal, equal `Clear` |
| MarketService.MarketUseCase.Reload | backend/usecase/market_usecase.go:107-130 | fetch, insert and collection read equal `Reload`; the returned orders are the converted tuples and the collections are exactly the table's |
| MarketService.MarketUseCase.BootstrapAll | backend/usecase/market_usecase.go:137-144 | each address of the set is visited exactly once, in some order, and the tables are `BootstrapEach` over that order |
| MarketService.MarketUseCase.BootstrapOne | backend/usecase/market_usecase.go:140-143 | one loop step: the tables are those of the bootstrap, and its error is dropped |
| NftRepo.EmptyWellFormed | backend/domain/models.go:3-31 | empty tables are well-formed with distinct ids |
| NftRepo.PutCollection | backend/repository/nft_repository.go:79-83 | the upsert writes the collection under its address, keeps the existing id or assigns a fresh one, and leaves every other address and table alone |
| NftRepo.PutCollectionKeepsIdsDistinct | backend/repository/nft_repository.go:79-83 | an upsert never gives two collections the same id |
| NftRepo.PutCollectionIdempotent | backend/repository/nft_repository.go:79-83 | upserting the same collection twice equals upserting it once |
| NftRepo.PutNft | backend/repository/nft_repository.go:86-90 | the upsert writes the NFT under (address, token id), overwriting or creating one row, and leaves every other key and table alone |
| NftRepo.PutNftKeepsIdsDistinct | backend/repository/nft_repository.go:86-90 | an upsert never gives two NFTs the same id |
| NftRepo.PutNftIdempotent | backend/repository/nft_repository.go:86-90 | upserting the same NFT twice equals upserting it once |
| NftRepo.LowestIdKey | backend/repository/nft_repository.go:86-90 | `First`: the chosen key is among the matches and its row has the lowest id |
| NftRepo.PutNftAsWritten | backend/repository/nft_repository.go:86-90 | the upsert as written keeps the tables well-formed and equals `PutNft` for a non-zero token id and a non-empty address |
| NftRepo.TokenZeroUpsertOverwritesAnotherToken | backend/repository/nft_repository.go:86-90 | with token 1 stored, the upsert of token 0 as written rewrites token 1's owner and creates no token-0 row; `PutNft` creates it and leaves token 1 alone |
| NftRepo.SetOwner | backend/repository/nft_repository.go:93-97 | only the owner of the matching token changes; an absent token changes nothing |
| NftRepo.SetOwnerIdempotent | backend/repository/nft_repository.go:93-97 | setting the same owner twice equals setting it once |
| NftRepo.AddAttribute | backend/repository/nft_repository.go:61-63 | an attribute row is appended; existing rows and other tables are unchanged |
| NftRepo.AddEvent | backend/repository/nft_repository.go:107-109 | a history row is appended; existing rows and other tables are unchanged |
| NftRepo.AttributesOf | backend/repository/nft_repository.go:23-27 | the attributes read for an NFT id are rows carrying that id, no more of them than the table holds |
| NftRepo.AttributesOfMembers | backend/repository/nft_repository.go:23-27 | the attributes read for an NFT id are exactly the rows with that id |
| NftRepo.AttributesOfAppend | backend/repository/nft_repository.go:23-27 | appending rows of one NFT adds exactly those rows, in order, to its read |
| NftRepo.EventsOf | backend/repository/nft_repository.go:113 | the filtered history holds exactly the rows of the token |
| NftRepo.InsertByBlock | backend/repository/nft_repository.go:114 | inserting a row into a history adds exactly that row |
| NftRepo.InsertByBlockSorted | backend/repository/nft_repository.go:114 | inserting by block number keeps a history sorted |
| NftRepo.SortByBlock | backend/repository/nft_repository.go:114 | the sorted history is ordered by block number and a permutation of its input |
| NftRepo.History | backend/repository/nft_repository.go:111-117 | the history of a token is exactly its rows, sorted by ascending block number |
| NftRepo.LatestIndex | backend/repository/nft_repository.go:119-125 | `ORDER BY block_number DESC` then GORM's primary key: the chosen row is the token's row with the greatest block, and every earlier row of the token lies in a strictly earlier block; there is none iff the token has no row |
| NftRepo.Latest | backend/repository/nft_repository.go:119-125 | the latest row is a row of the token with the greatest block number, and there is none iff the token has no row |
| NftRepo.LatestStep | backend/repository/nft_repository.go:119-125 | one more row of the token becomes the latest unless an earlier row lies in the same or a later block |
| NftRepo.InsertByBlockLast | backend/repository/nft_repository.go:111-125 | after an insertion, the last row of a sorted history is the new row when it is not older than the previous last |
| NftRepo.LastBlockHead | backend/repository/nft_repository.go:111-125 | the head of the last block is a history row in the same block as the last row |
| NftRepo.InsertByBlockHead | backend/repository/nft_repository.go:111-125 | an inserted row heads the last block iff it is later than every row; otherwise the head stays |
| NftRepo.HistoryStep | backend/repository/nft_repository.go:111-117 | one more row of the token is inserted into its history by block; any other row leaves the history as it was |
| NftRepo.HeadStep | backend/repository/nft_repository.go:111-125 | the step rule of the latest row and the step rule of the last block's head agree |
| NftRepo.LatestHeadsLastBlock | backend/repository/nft_repository.go:111-125 | the latest row is the first row of the last block of the ascending history; there is none iff the history is empty |
| NftRepo.ListWhere | backend/repository/nft_repository.go:35-51 | a table read lists each matching row once and no other row |
| NftRepo.NFTRepository.constructor | backend/repository/nft_repository.go:13-15 | a new repository starts with empty tables |
| NftRepo.NFTRepository.GetByTokenID | backend/repository/nft_repository.go:17-21 | returns the row under (address, token id), or not-found |
| NftRepo.NFTRepository.GetAttributes | backend/repository/nft_repository.go:23-27 | returns the attribute rows of the NFT id unless the query is refused |
| NftRepo.NFTRepository.GetAllCollections | backend/repository/nft_repository.go:35-39 | lists every collection once, unless the query is refused |
| NftRepo.NFTRepository.GetCollectionByAddress | backend/repository/nft_repository.go:41-45 | returns the collection of the address, or not-found |
| NftRepo.NFTRepository.GetNFTsByCollectionID | backend/repository/nft_repository.go:47-51 | lists every NFT of the collection id once, unless the query is refused |
| NftRepo.NFTRepository.SaveNFTAttribute | backend/repository/nft_repository.go:61-63 | appends the attribute row, or changes nothing when refused |
| NftRepo.NFTRepository.ClearNFTCollections | backend/repository/nft_repository.go:66-68 | empties the collections and resets their counter, touching no other table |
| NftRepo.NFTRepository.ClearNFTs | backend/repository/nft_repository.go:70-72 | empties the NFTs and resets their counter; collections stay |
| NftRepo.NFTRepository.ClearNFTAttributes | backend/repository/nft_repository.go:74-76 | empties the attributes only |
| NftRepo.NFTRepository.UpsertCollection | backend/repository/nft_repository.go:79-83 | the tables and returned id are `PutCollection` of the old ones, or unchanged when refused |
| NftRepo.NFTRepository.UpsertNFT | backend/repository/nft_repository.go:86-90 | the tables and returned id are `PutNft` of the old ones, or unchanged when refused |
| NftRepo.NFTRepository.UpdateNFTOwner | backend/repository/nft_repository.go:93-97 | the tables are `SetOwner` of the old ones, or unchanged when refused |
| NftRepo.NFTRepository.SaveNFTTransferEvent | backend/repository/nft_repository.go:107-109 | appends the history row, or changes nothing when refused |
| NftRepo.NFTRepository.GetNFTTransferEvents | backend/repository/nft_repository.go:111-117 | returns `History`, the token's rows in ascending block order, or an error when the query is refused |
| NftRepo.NFTRepository.GetLatestNFTTransferEvent | backend/repository/nft_repository.go:119-125 | returns `Latest`, not-found when the token has no row, or an error when the query is refused |
| NftRepo.NFTRepository.ClearNFTTransferEvents | backend/repository/nft_repository.go:127-129 | empties the history only |
| NftSpec.TransferRecord | backend/usecase/nft_usecase.go:370-399 | the row is a mint iff topic 1 is the zero address; from, to and token id come from topics 1, 2 and 3; a failed timestamp read gives 0 |
| NftSpec.RecordTransfer | backend/usecase/nft_usecase.go:401-409 | saving the row and setting the owner leave the collections, attributes and set of NFT keys alone |
| NftSpec.ApplyTransfer | backend/usecase/nft_usecase.go:369-410 | a Transfer never adds or removes an NFT and never touches collections or attributes |
| NftSpec.TransferSetsOwner | backend/usecase/nft_usecase.go:386-409 | the owner of (contract, topic-3 id) becomes the topic-2 address even when saving the row failed; no other NFT changes; the row is appended unless refused |
| NftSpec.ApplyTransfers | backend/usecase/nft_usecase.go:452-454 | replaying logs never adds or removes an NFT and never touches collections or attributes |
| NftSpec.ApplyTransfersAppend | backend/usecase/nft_usecase.go:452-454 | replaying two runs of logs equals replaying their concatenation |
| NftSpec.Replay | backend/usecase/nft_usecase.go:430-457 | the scan succeeds iff the client and the log query succeed; on failure nothing is written |
| NftSpec.MintRecord | backend/usecase/nft_usecase.go:301-310 | the MetadataUpdate row is a mint from the zero address to the emitting contract, for the token id in data; a failed timestamp read gives 0 |
| NftSpec.AcceptedMembers | backend/usecase/nft_usecase.go:356-366 | the lenient loop saves exactly the attribute rows the database accepts |
| NftSpec.AcceptedAll | backend/usecase/nft_usecase.go:356-366 | when no row is refused, every attribute row is saved in order |
| NftSpec.FirstRefused | backend/usecase/nft_usecase.go:166-175 | the strict loop stops at the first refused attribute row; every row before it is accepted |
| NftSpec.FirstRefusedAt | backend/usecase/nft_usecase.go:166-175 | a position with all earlier rows accepted and its own row refused, or the end, is the stopping point |
| NftSpec.SaveLenient | backend/usecase/nft_usecase.go:356-366 | the lenient loop only appends: old rows stay first, each new row carries the NFT's id and was accepted, and with no refusal every trait's row follows in order |
| NftSpec.SaveStrict | backend/usecase/nft_usecase.go:166-175 | the strict loop appends a prefix of the trait rows, in order; it fails, with a refusal, exactly when some row is refused, and then the row after the prefix is the refused one |
| NftSpec.ApplyMetadataUpdate | backend/usecase/nft_usecase.go:285-367 | a MetadataUpdate never touches the collections |
| NftSpec.RefreshNft | backend/usecase/nft_usecase.go:317-366 | the refresh writes no collection or history row |
| NftSpec.MetadataFetchFailureWritesNoToken | backend/usecase/nft_usecase.go:301-339 | when the tokenURI, metadata or owner read fails, the mint row is still appended (unless refused) and no NFT or attribute row is written |
| NftSpec.MetadataUpdateAppendsAttributes | backend/usecase/nft_usecase.go:341-366 | when all reads succeed, the NFT row carries the fetched owner, URI and name, old attribute rows stay, and the accepted new rows follow in order |
| NftSpec.HandleNftEvent | backend/usecase/nft_usecase.go:276-283 | handling any NFT log keeps the tables well-formed |
| NftSpec.DispatchByFirstTopic | backend/usecase/nft_usecase.go:276-283 | Transfer goes to the transfer handler, MetadataUpdate to the metadata handler, and any other first topic changes nothing |
| NftSpec.TokenRow | backend/usecase/nft_usecase.go:151-160 | the row `InitializeNFT` upserts: id 0 (the store assigns one), the collection's id, the (contract, token id) key, and the fetched owner, URI and metadata |
| NftSpec.InitNft | backend/usecase/nft_usecase.go:125-178 | initialising a token writes no collection or history row and removes no NFT |
| NftSpec.InitNftOutcome | backend/usecase/nft_usecase.go:125-164 | when the client, collection and reads succeed and the upsert is accepted, the row exists with the collection's id and the fetched owner; otherwise nothing is written and an error is returned |
| NftSpec.InitNftAttributes | backend/usecase/nft_usecase.go:162-177 | after the upsert, attribute rows are appended in order up to the first refused one, and the result is nil iff none was refused |
| NftSpec.InitTokens | backend/usecase/nft_usecase.go:239-244 | the token loop writes no collection or history row and removes no NFT |
| NftSpec.InitTokensCovers | backend/usecase/nft_usecase.go:239-244 | every token below the supply that can be initialised has a row after the loop, whatever failed around it |
| NftSpec.InitTokensAddsLast | backend/usecase/nft_usecase.go:239-244 | the last iteration adds its token when that token can be initialised |
| NftSpec.InitTokensKeeps | backend/usecase/nft_usecase.go:239-244 | a later iteration never removes a token an earlier one wrote |
| NftSpec.EnsureCollection | backend/usecase/nft_usecase.go:182-225 | the step passes iff the collection row exists afterwards; an existing row always passes; a failure writes nothing; only collections change |
| NftSpec.Bootstrap | backend/usecase/nft_usecase.go:180-250 | a bootstrap never removes a collection row, and a passing one leaves the address's row in place |
| NftSpec.BootstrapSupplyFailure | backend/usecase/nft_usecase.go:227-231 | a failed `TotalSupply` returns an error before any token, history or attribute work |
| NftSpec.BootstrapCovers | backend/usecase/nft_usecase.go:239-249 | with a supply read, the bootstrap returns nil and every token below the supply that can be initialised has a row |
| NftSpec.BootstrapZeroSupply | backend/usecase/nft_usecase.go:227-249 | supply 0 attempts no token: the result is the replayed tables and nil |
| NftSpec.ReadNft | backend/usecase/nft_usecase.go:94-97 | a read returns the stored row and exactly its attribute rows; a missing token is not-found |
| NftSpec.LookupNft | backend/usecase/nft_usecase.go:93-123 | a successful lookup returns what a read of the new tables gives |
| NftSpec.LookupNftPaths | backend/usecase/nft_usecase.go:93-113 | a hit writes nothing; a miss bootstraps the collection when it is absent and initialises only that token when it is present |
| NftSpec.LookupNftInitialises | backend/usecase/nft_usecase.go:108-122 | a miss in a known collection whose token can be initialised leaves the row in place, and a success returns it with the fetched owner |
| NftService.NFTUseCase.constructor | backend/usecase/nft_usecase.go:29-38 | a new use case has an empty client cache |
| NftService.NFTUseCase.GetNFTContract | backend/usecase/nft_usecase.go:40-59 | a hit returns the cached client and changes nothing; a miss stores the new client under the address; a failure returns an error and leaves the cache unchanged |
| NftService.NFTUseCase.HandleTransfer | backend/usecase/nft_usecase.go:369-410 | the tables become `ApplyTransfer` of the old ones; the cache only gains this address |
| NftService.NFTUseCase.RecordTransfer | backend/usecase/nft_usecase.go:401-409 | the tables become `RecordTransfer` of the old ones |
| NftService.NFTUseCase.HandleMetadataUpdate | backend/usecase/nft_usecase.go:285-367 | the tables become `ApplyMetadataUpdate` of the old ones |
| NftService.NFTUseCase.RefreshToken | backend/usecase/nft_usecase.go:317-366 | the tables become `RefreshNft` of the old ones |
| NftService.NFTUseCase.SaveAttributesLenient | backend/usecase/nft_usecase.go:356-366 | the loop appends exactly the accepted attribute rows, in order |
| NftService.NFTUseCase.HandleNFTEvent | backend/usecase/nft_usecase.go:276-283 | the tables become `HandleNftEvent` of the old ones |
| NftService.NFTUseCase.ScanHistoricalEvents | backend/usecase/nft_usecase.go:430-457 | the tables and the result are `Replay` of the old ones |
| NftService.NFTUseCase.InitializeNFT | backend/usecase/nft_usecase.go:125-178 | the tables and the result are `InitNft` of the old ones |
| NftService.NFTUseCase.SaveAttributesStrict | backend/usecase/nft_usecase.go:166-175 | the loop appends the rows before the first refused one and fails exactly when some row is refused |
| NftService.NFTUseCase.InitializeNFTCollection | backend/usecase/nft_usecase.go:180-250 | the tables and the result are `Bootstrap` of the old ones |
| NftService.NFTUseCase.EnsureCollectionRow | backend/usecase/nft_usecase.go:187-225 | the tables and the result are `EnsureCollection` of the old ones |
| NftService.NFTUseCase.InitializeTokens | backend/usecase/nft_usecase.go:239-244 | the tables are `InitTokens` of the old ones |
| NftService.NFTUseCase.GetNFTByTokenID | backend/usecase/nft_usecase.go:93-123 | the tables and the result are `LookupNft` of the old ones |
| NftService.NFTUseCase.GetCollectionByAddress | backend/usecase/nft_usecase.go:65-91 | a known collection writes nothing; an unknown one is bootstrapped and a failed bootstrap is that error; when the row exists afterwards the result is Ok iff the NFT query is not refused; a success returns the collection and exactly its NFTs |
| NftService.NFTUseCase.GetNFTCurrentOwner | backend/usecase/nft_usecase.go:418-424 | the owner is the receiver of the first row of the last block of the token's ascending history; no history is not-found; a refused query is an error |
| WebStore.TokenEntryKey | web/src/store/index.js:35-43 | a key starts with the address, then one dash, then only the decimal digits of the token id |
| WebStore.TokenEntryKeyInjective | web/src/store/index.js:35-43 | two `${nftAddress}-${tokenId}` keys are equal iff both the address and the token id are equal |
| WebStore.ActiveOrdersMembers | web/src/store/index.js:106-108 | the filtered orders are exactly those with the address and status 1 |
| WebStore.ActiveOrders | web/src/store/index.js:106-108 | the filter returns only orders of the contract with status 1, no more of them than there are orders |
| WebStore.LeastPrice | web/src/store/index.js:110-113 | the reduce gives a value at most the seed and every price, or the error of an order whose price does not parse |
| WebStore.FloorPrice | web/src/store/index.js:105-114 | null iff no order is active; otherwise at most every active order's price |
| WebStore.LeastPriceSpec | web/src/store/index.js:110-113 | the reduce fails iff a price does not parse; otherwise the result is at most every price and the seed, and it equals one of them |
| WebStore.FloorPriceNull | web/src/store/index.js:105-109 | the floor price is null iff no order has the address and status 1 |
| WebStore.FloorPriceIsLeast | web/src/store/index.js:105-114 | the floor price is the price of one matching order and at most every matching order's price; it fails iff a matching price does not parse |
| WebStore.FloorPriceIgnoresInactive | web/src/store/index.js:106-108 | orders with another address or status never affect the floor price |
| WebStore.ActiveOrdersIdempotent | web/src/store/index.js:106-108 | filtering the active orders twice equals filtering once |
| WebStore.Store.constructor | web/src/store/index.js:6-16 | the initial state: disconnected, no address, no orders, empty maps, and the Rex contract address |
| WebStore.Store.SetOrders | web/src/store/index.js:18-20 | replaces the order list wholesale and nothing else |
| WebStore.Store.SetWalletConnection | web/src/store/index.js:21-23 | sets only the connection flag |
| WebStore.Store.SetCurrentUserAddress | web/src/store/index.js:24-26 | sets only the current address |
| WebStore.Store.SetNFTInfo | web/src/store/index.js:28-34 | 'name' writes only `nftNames[address]`, 'iconURI' only `nftIconURIs[address]`, any other field changes nothing |
| WebStore.Store.SetNFTImageUrl | web/src/store/index.js:35-37 | overwrites only the image URL under the token's key; every other token's entry stays |
| WebStore.Store.SetTokenURI | web/src/store/index.js:41-43 | overwrites only the token URI under the token's key; every other token's entry stays |
| WebStore.Store.DisconnectWallet | web/src/store/index.js:95-99 | leaves the wallet disconnected with an empty address and everything else as it was |
| WebStore.Store.GetFloorPrice | web/src/store/index.js:105-114 | the getter is null iff no order has the address and status 1, and otherwise at most every matching price |

## Left out

- Go index-out-of-range panics are modelled as outcomes, not crashes:
  - a log with too few topics, or OrderCreated data shorter than 64 bytes, fails with `IndexOutOfRange`;
  - an NFT log with too few topics changes nothing.
- Go slicing `data[:32]` may read up to the slice's capacity; the model reads only the data's length.
- The source's typed errors and their wrapped messages are reduced to an error kind (`Domain.Error`), and the `log.Printf` lines are not modelled.
- Concurrency is not modelled: both `startEventListener` loops, `WatchEvents`, the goroutine launch after a bootstrap, context cancellation and the read/write mutex around the cache. The cache is modelled as a sequential map.
- Chain and HTTP reads are an oracle. This covers `NewNFTContract`, `NewNFTMarketContract`, ABI loading, `CallMethod`, the `Name`/`Symbol`/`TokenIconURI`/`TotalSupply`/`TokenURI`/`OwnerOf` wrappers, `GetNFTMetadata`, block timestamps, and the creation-block search with `FilterLogs`.
- Keccak-256 is not computed: the signature hashes are opaque, distinct values.
- EIP-55 checksum casing of `Address.Hex()` is not modelled; `Abi.Hex` writes lower-case hex.
- `time.Unix` is not modelled; a block timestamp is kept as its number of seconds.
- GORM's `Assign` skips zero-valued fields on update; the model overwrites the whole row, keeping the existing id.
- NftRepo.PutNft: upserts by the full (contract, token id) key. The code's struct condition drops a zero token id, so for token 0 it behaves as `NftRepo.PutNftAsWritten` (see "Findings"); the rest of the model uses the keyed upsert.
- NftRepo.NFTRepository.UpsertNFT: promises `PutNft`, the keyed upsert, including for token id 0, where the code as written differs (see "Findings").
- NftRepo.NFTRepository.GetByTokenID: fails only with not-found. A refused query is not modelled, so the model does not capture a database error sending `GetNFTByTokenID` down its bootstrap path.
- NftRepo.NFTRepository.GetCollectionByAddress: fails only with not-found. A refused query is not modelled, so the model does not capture a database error sending `InitializeNFTCollection` down its create path, or `GetCollectionByAddress` of the use case into a bootstrap.
- MarketRepo.MarketRepository.GetOrderByID: fails only with not-found; a refused query is not modelled.
- NftRepo.History: rows of the same block are listed in table order. MySQL does not fix the order of ties under `ORDER BY block_number ASC`, so the model picks one of the orders it may return.
- The upsert ignores an id already set on the argument.
- The SQL text is not modelled.
- `CreateInBatches` chunks by 100 inside one transaction; the model inserts the batch atomically.
- A status update for an id without a row returns nil, as the code does.
- `NewMarketUseCase` and `NewNFTUseCase` are modelled only as field wiring. The first `InitializeOrders` call is the separate `InitializeOrders` method, and the constructors' failure returns are not modelled.
- `main.go`, the controllers and the routes are not part of this model.
- Pass-through members are not modelled separately: `GetAllOrders`, `GetOrderByNFT` (whose repository method is not among the sources), use-case `GetAllCollections` and `GetNFTTransferHistory`, which return the repository's result unchanged.
- `GetAllNFTs`, `SaveCollection`, `SaveNFT`, the market repository's `CreateNFTCollection` and `Close` are not modelled because nothing in the modelled core calls them.
- `GetAttributeByTokenID` is not modelled because it queries columns the attribute table does not have.
- The `getCollectionInfo` getter is not modelled because it reads a state field that does not exist.
- `setTokenInfo` and the `tokenInfo` map are not modelled because the shape of `info` is not fixed by the store.
- The wallet actions `fetchOrders`, `checkWalletConnection` and `connectWallet` are not modelled because they call MetaMask and ethers providers.
- The `disconnectWallet` console message is not modelled.
- WebStore.FloorPrice: prices are parsed as decimal digit strings only. `ethers.BigNumber.from` also accepts hex and negative text, which the model reports as unparsable; the price strings the backend stores are always decimal.
- MarketSpec.CreatedInsertsOne: stated for a stored id other than 0. For on-chain index 2^64 - 1 the `uint(orderId+1)` wrap gives id 0, which GORM treats as "assign the next id"; the model computes that case through `Inserted` but states no lemma about it.
- `TotalSupply`'s `uint` truncation and `big.NewInt(int64(tokenID))` are not modelled: token ids and the supply are unbounded naturals.

## Findings

| source | as written | input that shows it | evidently intended | confidence | as-written member | corrected member |
|---|---|---|---|---|---|---|
| backend/repository/nft_repository.go:86-90 | `Where(domain.NFT{ContractAddress, TokenID})` is a struct condition, and GORM leaves zero fields out of it, so for token id 0 the lookup matches every NFT of the contract and `Assign` rewrites the lowest-id one | token 1 of contract c stored, then `UpsertNFT` of token 0 of c: token 1's row takes token 0's owner, URI and metadata, and no token-0 row is created | an upsert keyed by (contract, token id) for every token id, 0 included | not executed; follows GORM's documented rule for struct conditions | NftRepo.PutNftAsWritten, NftRepo.TokenZeroUpsertOverwritesAnotherToken | NftRepo.PutNft |
