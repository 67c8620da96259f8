/**
  The collection, NFT, attribute and transfer-history tables
  (backend/repository/nft_repository.go).

  Collections are keyed by contract address and NFTs by (contract address,
  token id), each table with its own AUTO_INCREMENT counter; attribute and
  transfer-history rows are only ever appended, so they are sequences in
  insertion order.
*/
module NftRepo {
  import opened Wrappers
  import opened Domain

  /** The natural key of an NFT row (the unique index on contract address and token id). */
  datatype TokenKey = TokenKey(contractAddress: string, tokenId: nat)

  function KeyOf(n: NFT): TokenKey
  {
    TokenKey(n.contractAddress, n.tokenId)
  }

  /** The statements this repository sends to the database. */
  datatype Statement =
    | TruncateCollections
    | TruncateNfts
    | TruncateAttributes
    | TruncateTransferEvents
    | SelectCollections
    | SelectNftsOfCollection(collectionId: nat)
    | SelectAttributes(nftId: nat)
    | UpsertCollectionRow(collection: Collection)
    | UpsertNftRow(nft: NFT)
    | UpdateOwner(key: TokenKey, owner: string)
    | InsertAttribute(attribute: Attribute)
    | InsertTransferEvent(event: TransferEvent)
    | SelectTransferEvents(key: TokenKey)
    | SelectLatestTransferEvent(key: TokenKey)

  /** The contents of the four tables and their counters. */
  datatype Tables = Tables(
    collections: map<string, Collection>,
    nextCollectionId: nat,
    nfts: map<TokenKey, NFT>,
    nextNftId: nat,
    attributes: seq<Attribute>,
    events: seq<TransferEvent>)

  /** Freshly created (or truncated) tables. */
  const Empty: Tables := Tables(map[], 1, map[], 1, [], [])

  /** Every row sits under its own natural key, and ids are below their counter. */
  predicate WellFormed(t: Tables)
  {
    && t.nextCollectionId >= 1
    && t.nextNftId >= 1
    && (forall a :: a in t.collections ==>
          t.collections[a].contractAddress == a && 1 <= t.collections[a].id < t.nextCollectionId)
    && (forall k :: k in t.nfts ==> KeyOf(t.nfts[k]) == k && 1 <= t.nfts[k].id < t.nextNftId)
  }

  /** No two rows of a table share an id (the primary key). */
  predicate DistinctIds(t: Tables)
  {
    && (forall a, b :: a in t.collections && b in t.collections && a != b ==>
          t.collections[a].id != t.collections[b].id)
    && (forall k, l :: k in t.nfts && l in t.nfts && k != l ==> t.nfts[k].id != t.nfts[l].id)
  }

  lemma EmptyWellFormed()
    ensures WellFormed(Empty) && DistinctIds(Empty)
  {
  }

  /**
    `UpsertCollection`: the row for the collection's address becomes the given
    collection; an existing row keeps its id, a new row takes the next one.
    Returns the new tables and the row id (the id GORM writes back into the argument).
  */
  function PutCollection(t: Tables, c: Collection): (r: (Tables, nat))
    requires WellFormed(t)
    ensures WellFormed(r.0)
    ensures c.contractAddress in r.0.collections && r.0.collections[c.contractAddress] == c.(id := r.1)
    ensures forall a :: a != c.contractAddress ==>
      (a in r.0.collections <==> a in t.collections) && (a in t.collections ==> r.0.collections[a] == t.collections[a])
    ensures c.contractAddress in t.collections ==> r.1 == t.collections[c.contractAddress].id
    ensures c.contractAddress !in t.collections ==> forall a :: a in t.collections ==> t.collections[a].id != r.1
    ensures r.0.(collections := t.collections, nextCollectionId := t.nextCollectionId) == t
  {
    var a := c.contractAddress;
    if a in t.collections then
      var id := t.collections[a].id;
      (t.(collections := t.collections[a := c.(id := id)]), id)
    else
      var id := t.nextCollectionId;
      (t.(collections := t.collections[a := c.(id := id)], nextCollectionId := id + 1), id)
  }

  /** An upsert by address never gives two collection rows the same id. */
  lemma PutCollectionKeepsIdsDistinct(t: Tables, c: Collection)
    requires WellFormed(t) && DistinctIds(t)
    ensures DistinctIds(PutCollection(t, c).0)
  {
    var (r, id) := PutCollection(t, c);
    forall a, b | a in r.collections && b in r.collections && a != b
      ensures r.collections[a].id != r.collections[b].id
    {
      if a == c.contractAddress || b == c.contractAddress {
        var other := if a == c.contractAddress then b else a;
        assert r.collections[other] == t.collections[other];
      }
    }
  }

  /** Upserting the same collection twice leaves the tables as one upsert does. */
  lemma PutCollectionIdempotent(t: Tables, c: Collection)
    requires WellFormed(t)
    ensures PutCollection(PutCollection(t, c).0, c) == PutCollection(t, c)
  {
    var (t1, id) := PutCollection(t, c);
    assert t1.collections[c.contractAddress := c.(id := id)] == t1.collections;
  }

  /**
    `UpsertNFT`: the row for the NFT's (contract, token id) becomes the given NFT;
    an existing row keeps its id, a new row takes the next one.  Returns the new
    tables and the row id.
  */
  function PutNft(t: Tables, n: NFT): (r: (Tables, nat))
    requires WellFormed(t)
    ensures WellFormed(r.0)
    ensures KeyOf(n) in r.0.nfts && r.0.nfts[KeyOf(n)] == n.(id := r.1)
    ensures forall k :: k != KeyOf(n) ==>
      (k in r.0.nfts <==> k in t.nfts) && (k in t.nfts ==> r.0.nfts[k] == t.nfts[k])
    ensures KeyOf(n) in t.nfts ==> r.1 == t.nfts[KeyOf(n)].id
    ensures KeyOf(n) !in t.nfts ==> forall k :: k in t.nfts ==> t.nfts[k].id != r.1
    ensures r.0.(nfts := t.nfts, nextNftId := t.nextNftId) == t
  {
    var k := KeyOf(n);
    if k in t.nfts then
      var id := t.nfts[k].id;
      (t.(nfts := t.nfts[k := n.(id := id)]), id)
    else
      var id := t.nextNftId;
      (t.(nfts := t.nfts[k := n.(id := id)], nextNftId := id + 1), id)
  }

  /** An upsert by (contract, token id) never gives two NFT rows the same id. */
  lemma PutNftKeepsIdsDistinct(t: Tables, n: NFT)
    requires WellFormed(t) && DistinctIds(t)
    ensures DistinctIds(PutNft(t, n).0)
  {
    var (r, id) := PutNft(t, n);
    forall k, l | k in r.nfts && l in r.nfts && k != l
      ensures r.nfts[k].id != r.nfts[l].id
    {
      if k == KeyOf(n) || l == KeyOf(n) {
        var other := if k == KeyOf(n) then l else k;
        assert r.nfts[other] == t.nfts[other];
      }
    }
  }

  /** Upserting the same NFT twice leaves the tables as one upsert does. */
  lemma PutNftIdempotent(t: Tables, n: NFT)
    requires WellFormed(t)
    ensures PutNft(PutNft(t, n).0, n) == PutNft(t, n)
  {
    var (t1, id) := PutNft(t, n);
    assert t1.nfts[KeyOf(n) := n.(id := id)] == t1.nfts;
  }

  /**
    Whether a stored key satisfies the lookup of `UpsertNFT` as the code builds
    it: GORM turns a struct condition into one equality per non-zero field, so
    token id 0 (or an empty address) adds no condition at all.
  */
  predicate StructConditionHolds(k: TokenKey, n: NFT)
  {
    && (n.contractAddress == "" || k.contractAddress == n.contractAddress)
    && (n.tokenId == 0 || k.tokenId == n.tokenId)
  }

  /** The key among `keys` whose row has the lowest id (the row `First` returns). */
  ghost function LowestIdKey(m: map<TokenKey, NFT>, keys: set<TokenKey>): (k: TokenKey)
    requires keys != {} && keys <= m.Keys
    ensures k in keys && forall l :: l in keys ==> m[k].id <= m[l].id
    decreases keys
  {
    var k :| k in keys;
    if keys == {k} then k
    else
      var rest := LowestIdKey(m, keys - {k});
      if m[k].id <= m[rest].id then k else rest
  }

  /**
    `UpsertNFT` as written: the first row (by id) satisfying the struct
    condition takes the NFT's other fields and keeps its own key and id; with no
    such row the NFT is created.  For a non-zero token id and a non-empty address
    this is `PutNft`.
  */
  ghost function PutNftAsWritten(t: Tables, n: NFT): (r: (Tables, nat))
    requires WellFormed(t)
    ensures WellFormed(r.0)
    ensures n.tokenId != 0 && n.contractAddress != "" ==> r == PutNft(t, n)
  {
    var hits := set k | k in t.nfts && StructConditionHolds(k, n);
    if hits == {} then PutNft(t, n)
    else
      var k := LowestIdKey(t.nfts, hits);
      var id := t.nfts[k].id;
      assert n.tokenId != 0 && n.contractAddress != "" ==> hits == {KeyOf(n)};
      (t.(nfts := t.nfts[k := n.(id := id, contractAddress := k.contractAddress, tokenId := k.tokenId)]), id)
  }

  /**
    With token 1 of a contract stored, upserting token 0 of the same contract
    rewrites token 1's row (its owner becomes token 0's owner) and never creates
    a row for token 0, while the upsert by the full key creates it.
  */
  lemma TokenZeroUpsertOverwritesAnotherToken()
    ensures var stored := NFT(1, 1, 1, "c", "alice", "u1", "n1", "d1", "i1");
      var t := Tables(map[], 1, map[TokenKey("c", 1) := stored], 2, [], []);
      var zero := NFT(0, 1, 0, "c", "bob", "u0", "n0", "d0", "i0");
      && TokenKey("c", 0) !in PutNftAsWritten(t, zero).0.nfts
      && PutNftAsWritten(t, zero).0.nfts[TokenKey("c", 1)].owner == "bob"
      && TokenKey("c", 0) in PutNft(t, zero).0.nfts
      && PutNft(t, zero).0.nfts[TokenKey("c", 1)] == stored
  {
    var stored := NFT(1, 1, 1, "c", "alice", "u1", "n1", "d1", "i1");
    var t := Tables(map[], 1, map[TokenKey("c", 1) := stored], 2, [], []);
    var zero := NFT(0, 1, 0, "c", "bob", "u0", "n0", "d0", "i0");
    var hits := set k | k in t.nfts && StructConditionHolds(k, zero);
    assert hits == {TokenKey("c", 1)};
  }

  /** `UpdateNFTOwner`: only the owner of the matching row changes; no matching row, no change. */
  function SetOwner(t: Tables, key: TokenKey, owner: string): (r: Tables)
    requires WellFormed(t)
    ensures WellFormed(r)
    ensures r.nfts.Keys == t.nfts.Keys
    ensures key in t.nfts ==> r.nfts[key] == t.nfts[key].(owner := owner)
    ensures forall k :: k in t.nfts && k != key ==> r.nfts[k] == t.nfts[k]
    ensures r.(nfts := t.nfts) == t
  {
    if key in t.nfts then t.(nfts := t.nfts[key := t.nfts[key].(owner := owner)]) else t
  }

  /** Setting the same owner twice is the same as setting it once. */
  lemma SetOwnerIdempotent(t: Tables, key: TokenKey, owner: string)
    requires WellFormed(t)
    ensures SetOwner(SetOwner(t, key, owner), key, owner) == SetOwner(t, key, owner)
  {
    if key in t.nfts {
      var t1 := SetOwner(t, key, owner);
      assert t1.nfts[key := t1.nfts[key].(owner := owner)] == t1.nfts;
    }
  }

  /** Appending an attribute row; every existing row stays where it was. */
  function AddAttribute(t: Tables, a: Attribute): (r: Tables)
    requires WellFormed(t)
    ensures WellFormed(r)
    ensures |r.attributes| == |t.attributes| + 1 && r.attributes[..|t.attributes|] == t.attributes
    ensures r.attributes[|t.attributes|] == a
    ensures r.(attributes := t.attributes) == t
  {
    t.(attributes := t.attributes + [a])
  }

  /** Appending a transfer-history row; every existing row stays where it was. */
  function AddEvent(t: Tables, e: TransferEvent): (r: Tables)
    requires WellFormed(t)
    ensures WellFormed(r)
    ensures |r.events| == |t.events| + 1 && r.events[..|t.events|] == t.events
    ensures r.events[|t.events|] == e
    ensures r.(events := t.events) == t
  {
    t.(events := t.events + [e])
  }

  /** The attribute rows of one NFT, in table order. */
  function AttributesOf(attributes: seq<Attribute>, nftId: nat): (r: seq<Attribute>)
    ensures |r| <= |attributes|
    ensures forall i :: 0 <= i < |r| ==> r[i].nftId == nftId
  {
    if attributes == [] then []
    else
      var last := attributes[|attributes| - 1];
      AttributesOf(attributes[..|attributes| - 1], nftId) + (if last.nftId == nftId then [last] else [])
  }

  /** The attribute list of an NFT holds exactly the rows carrying its id. */
  lemma {:induction false} AttributesOfMembers(attributes: seq<Attribute>, nftId: nat)
    ensures forall a :: a in AttributesOf(attributes, nftId) <==> a in attributes && a.nftId == nftId
    decreases |attributes|
  {
    if attributes != [] {
      var init := attributes[..|attributes| - 1];
      AttributesOfMembers(init, nftId);
      assert attributes == init + [attributes[|attributes| - 1]];
    }
  }

  /** Appending rows for an NFT extends its attribute list by exactly those rows, in order. */
  lemma {:induction false} AttributesOfAppend(attributes: seq<Attribute>, more: seq<Attribute>, nftId: nat)
    requires forall i :: 0 <= i < |more| ==> more[i].nftId == nftId
    ensures AttributesOf(attributes + more, nftId) == AttributesOf(attributes, nftId) + more
    decreases |more|
  {
    if more != [] {
      var all := attributes + more;
      var init := more[..|more| - 1];
      var last := more[|more| - 1];
      assert all[..|all| - 1] == attributes + init && all[|all| - 1] == last;
      assert AttributesOf(all, nftId) == AttributesOf(attributes + init, nftId) + [last];
      AttributesOfAppend(attributes, init, nftId);
      assert init + [last] == more;
    } else {
      assert attributes + more == attributes;
    }
  }

  predicate Matches(e: TransferEvent, key: TokenKey)
  {
    e.contractAddress == key.contractAddress && e.tokenId == key.tokenId
  }

  /** The transfer-history rows of one token, in table order. */
  function EventsOf(events: seq<TransferEvent>, key: TokenKey): (r: seq<TransferEvent>)
    ensures forall e :: e in r <==> e in events && Matches(e, key)
  {
    if events == [] then []
    else
      var last := events[|events| - 1];
      EventsOf(events[..|events| - 1], key) + (if Matches(last, key) then [last] else [])
  }

  predicate SortedByBlock(s: seq<TransferEvent>)
  {
    forall i, j :: 0 <= i < j < |s| ==> s[i].blockNumber <= s[j].blockNumber
  }

  /** Every row of `s` lies in block `b` or later. */
  predicate AtLeast(s: seq<TransferEvent>, b: nat)
  {
    forall i :: 0 <= i < |s| ==> b <= s[i].blockNumber
  }

  /** Inserts `e` after every leading row whose block is not later than its own. */
  function InsertByBlock(s: seq<TransferEvent>, e: TransferEvent): (r: seq<TransferEvent>)
    ensures multiset(r) == multiset(s) + multiset{e}
    ensures |r| == |s| + 1
  {
    if s == [] then [e]
    else if e.blockNumber < s[0].blockNumber then [e] + s
    else
      assert s == [s[0]] + s[1..];
      [s[0]] + InsertByBlock(s[1..], e)
  }

  /** Inserting a row no earlier than a bound keeps every row at or past the bound. */
  lemma {:induction false} InsertByBlockAtLeast(s: seq<TransferEvent>, e: TransferEvent, b: nat)
    requires AtLeast(s, b) && b <= e.blockNumber
    ensures AtLeast(InsertByBlock(s, e), b)
    decreases |s|
  {
    if s != [] && e.blockNumber >= s[0].blockNumber {
      InsertByBlockAtLeast(s[1..], e, b);
      var rest := InsertByBlock(s[1..], e);
      assert forall i :: 0 < i <= |rest| ==> ([s[0]] + rest)[i] == rest[i - 1];
    }
  }

  /** A row followed by sorted rows none of which is earlier than it is sorted. */
  lemma SortedCons(x: TransferEvent, rest: seq<TransferEvent>)
    requires SortedByBlock(rest) && AtLeast(rest, x.blockNumber)
    ensures SortedByBlock([x] + rest)
  {
    var r := [x] + rest;
    assert forall i :: 0 < i < |r| ==> r[i] == rest[i - 1];
  }

  /** Inserting into a sorted list keeps it sorted. */
  lemma {:induction false} InsertByBlockSorted(s: seq<TransferEvent>, e: TransferEvent)
    requires SortedByBlock(s)
    ensures SortedByBlock(InsertByBlock(s, e))
    decreases |s|
  {
    if s == [] {
    } else if e.blockNumber < s[0].blockNumber {
      SortedCons(e, s);
    } else {
      var tail := s[1..];
      assert forall i :: 0 <= i < |tail| ==> tail[i] == s[i + 1];
      InsertByBlockSorted(tail, e);
      InsertByBlockAtLeast(tail, e, s[0].blockNumber);
      SortedCons(s[0], InsertByBlock(tail, e));
    }
  }

  /** Stable insertion sort by ascending block number. */
  function SortByBlock(s: seq<TransferEvent>): (r: seq<TransferEvent>)
    ensures SortedByBlock(r)
    ensures multiset(r) == multiset(s)
  {
    if s == [] then []
    else
      assert s == s[..|s| - 1] + [s[|s| - 1]];
      InsertByBlockSorted(SortByBlock(s[..|s| - 1]), s[|s| - 1]);
      InsertByBlock(SortByBlock(s[..|s| - 1]), s[|s| - 1])
  }

  /**
    `GetNFTTransferEvents`: the rows of one token, ascending by block number
    (rows of the same block keep their table order).
  */
  function History(events: seq<TransferEvent>, key: TokenKey): (r: seq<TransferEvent>)
    ensures SortedByBlock(r)
    ensures multiset(r) == multiset(EventsOf(events, key))
    ensures forall e :: e in r <==> e in events && Matches(e, key)
  {
    var r := SortByBlock(EventsOf(events, key));
    assert forall e :: e in r <==> e in multiset(EventsOf(events, key));
    r
  }

  /**
    The position of the row `GetLatestNFTTransferEvent` returns: the token's row
    with the greatest block number and, among rows of that block, the first in
    table order (GORM's `First` orders by the primary key after the query's own
    `block_number DESC`, and rows are appended with ascending ids).  `|events|`
    when the token has no row.
  */
  function LatestIndex(events: seq<TransferEvent>, key: TokenKey): (j: nat)
    ensures j <= |events|
    ensures j == |events| <==> forall i :: 0 <= i < |events| ==> !Matches(events[i], key)
    ensures j < |events| ==> Matches(events[j], key)
    ensures j < |events| ==> forall i :: 0 <= i < |events| && Matches(events[i], key) ==>
      events[i].blockNumber <= events[j].blockNumber
    ensures j < |events| ==> forall i :: 0 <= i < j && Matches(events[i], key) ==>
      events[i].blockNumber < events[j].blockNumber
  {
    if events == [] then 0
    else
      var n := |events| - 1;
      var init := events[..n];
      var p := LatestIndex(init, key);
      assert forall i :: 0 <= i < n ==> events[i] == init[i];
      if !Matches(events[n], key) then (if p == n then |events| else p)
      else if p < n && events[p].blockNumber >= events[n].blockNumber then p
      else n
  }

  /** `GetLatestNFTTransferEvent`: the row at `LatestIndex`, or none when the token has no row. */
  function Latest(events: seq<TransferEvent>, key: TokenKey): (r: Option<TransferEvent>)
    ensures r.None? <==> forall i :: 0 <= i < |events| ==> !Matches(events[i], key)
    ensures r.Some? ==> r.value in events && Matches(r.value, key)
    ensures r.Some? ==> forall i :: 0 <= i < |events| && Matches(events[i], key) ==>
      events[i].blockNumber <= r.value.blockNumber
  {
    var j := LatestIndex(events, key);
    if j == |events| then None else Some(events[j])
  }

  /** Where the last row of a sorted history ends up after an insertion. */
  lemma {:induction false} InsertByBlockLast(s: seq<TransferEvent>, e: TransferEvent)
    requires SortedByBlock(s)
    ensures var r := InsertByBlock(s, e);
      r[|r| - 1] == if s == [] || e.blockNumber >= s[|s| - 1].blockNumber then e else s[|s| - 1]
  {
    if s != [] && e.blockNumber >= s[0].blockNumber {
      InsertByBlockLast(s[1..], e);
    }
  }

  /** The first row of `s` that lies in the same block as its last row. */
  function LastBlockHead(s: seq<TransferEvent>): (e: TransferEvent)
    requires s != []
    ensures e in s && e.blockNumber == s[|s| - 1].blockNumber
  {
    if |s| == 1 || s[0].blockNumber == s[|s| - 1].blockNumber then s[0]
    else LastBlockHead(s[1..])
  }

  /**
    Inserting a row into a sorted history: the new row heads the last block when
    it is later than every row, and otherwise the head of the last block stays.
  */
  lemma {:induction false} InsertByBlockHead(s: seq<TransferEvent>, e: TransferEvent)
    requires SortedByBlock(s)
    ensures LastBlockHead(InsertByBlock(s, e)) ==
      if s == [] || e.blockNumber > s[|s| - 1].blockNumber then e else LastBlockHead(s)
    decreases |s|
  {
    if s != [] && e.blockNumber >= s[0].blockNumber {
      var tail := s[1..];
      var rest := InsertByBlock(tail, e);
      var r := [s[0]] + rest;
      assert InsertByBlock(s, e) == r;
      assert r[1..] == rest;
      if tail != [] {
        assert forall i :: 0 <= i < |tail| ==> tail[i] == s[i + 1];
        InsertByBlockHead(tail, e);
        InsertByBlockLast(tail, e);
        assert tail[|tail| - 1] == s[|s| - 1];
      }
    } else if s != [] {
      var r := [e] + s;
      assert r[1..] == s;
    }
  }

  /** The latest row after one more row: the new row wins unless an earlier row of the token lies in a block at least as late. */
  lemma LatestStep(events: seq<TransferEvent>, key: TokenKey)
    requires events != []
    ensures var init := events[..|events| - 1];
      var last := events[|events| - 1];
      var prev := Latest(init, key);
      Latest(events, key) ==
        if !Matches(last, key) then prev
        else if prev.Some? && prev.value.blockNumber >= last.blockNumber then prev
        else Some(last)
  {
    var n := |events| - 1;
    var init := events[..n];
    assert forall i :: 0 <= i < n ==> events[i] == init[i];
  }

  /** The history after one more row: the row is inserted by block when it belongs to the token. */
  lemma HistoryStep(events: seq<TransferEvent>, key: TokenKey)
    requires events != []
    ensures var init := events[..|events| - 1];
      var last := events[|events| - 1];
      History(events, key) ==
        if Matches(last, key) then InsertByBlock(History(init, key), last) else History(init, key)
  {
    var init := events[..|events| - 1];
    var last := events[|events| - 1];
    var before := EventsOf(init, key);
    if Matches(last, key) {
      var filtered := before + [last];
      assert EventsOf(events, key) == filtered;
      assert filtered[..|filtered| - 1] == before;
    } else {
      assert EventsOf(events, key) == before;
    }
  }

  /**
    The latest row of a token heads the last block of its ascending history: it
    is the earliest history row among those with the greatest block number.
  */
  lemma {:induction false} LatestHeadsLastBlock(events: seq<TransferEvent>, key: TokenKey)
    ensures var h := History(events, key);
      Latest(events, key) == if h == [] then None else Some(LastBlockHead(h))
    decreases |events|
  {
    if events != [] {
      var init := events[..|events| - 1];
      var last := events[|events| - 1];
      LatestHeadsLastBlock(init, key);
      LatestStep(events, key);
      HistoryStep(events, key);
      if Matches(last, key) {
        HeadStep(Latest(init, key), History(init, key), last);
      }
    }
  }

  /** One step of `LatestHeadsLastBlock`, for a row of the token. */
  lemma HeadStep(prev: Option<TransferEvent>, h: seq<TransferEvent>, last: TransferEvent)
    requires SortedByBlock(h)
    requires prev == if h == [] then None else Some(LastBlockHead(h))
    ensures Some(LastBlockHead(InsertByBlock(h, last))) ==
      if prev.Some? && prev.value.blockNumber >= last.blockNumber then prev else Some(last)
  {
    InsertByBlockHead(h, last);
  }

  /** Lists the values of `m` that satisfy `keep`, each once, in no particular order. */
  method ListWhere<K, V(==)>(m: map<K, V>, keep: V -> bool, keyOf: V -> K) returns (rows: seq<V>)
    requires forall k :: k in m ==> keyOf(m[k]) == k
    ensures forall i :: 0 <= i < |rows| ==> keyOf(rows[i]) in m && m[keyOf(rows[i])] == rows[i] && keep(rows[i])
    ensures forall k :: k in m && keep(m[k]) ==> m[k] in rows
    ensures forall i, j :: 0 <= i < j < |rows| ==> keyOf(rows[i]) != keyOf(rows[j])
  {
    var todo := m.Keys;
    rows := [];
    while todo != {}
      invariant todo <= m.Keys
      invariant forall i :: 0 <= i < |rows| ==>
        keyOf(rows[i]) in m && keyOf(rows[i]) !in todo && m[keyOf(rows[i])] == rows[i] && keep(rows[i])
      invariant forall k :: k in m && k !in todo && keep(m[k]) ==> m[k] in rows
      invariant forall i, j :: 0 <= i < j < |rows| ==> keyOf(rows[i]) != keyOf(rows[j])
      decreases |todo|
    {
      var k :| k in todo;
      if keep(m[k]) {
        rows := rows + [m[k]];
      }
      todo := todo - {k};
    }
  }

  class NFTRepository {
    /** Which statements the database refuses. */
    const rejects: Statement -> bool
    var collections: map<string, Collection>
    var nextCollectionId: nat
    var nfts: map<TokenKey, NFT>
    var nextNftId: nat
    var attributes: seq<Attribute>
    var events: seq<TransferEvent>

    /** The four tables as one value. */
    function State(): Tables
      reads this
    {
      Tables(collections, nextCollectionId, nfts, nextNftId, attributes, events)
    }

    ghost predicate Valid()
      reads this
    {
      WellFormed(State()) && DistinctIds(State())
    }

    constructor(rejects: Statement -> bool)
      ensures Valid()
      ensures this.rejects == rejects && State() == Empty
    {
      this.rejects := rejects;
      collections, nextCollectionId := map[], 1;
      nfts, nextNftId := map[], 1;
      attributes, events := [], [];
    }

    /** The NFT row with this contract address and token id, or not-found. */
    method GetByTokenID(contractAddress: string, tokenId: nat) returns (r: Result<NFT, Error>)
      requires Valid()
      ensures r.Ok? <==> TokenKey(contractAddress, tokenId) in nfts
      ensures r.Ok? ==> r.value == nfts[TokenKey(contractAddress, tokenId)]
      ensures r.Ok? ==> r.value.contractAddress == contractAddress && r.value.tokenId == tokenId
      ensures r.Err? ==> r.error == NotFound
    {
      var key := TokenKey(contractAddress, tokenId);
      if key in nfts {
        r := Ok(nfts[key]);
      } else {
        r := Err(NotFound);
      }
    }

    /** The attribute rows of one NFT, in table order. */
    method GetAttributes(nftId: nat) returns (r: Result<seq<Attribute>, Error>)
      ensures rejects(SelectAttributes(nftId)) ==> r == Err(Rejected)
      ensures !rejects(SelectAttributes(nftId)) ==> r == Ok(AttributesOf(attributes, nftId))
    {
      if rejects(SelectAttributes(nftId)) {
        return Err(Rejected);
      }
      r := Ok(AttributesOf(attributes, nftId));
    }

    /** Every collection row, each once. */
    method GetAllCollections() returns (r: Result<seq<Collection>, Error>)
      requires Valid()
      ensures rejects(SelectCollections) ==> r == Err(Rejected)
      ensures !rejects(SelectCollections) ==> r.Ok?
      ensures r.Ok? ==> forall i :: 0 <= i < |r.value| ==>
        r.value[i].contractAddress in collections && collections[r.value[i].contractAddress] == r.value[i]
      ensures r.Ok? ==> forall a :: a in collections ==> collections[a] in r.value
      ensures r.Ok? ==> forall i, j :: 0 <= i < j < |r.value| ==> r.value[i].contractAddress != r.value[j].contractAddress
    {
      if rejects(SelectCollections) {
        return Err(Rejected);
      }
      var rows := ListWhere(collections, (c: Collection) => true, (c: Collection) => c.contractAddress);
      r := Ok(rows);
    }

    /** The collection row with this contract address, or not-found. */
    method GetCollectionByAddress(contractAddress: string) returns (r: Result<Collection, Error>)
      requires Valid()
      ensures r.Ok? <==> contractAddress in collections
      ensures r.Ok? ==> r.value == collections[contractAddress] && r.value.contractAddress == contractAddress
      ensures r.Err? ==> r.error == NotFound
    {
      if contractAddress in collections {
        r := Ok(collections[contractAddress]);
      } else {
        r := Err(NotFound);
      }
    }

    /** Every NFT row of one collection id, each once. */
    method GetNFTsByCollectionID(collectionId: nat) returns (r: Result<seq<NFT>, Error>)
      requires Valid()
      ensures rejects(SelectNftsOfCollection(collectionId)) ==> r == Err(Rejected)
      ensures !rejects(SelectNftsOfCollection(collectionId)) ==> r.Ok?
      ensures r.Ok? ==> forall i :: 0 <= i < |r.value| ==>
        KeyOf(r.value[i]) in nfts && nfts[KeyOf(r.value[i])] == r.value[i] && r.value[i].collectionId == collectionId
      ensures r.Ok? ==> forall k :: k in nfts && nfts[k].collectionId == collectionId ==> nfts[k] in r.value
      ensures r.Ok? ==> forall i, j :: 0 <= i < j < |r.value| ==> KeyOf(r.value[i]) != KeyOf(r.value[j])
    {
      if rejects(SelectNftsOfCollection(collectionId)) {
        return Err(Rejected);
      }
      var rows := ListWhere(nfts, (n: NFT) => n.collectionId == collectionId, KeyOf);
      r := Ok(rows);
    }

    method SaveNFTAttribute(a: Attribute) returns (r: Outcome<Error>)
      requires Valid()
      modifies this
      ensures Valid()
      ensures rejects(InsertAttribute(a)) ==> r == Fail(Rejected) && State() == old(State())
      ensures !rejects(InsertAttribute(a)) ==> r == Pass && State() == AddAttribute(old(State()), a)
    {
      if rejects(InsertAttribute(a)) {
        return Fail(Rejected);
      }
      attributes := attributes + [a];
      r := Pass;
    }

    method ClearNFTCollections() returns (r: Outcome<Error>)
      requires Valid()
      modifies this
      ensures Valid()
      ensures rejects(TruncateCollections) ==> r == Fail(Rejected) && State() == old(State())
      ensures !rejects(TruncateCollections) ==>
        r == Pass && State() == old(State()).(collections := map[], nextCollectionId := 1)
    {
      if rejects(TruncateCollections) {
        return Fail(Rejected);
      }
      collections, nextCollectionId := map[], 1;
      r := Pass;
    }

    method ClearNFTs() returns (r: Outcome<Error>)
      requires Valid()
      modifies this
      ensures Valid()
      ensures rejects(TruncateNfts) ==> r == Fail(Rejected) && State() == old(State())
      ensures !rejects(TruncateNfts) ==> r == Pass && State() == old(State()).(nfts := map[], nextNftId := 1)
    {
      if rejects(TruncateNfts) {
        return Fail(Rejected);
      }
      nfts, nextNftId := map[], 1;
      r := Pass;
    }

    method ClearNFTAttributes() returns (r: Outcome<Error>)
      requires Valid()
      modifies this
      ensures Valid()
      ensures rejects(TruncateAttributes) ==> r == Fail(Rejected) && State() == old(State())
      ensures !rejects(TruncateAttributes) ==> r == Pass && State() == old(State()).(attributes := [])
    {
      if rejects(TruncateAttributes) {
        return Fail(Rejected);
      }
      attributes := [];
      r := Pass;
    }

    /** Upserts by contract address; on success returns the row id. */
    method UpsertCollection(c: Collection) returns (r: Result<nat, Error>)
      requires Valid()
      modifies this
      ensures Valid()
      ensures rejects(UpsertCollectionRow(c)) ==> r == Err(Rejected) && State() == old(State())
      ensures !rejects(UpsertCollectionRow(c)) ==>
        r.Ok? && (State(), r.value) == PutCollection(old(State()), c)
    {
      if rejects(UpsertCollectionRow(c)) {
        return Err(Rejected);
      }
      PutCollectionKeepsIdsDistinct(State(), c);
      var (t, id) := PutCollection(State(), c);
      collections, nextCollectionId := t.collections, t.nextCollectionId;
      r := Ok(id);
    }

    /** Upserts by (contract address, token id); on success returns the row id. */
    method UpsertNFT(n: NFT) returns (r: Result<nat, Error>)
      requires Valid()
      modifies this
      ensures Valid()
      ensures rejects(UpsertNftRow(n)) ==> r == Err(Rejected) && State() == old(State())
      ensures !rejects(UpsertNftRow(n)) ==> r.Ok? && (State(), r.value) == PutNft(old(State()), n)
    {
      if rejects(UpsertNftRow(n)) {
        return Err(Rejected);
      }
      PutNftKeepsIdsDistinct(State(), n);
      var (t, id) := PutNft(State(), n);
      nfts, nextNftId := t.nfts, t.nextNftId;
      r := Ok(id);
    }

    /** Sets the owner of the matching token; no matching row is not an error. */
    method UpdateNFTOwner(contractAddress: string, tokenId: nat, owner: string) returns (r: Outcome<Error>)
      requires Valid()
      modifies this
      ensures Valid()
      ensures rejects(UpdateOwner(TokenKey(contractAddress, tokenId), owner)) ==>
        r == Fail(Rejected) && State() == old(State())
      ensures !rejects(UpdateOwner(TokenKey(contractAddress, tokenId), owner)) ==>
        r == Pass && State() == SetOwner(old(State()), TokenKey(contractAddress, tokenId), owner)
    {
      var key := TokenKey(contractAddress, tokenId);
      if rejects(UpdateOwner(key, owner)) {
        return Fail(Rejected);
      }
      nfts := SetOwner(State(), key, owner).nfts;
      r := Pass;
    }

    method SaveNFTTransferEvent(e: TransferEvent) returns (r: Outcome<Error>)
      requires Valid()
      modifies this
      ensures Valid()
      ensures rejects(InsertTransferEvent(e)) ==> r == Fail(Rejected) && State() == old(State())
      ensures !rejects(InsertTransferEvent(e)) ==> r == Pass && State() == AddEvent(old(State()), e)
    {
      if rejects(InsertTransferEvent(e)) {
        return Fail(Rejected);
      }
      events := events + [e];
      r := Pass;
    }

    /** The token's transfer history, ascending by block number; a refused query is an error. */
    method GetNFTTransferEvents(contractAddress: string, tokenId: nat) returns (r: Result<seq<TransferEvent>, Error>)
      ensures rejects(SelectTransferEvents(TokenKey(contractAddress, tokenId))) ==> r == Err(Rejected)
      ensures !rejects(SelectTransferEvents(TokenKey(contractAddress, tokenId))) ==>
        r == Ok(History(events, TokenKey(contractAddress, tokenId)))
    {
      if rejects(SelectTransferEvents(TokenKey(contractAddress, tokenId))) {
        return Err(Rejected);
      }
      r := Ok(History(events, TokenKey(contractAddress, tokenId)));
    }

    /**
      The token's transfer row with the greatest block number (the first such row
      in table order), not-found when it has none, or an error when the query is refused.
    */
    method GetLatestNFTTransferEvent(contractAddress: string, tokenId: nat) returns (r: Result<TransferEvent, Error>)
      ensures rejects(SelectLatestTransferEvent(TokenKey(contractAddress, tokenId))) ==> r == Err(Rejected)
      ensures !rejects(SelectLatestTransferEvent(TokenKey(contractAddress, tokenId))) ==>
        (r.Err? <==> Latest(events, TokenKey(contractAddress, tokenId)).None?) &&
        (r.Err? ==> r.error == NotFound) &&
        (r.Ok? ==> Some(r.value) == Latest(events, TokenKey(contractAddress, tokenId)))
    {
      if rejects(SelectLatestTransferEvent(TokenKey(contractAddress, tokenId))) {
        return Err(Rejected);
      }
      var latest := Latest(events, TokenKey(contractAddress, tokenId));
      if latest.None? {
        return Err(NotFound);
      }
      r := Ok(latest.value);
    }

    method ClearNFTTransferEvents() returns (r: Outcome<Error>)
      requires Valid()
      modifies this
      ensures Valid()
      ensures rejects(TruncateTransferEvents) ==> r == Fail(Rejected) && State() == old(State())
      ensures !rejects(TruncateTransferEvents) ==> r == Pass && State() == old(State()).(events := [])
    {
      if rejects(TruncateTransferEvents) {
        return Fail(Rejected);
      }
      events := [];
      r := Pass;
    }
  }
}
